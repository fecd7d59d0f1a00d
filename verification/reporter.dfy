/**
 * The report formatter of reporter.js (`reportIssues`, `pluralString`): two
 * log lines, an optional failure message for the host, and one annotation
 * per issue, all computed from the entries and their counts.
 */
module Reporter {

  import opened Results
  import opened JsValues
  import opened Policies
  import opened Counting

  /** The nouns the report pluralises. */
  datatype Noun = PotentialPolicyFile | InvalidYamlFile | File | ErrorNoun | WarningNoun | Problem

  function Singular(noun: Noun): string
  {
    match noun
    case PotentialPolicyFile => "potential policy file"
    case InvalidYamlFile => "invalid YAML file"
    case File => "file"
    case ErrorNoun => "error"
    case WarningNoun => "warning"
    case Problem => "problem"
  }

  /** The plural of each of these nouns adds an `s`. */
  function Plural(noun: Noun): string
  {
    Singular(noun) + "s"
  }

  /**
   * `pluralString`: the count in decimal, a space, and the noun, singular
   * exactly when the count is 1 (so "0 files", "1 file", "2 files").
   */
  function PluralString(count: int, noun: Noun): string
  {
    IntToString(count) + " " + (if count == 1 then Singular(noun) else Plural(noun))
  }

  /**
   * What the phrase carries: the count reads back from its leading digits,
   * a space follows, the rest is the noun in one of its two forms, and the
   * phrase ends in `s` exactly when the count is not 1.
   */
  lemma PluralStringSpec(count: int, noun: Noun)
    ensures var r := PluralString(count, noun);
            var n := |IntToString(count)|;
            && |r| > n + 1
            && ParseInt(r[..n]) == Some(count)
            && r[n] == ' '
            && r[n + 1..] in {Singular(noun), Plural(noun)}
            && (r[|r| - 1] == 's' <==> count != 1)
  {
    var digits := IntToString(count);
    IntToStringRoundTrip(count);
    var r := PluralString(count, noun);
    assert r[..|digits|] == digits;
  }

  /** One call of the annotator: status, `{file}` and message. */
  datatype Annotation = Annotation(status: string, file: string, message: string)

  /** What `reportIssues` sends out: log lines, the `setFailed` message if any, and the annotations. */
  datatype Report = Report(log: seq<string>, failure: Option<string>, annotations: seq<Annotation>)

  function Annotate(e: Entry, issue: Issue): Annotation
  {
    Annotation(issue.status, e.file, issue.message)
  }

  /** The annotations for one entry, in issue order. */
  function AnnotateEntry(e: Entry): (r: seq<Annotation>)
    ensures |r| == |e.issues|
    ensures forall j :: 0 <= j < |e.issues| ==> r[j] == Annotate(e, e.issues[j])
  {
    seq(|e.issues|, j requires 0 <= j < |e.issues| => Annotate(e, e.issues[j]))
  }

  /** The nested `forEach`: entries in order, each entry's issues in order. */
  function Annotations(es: seq<Entry>): (r: seq<Annotation>)
    ensures |r| == IssueTotal(es)
    decreases |es|
  {
    if |es| == 0 then [] else AnnotateEntry(es[0]) + Annotations(es[1..])
  }

  /**
   * Issue `j` of entry `i` is annotated at position (issues of the entries
   * before `i`) + `j`: one annotation per issue, in entry order then issue order.
   */
  lemma {:induction false} AnnotationAt(es: seq<Entry>, i: int, j: int)
    requires 0 <= i < |es| && 0 <= j < |es[i].issues|
    ensures IssueTotal(es[..i]) + j < |Annotations(es)|
    ensures Annotations(es)[IssueTotal(es[..i]) + j] == Annotate(es[i], es[i].issues[j])
    decreases i
  {
    if i == 0 {
      assert es[..0] == [];
    } else {
      assert es[..i][1..] == es[1..][..i - 1];
      AnnotationAt(es[1..], i - 1, j);
      var prefix := IssueTotal(es[1..][..i - 1]) + j;
      assert Annotations(es)[|es[0].issues| + prefix] == Annotations(es[1..])[prefix];
    }
  }

  const ALL_GOOD: string := "Everything looks good."

  /** The first log line. */
  function CheckedLine(total: int): string
  {
    "Checked " + PluralString(total, PotentialPolicyFile) + "."
  }

  /** The second log line of a failing run. */
  function ProblemSummary(c: Counts): string
  {
    "Found " + PluralString(c.invalid, InvalidYamlFile) + " and "
    + if c.problemPolicy != 0 then
        PluralString(c.problemPolicy, File) + " with " + PluralString(c.error, ErrorNoun)
        + " and " + PluralString(c.warning, WarningNoun) + "."
      else "0 files with errors or warnings."
  }

  /** The message handed to `setFailed`. */
  function FailureMessage(c: Counts): string
  {
    "Found " + PluralString(c.error + c.warning + c.invalid, Problem)
    + " in " + PluralString(c.total, PotentialPolicyFile) + "."
  }

  /**
   * `reportIssues` with the counts given: always two log lines, the first
   * naming the number of files checked; a failure exactly when
   * `problemPolicy + invalid` is nonzero; one annotation per issue either way.
   */
  function ReportWithCounts(es: seq<Entry>, c: Counts): (r: Report)
    ensures |r.log| == 2
    ensures r.log[0] == CheckedLine(c.total)
    ensures r.failure.None? <==> c.problemPolicy + c.invalid == 0
    ensures r.failure.None? ==> r.log[1] == ALL_GOOD
    ensures r.failure.Some? ==> r.log[1] == ProblemSummary(c) && r.failure.value == FailureMessage(c)
    ensures r.annotations == Annotations(es) && |r.annotations| == IssueTotal(es)
  {
    var checked := CheckedLine(c.total);
    var annotations := Annotations(es);
    if c.problemPolicy + c.invalid == 0 then Report([checked, ALL_GOOD], None, annotations)
    else Report([checked, ProblemSummary(c)], Some(FailureMessage(c)), annotations)
  }

  /** `reportIssues` on the validator's own counts. */
  function ReportIssues(es: seq<Entry>): Report
  {
    ReportWithCounts(es, GetCounts(es))
  }

  /** The second log line alone tells a passing run from a failing one. */
  lemma SecondLineDecidesOutcome(es: seq<Entry>, c: Counts)
    ensures ReportWithCounts(es, c).log[1] == ALL_GOOD <==> ReportWithCounts(es, c).failure.None?
  {
    var r := ReportWithCounts(es, c);
    if r.failure.Some? {
      assert r.log[1][0] == 'F' && ALL_GOOD[0] == 'E';
    }
  }
}
