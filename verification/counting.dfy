/**
 * The summary of validator.js (`getCounts`): one `reduce` over the entries
 * that counts entries with issues and classifies every issue, followed by
 * subtracting the parse failures from the entries with issues.
 */
module Counting {

  import opened Policies

  /** The counters of `getCounts`; JavaScript numbers, so `problemPolicy` may go negative. */
  datatype Counts = Counts(total: int, invalid: int, error: int, warning: int, problemPolicy: int)

  /** The branch of the `if / else if` chain an issue takes. */
  datatype IssueKind = InvalidKind | ErrorKind | WarningKind | Uncounted

  function Kind(i: Issue): IssueKind
  {
    if IsInvalidIssue(i) then InvalidKind
    else if i.status == ERROR then ErrorKind
    else if i.status == WARNING then WarningKind
    else Uncounted
  }

  /** Reference count: the issues of one list that fall in `kind`. */
  function CountKind(issues: seq<Issue>, kind: IssueKind): nat
    decreases |issues|
  {
    if |issues| == 0 then 0 else (if Kind(issues[0]) == kind then 1 else 0) + CountKind(issues[1..], kind)
  }

  /** Reference count: the issues of all entries that fall in `kind`. */
  function CountKindIn(es: seq<Entry>, kind: IssueKind): nat
    decreases |es|
  {
    if |es| == 0 then 0 else CountKind(es[0].issues, kind) + CountKindIn(es[1..], kind)
  }

  /** Reference count: the entries with at least one issue. */
  function EntriesWithIssues(es: seq<Entry>): nat
    decreases |es|
  {
    if |es| == 0 then 0 else (if |es[0].issues| == 0 then 0 else 1) + EntriesWithIssues(es[1..])
  }

  /** One step of the inner `forEach`: bump the counter the issue's kind names. */
  function TallyIssue(c: Counts, i: Issue): Counts
  {
    match Kind(i)
    case InvalidKind => c.(invalid := c.invalid + 1)
    case ErrorKind => c.(error := c.error + 1)
    case WarningKind => c.(warning := c.warning + 1)
    case Uncounted => c
  }

  function TallyIssues(c: Counts, issues: seq<Issue>): Counts
    decreases |issues|
  {
    if |issues| == 0 then c else TallyIssues(TallyIssue(c, issues[0]), issues[1..])
  }

  /** One step of the outer `reduce`: count the entry if it has issues, then tally its issues. */
  function TallyEntry(c: Counts, e: Entry): Counts
  {
    var c := if |e.issues| == 0 then c else c.(problemPolicy := c.problemPolicy + 1);
    TallyIssues(c, e.issues)
  }

  function TallyEntries(c: Counts, es: seq<Entry>): Counts
    decreases |es|
  {
    if |es| == 0 then c else TallyEntries(TallyEntry(c, es[0]), es[1..])
  }

  lemma {:induction false} TallyIssuesAdds(c: Counts, issues: seq<Issue>)
    ensures TallyIssues(c, issues) ==
              c.(invalid := c.invalid + CountKind(issues, InvalidKind),
                 error := c.error + CountKind(issues, ErrorKind),
                 warning := c.warning + CountKind(issues, WarningKind))
    decreases |issues|
  {
    if |issues| > 0 {
      TallyIssuesAdds(TallyIssue(c, issues[0]), issues[1..]);
    }
  }

  lemma {:induction false} TallyEntriesAdds(c: Counts, es: seq<Entry>)
    ensures TallyEntries(c, es) ==
              c.(invalid := c.invalid + CountKindIn(es, InvalidKind),
                 error := c.error + CountKindIn(es, ErrorKind),
                 warning := c.warning + CountKindIn(es, WarningKind),
                 problemPolicy := c.problemPolicy + EntriesWithIssues(es))
    decreases |es|
  {
    if |es| > 0 {
      var e := es[0];
      var bumped := if |e.issues| == 0 then c else c.(problemPolicy := c.problemPolicy + 1);
      TallyIssuesAdds(bumped, e.issues);
      TallyEntriesAdds(TallyEntry(c, e), es[1..]);
    }
  }

  /**
   * The summary: `total` is the number of entries; `invalid` the number of
   * issues whose message starts with "YAML"; `error` and `warning` the other
   * issues with that status; `problemPolicy` the entries with issues less `invalid`.
   */
  function GetCounts(es: seq<Entry>): (c: Counts)
    ensures c.total == |es|
    ensures c.invalid == CountKindIn(es, InvalidKind)
    ensures c.error == CountKindIn(es, ErrorKind)
    ensures c.warning == CountKindIn(es, WarningKind)
    ensures c.problemPolicy == EntriesWithIssues(es) - c.invalid
  {
    var tally := TallyEntries(Counts(|es|, 0, 0, 0, 0), es);
    TallyEntriesAdds(Counts(|es|, 0, 0, 0, 0), es);
    tally.(problemPolicy := tally.problemPolicy - tally.invalid)
  }

  /** Reference count: all issues of all entries, whatever their kind. */
  function IssueTotal(es: seq<Entry>): nat
    decreases |es|
  {
    if |es| == 0 then 0 else |es[0].issues| + IssueTotal(es[1..])
  }

  /** Every issue falls in exactly one kind, so the four kind counts add up to all issues. */
  lemma {:induction false} KindsPartitionIssues(issues: seq<Issue>)
    ensures CountKind(issues, InvalidKind) + CountKind(issues, ErrorKind)
            + CountKind(issues, WarningKind) + CountKind(issues, Uncounted) == |issues|
    decreases |issues|
  {
    if |issues| > 0 {
      KindsPartitionIssues(issues[1..]);
    }
  }

  /**
   * Over all entries, the issues the summary counts plus the ones it passes
   * over are exactly all issues; so `invalid + error + warning` never
   * exceeds the number of annotations.
   */
  lemma {:induction false} CountsCoverIssues(es: seq<Entry>)
    ensures GetCounts(es).invalid + GetCounts(es).error + GetCounts(es).warning
            + CountKindIn(es, Uncounted) == IssueTotal(es)
    ensures GetCounts(es).invalid + GetCounts(es).error + GetCounts(es).warning <= IssueTotal(es)
    decreases |es|
  {
    if |es| > 0 {
      KindsPartitionIssues(es[0].issues);
      CountsCoverIssues(es[1..]);
    }
  }
}
