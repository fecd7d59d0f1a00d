/**
 * The scenarios of the repository's tests (test/validatorTests.js and
 * test/reporterTests.js), stated about the model with the exact strings the
 * tests expect.
 */
module Scenarios {

  import opened Results
  import opened JsValues
  import opened Policies
  import opened RequiredKeys
  import opened Counting
  import opened Validator
  import opened Reporter

  lemma SmallNumbers()
    ensures IntToString(0) == "0" && IntToString(1) == "1" && IntToString(2) == "2" && IntToString(3) == "3"
  {
  }

  lemma OneFilePhrase()
    ensures PluralString(1, PotentialPolicyFile) == "1 potential policy file"
  {
    SmallNumbers();
  }

  lemma ThreeFilesPhrase()
    ensures PluralString(3, PotentialPolicyFile) == "3 potential policy files"
  {
    SmallNumbers();
    assert Plural(PotentialPolicyFile) == "potential policy files";
  }

  lemma FilePhrases()
    ensures PluralString(1, PotentialPolicyFile) == "1 potential policy file"
    ensures PluralString(3, PotentialPolicyFile) == "3 potential policy files"
  {
    OneFilePhrase();
    ThreeFilesPhrase();
  }

  lemma InvalidPhrases()
    ensures PluralString(0, InvalidYamlFile) == "0 invalid YAML files"
    ensures PluralString(1, InvalidYamlFile) == "1 invalid YAML file"
  {
    SmallNumbers();
  }

  lemma EntryPhrases()
    ensures PluralString(1, File) == "1 file"
    ensures PluralString(2, File) == "2 files"
  {
    SmallNumbers();
  }

  lemma IssuePhrases()
    ensures PluralString(1, ErrorNoun) == "1 error"
    ensures PluralString(2, ErrorNoun) == "2 errors"
    ensures PluralString(3, ErrorNoun) == "3 errors"
    ensures PluralString(0, WarningNoun) == "0 warnings"
  {
    SmallNumbers();
  }

  lemma ProblemPhrases()
    ensures PluralString(1, Problem) == "1 problem"
    ensures PluralString(2, Problem) == "2 problems"
    ensures PluralString(3, Problem) == "3 problems"
  {
    SmallNumbers();
  }

  /** The annotations of a single entry are those of its issues. */
  lemma AnnotationsOfOne(e: Entry)
    ensures Annotations([e]) == AnnotateEntry(e)
  {
    assert [e][1..] == [];
  }


  // validatorTests: the documents the tests feed in, as parsed YAML.

  function Doc(fields: map<string, string>): Value
  {
    Obj(map k | k in fields :: Str(fields[k]))
  }

  const FOO: Value := Doc(map["id" := "foo", "name" := "fooName", "for" := "repositories"])
  const FOO_NO_NAME: Value := Doc(map["id" := "foo", "for" := "repositories"])
  const FOR_ONLY: Value := Doc(map["for" := "repositories"])
  const BAR_NO_NAME: Value := Doc(map["id" := "bar", "for" := "repositories"])
  const BAR: Value := Doc(map["id" := "bar", "name" := "barName", "for" := "repositories"])

  /** The summary of one validated entry. */
  lemma OneEntryTotals(es: seq<Entry>)
    requires |es| == 1
    ensures IssueTotal(es) == |es[0].issues|
    ensures EntriesWithIssues(es) == (if es[0].issues == [] then 0 else 1)
  {
    assert es[1..] == [];
  }

  lemma ThreeEntryTotals(es: seq<Entry>)
    requires |es| == 3
    ensures IssueTotal(es) == |es[0].issues| + |es[1].issues| + |es[2].issues|
    ensures EntriesWithIssues(es) ==
              (if es[0].issues == [] then 0 else 1) + (if es[1].issues == [] then 0 else 1) + (if es[2].issues == [] then 0 else 1)
  {
    var rest := es[1..];
    assert rest[0] == es[1];
    var last := rest[1..];
    assert last[0] == es[2];
    OneEntryTotals(last);
    assert IssueTotal(rest) == |rest[0].issues| + IssueTotal(last);
    assert EntriesWithIssues(rest) == (if rest[0].issues == [] then 0 else 1) + EntriesWithIssues(last);
  }

  lemma OneFileFailures(files: seq<LoadedFile>)
    requires |files| == 1
    ensures FailedFiles(files) == (if files[0].outcome.Failed? then 1 else 0)
  {
    assert files[1..] == [];
  }

  lemma ThreeFileFailures(files: seq<LoadedFile>)
    requires |files| == 3
    ensures FailedFiles(files) ==
              (if files[0].outcome.Failed? then 1 else 0) + (if files[1].outcome.Failed? then 1 else 0)
              + (if files[2].outcome.Failed? then 1 else 0)
  {
    var rest := files[1..];
    assert rest[0] == files[1];
    var last := rest[1..];
    assert last[0] == files[2];
    OneFileFailures(last);
    assert FailedFiles(rest) == (if rest[0].outcome.Failed? then 1 else 0) + FailedFiles(last);
  }

  lemma NameMessage()
    ensures MissingKeyIssue("name") == Issue("error", "Policy missing 'name' clause")
  {
  }

  lemma IdMessage()
    ensures MissingKeyIssue("id") == Issue("error", "Policy missing 'id' clause")
  {
  }

  /** The counts of a validated single file, from the number of its issues. */
  lemma SingleFileCounts(files: seq<LoadedFile>, issues: nat)
    requires |files| == 1 && files[0].outcome.Parsed?
    requires |ExpectedIssues(files, 0)| == issues
    ensures GetCounts(Validate(ORG_MODE, files).value) == Counts(1, 0, issues, 0, if issues == 0 then 0 else 1)
  {
    var es := Validate(ORG_MODE, files).value;
    ValidatedIssueCount(files, 0);
    ValidatedCounts(files);
    OneEntryTotals(es);
    OneFileFailures(files);
  }

  lemma FooIssues(file: string)
    ensures ExpectedIssues([LoadedFile(file, Parsed(FOO))], 0) == []
  {
    RequiredKeyOrder(FOO);
  }

  /** validatorTests "finds a valid file". */
  lemma FindsValidFile(file: string)
    ensures GetCounts(Validate(ORG_MODE, [LoadedFile(file, Parsed(FOO))]).value) == Counts(1, 0, 0, 0, 0)
  {
    FooIssues(file);
    SingleFileCounts([LoadedFile(file, Parsed(FOO))], 0);
  }

  /** validatorTests "finds an invalid YAML file": whatever the parser's message. */
  lemma FindsInvalidYamlFile(file: string, cause: string)
    ensures GetCounts(Validate(ORG_MODE, [LoadedFile(file, Failed(cause))]).value) == Counts(1, 1, 0, 0, 0)
  {
    var files := [LoadedFile(file, Failed(cause))];
    var es := Validate(ORG_MODE, files).value;
    ValidateEntries(files, 0);
    CountsAfterValidate(files);
    OneEntryTotals(es);
    OneFileFailures(files);
  }

  lemma FooNoNameIssues(file: string)
    ensures ExpectedIssues([LoadedFile(file, Parsed(FOO_NO_NAME))], 0) == [MissingKeyIssue("name")]
  {
    RequiredKeyOrder(FOO_NO_NAME);
  }

  /** validatorTests "finds a missing key": the one issue names the `name` clause. */
  lemma FindsMissingKey(file: string)
    ensures var es := Validate(ORG_MODE, [LoadedFile(file, Parsed(FOO_NO_NAME))]).value;
            && es[0].issues == [Issue("error", "Policy missing 'name' clause")]
            && GetCounts(es) == Counts(1, 0, 1, 0, 1)
  {
    var files := [LoadedFile(file, Parsed(FOO_NO_NAME))];
    ValidateEntries(files, 0);
    FooNoNameIssues(file);
    NameMessage();
    SingleFileCounts(files, 1);
  }

  lemma ForOnlyIssues(file: string)
    ensures ExpectedIssues([LoadedFile(file, Parsed(FOR_ONLY))], 0) == [MissingKeyIssue("id"), MissingKeyIssue("name")]
  {
    RequiredKeyOrder(FOR_ONLY);
  }

  /** validatorTests "finds two missing keys": `id` first, then `name`. */
  lemma FindsTwoMissingKeys(file: string)
    ensures var es := Validate(ORG_MODE, [LoadedFile(file, Parsed(FOR_ONLY))]).value;
            && es[0].issues == [Issue("error", "Policy missing 'id' clause"), Issue("error", "Policy missing 'name' clause")]
            && GetCounts(es) == Counts(1, 0, 2, 0, 1)
  {
    var files := [LoadedFile(file, Parsed(FOR_ONLY))];
    ValidateEntries(files, 0);
    ForOnlyIssues(file);
    IdMessage();
    NameMessage();
    SingleFileCounts(files, 2);
  }

  /** The three files of "finds duplicate ids and missing keys". */
  function DuplicateFiles(): seq<LoadedFile>
  {
    [LoadedFile("foo.yaml", Parsed(FOO)), LoadedFile("bar.yaml", Parsed(BAR_NO_NAME)), LoadedFile("test/bar.yaml", Parsed(BAR))]
  }

  lemma DuplicateFileIds()
    ensures FileId(DuplicateFiles()[0]) == "foo"
    ensures FileId(DuplicateFiles()[1]) == "bar" && FileId(DuplicateFiles()[2]) == "bar"
    ensures forall i :: 0 <= i < 3 ==> ParsedPolicy(DuplicateFiles(), i)
  {
  }

  lemma FooIsUnique()
    ensures ExpectedIssues(DuplicateFiles(), 0) == []
  {
    var files := DuplicateFiles();
    DuplicateFileIds();
    assert "bar" != "foo";
    assert !SharesId(files, 0);
    RequiredKeyOrder(FOO);
  }

  lemma BarIsDuplicatedAndIncomplete()
    ensures ExpectedIssues(DuplicateFiles(), 1) == [DuplicateIssue("bar"), MissingKeyIssue("name")]
  {
    var files := DuplicateFiles();
    DuplicateFileIds();
    assert SharesId(files, 1);
    RequiredKeyOrder(BAR_NO_NAME);
  }

  lemma TestBarIsDuplicated()
    ensures ExpectedIssues(DuplicateFiles(), 2) == [DuplicateIssue("bar")]
  {
    var files := DuplicateFiles();
    DuplicateFileIds();
    assert SharesId(files, 2);
    RequiredKeyOrder(BAR);
  }

  /** `CountsAfterValidate` as one record. */
  lemma ValidatedCounts(files: seq<LoadedFile>)
    ensures var es := Validate(ORG_MODE, files).value;
            GetCounts(es) == Counts(|files|, FailedFiles(files), IssueTotal(es) - FailedFiles(files), 0,
                                    EntriesWithIssues(es) - FailedFiles(files))
  {
    var es := Validate(ORG_MODE, files).value;
    var c := GetCounts(es);
    CountsAfterValidate(files);
    assert c == Counts(c.total, c.invalid, c.error, c.warning, c.problemPolicy);
  }

  lemma ValidatedIssueCount(files: seq<LoadedFile>, i: nat)
    requires i < |files|
    ensures |Validate(ORG_MODE, files).value[i].issues| == |ExpectedIssues(files, i)|
  {
    ValidateEntries(files, i);
  }

  lemma ThreeEntryCounts(es: seq<Entry>, files: seq<LoadedFile>, a: nat, b: nat, c: nat)
    requires |es| == 3 && |files| == 3
    requires files[0].outcome.Parsed? && files[1].outcome.Parsed? && files[2].outcome.Parsed?
    requires |es[0].issues| == a && |es[1].issues| == b && |es[2].issues| == c
    requires GetCounts(es) == Counts(|files|, FailedFiles(files), IssueTotal(es) - FailedFiles(files), 0,
                                     EntriesWithIssues(es) - FailedFiles(files))
    ensures GetCounts(es) ==
              Counts(3, 0, a + b + c, 0, (if a == 0 then 0 else 1) + (if b == 0 then 0 else 1) + (if c == 0 then 0 else 1))
  {
    ThreeEntryTotals(es);
    ThreeFileFailures(files);
  }

  /** The counts of three validated files that all parsed, from the number of issues of each. */
  lemma ThreeFileCounts(files: seq<LoadedFile>, a: nat, b: nat, c: nat)
    requires |files| == 3 && files[0].outcome.Parsed? && files[1].outcome.Parsed? && files[2].outcome.Parsed?
    requires |ExpectedIssues(files, 0)| == a && |ExpectedIssues(files, 1)| == b && |ExpectedIssues(files, 2)| == c
    ensures GetCounts(Validate(ORG_MODE, files).value) ==
              Counts(3, 0, a + b + c, 0, (if a == 0 then 0 else 1) + (if b == 0 then 0 else 1) + (if c == 0 then 0 else 1))
  {
    var es := Validate(ORG_MODE, files).value;
    ValidatedIssueCount(files, 0);
    ValidatedIssueCount(files, 1);
    ValidatedIssueCount(files, 2);
    ValidatedCounts(files);
    ThreeEntryCounts(es, files, a, b, c);
  }

  lemma DuplicateEntry(i: nat, issues: seq<Issue>)
    requires i < 3 && ExpectedIssues(DuplicateFiles(), i) == issues
    ensures Validate(ORG_MODE, DuplicateFiles()).value[i].issues == issues
  {
    ValidateEntries(DuplicateFiles(), i);
  }

  lemma DuplicateIssuesFound()
    ensures var es := Validate(ORG_MODE, DuplicateFiles()).value;
            && es[0].issues == []
            && es[1].issues == [DuplicateIssue("bar"), MissingKeyIssue("name")]
            && es[2].issues == [DuplicateIssue("bar")]
  {
    FooIsUnique();
    BarIsDuplicatedAndIncomplete();
    TestBarIsDuplicated();
    DuplicateEntry(0, []);
    DuplicateEntry(1, [DuplicateIssue("bar"), MissingKeyIssue("name")]);
    DuplicateEntry(2, [DuplicateIssue("bar")]);
  }

  lemma DuplicateCounts()
    ensures GetCounts(Validate(ORG_MODE, DuplicateFiles()).value) == Counts(3, 0, 3, 0, 2)
  {
    FooIsUnique();
    BarIsDuplicatedAndIncomplete();
    TestBarIsDuplicated();
    ThreeFileCounts(DuplicateFiles(), 0, 2, 1);
  }

  /**
   * validatorTests "finds duplicate ids and missing keys": both `bar` files
   * are flagged, the first one also for its missing `name`, in that order.
   */
  lemma FindsDuplicatesAndMissingKeys()
    ensures var es := Validate(ORG_MODE, DuplicateFiles()).value;
            && es[0].issues == []
            && es[1].issues == [DuplicateIssue("bar"), MissingKeyIssue("name")]
            && es[2].issues == [DuplicateIssue("bar")]
            && GetCounts(es) == Counts(3, 0, 3, 0, 2)
  {
    DuplicateIssuesFound();
    DuplicateCounts();
  }

  // reporterTests: the reporter is handed entries and counts directly.

  lemma CheckedOne()
    ensures CheckedLine(1) == "Checked 1 potential policy file."
  {
    FilePhrases();
    assert CheckedLine(1) == "Checked " + "1 potential policy file" + ".";
  }

  lemma CheckedThree()
    ensures CheckedLine(3) == "Checked 3 potential policy files."
  {
    FilePhrases();
    assert CheckedLine(3) == "Checked " + "3 potential policy files" + ".";
  }

  lemma InvalidFileLines()
    ensures ProblemSummary(Counts(1, 1, 0, 0, 0)) == "Found " + "1 invalid YAML file" + " and " + "0 files with errors or warnings."
    ensures FailureMessage(Counts(1, 1, 0, 0, 0)) == "Found " + "1 problem" + " in " + "1 potential policy file" + "."
  {
    FilePhrases();
    InvalidPhrases();
    ProblemPhrases();
  }

  lemma MissingKeyLines()
    ensures ProblemSummary(Counts(1, 0, 1, 0, 1)) ==
              "Found " + "0 invalid YAML files" + " and " + "1 file" + " with " + "1 error" + " and " + "0 warnings" + "."
    ensures FailureMessage(Counts(1, 0, 1, 0, 1)) == "Found " + "1 problem" + " in " + "1 potential policy file" + "."
  {
    FilePhrases();
    InvalidPhrases();
    EntryPhrases();
    IssuePhrases();
    ProblemPhrases();
  }

  lemma TwoMissingKeysLines()
    ensures ProblemSummary(Counts(1, 0, 2, 0, 1)) ==
              "Found " + "0 invalid YAML files" + " and " + "1 file" + " with " + "2 errors" + " and " + "0 warnings" + "."
    ensures FailureMessage(Counts(1, 0, 2, 0, 1)) == "Found " + "2 problems" + " in " + "1 potential policy file" + "."
  {
    FilePhrases();
    InvalidPhrases();
    EntryPhrases();
    IssuePhrases();
    ProblemPhrases();
  }

  lemma DuplicatesLines()
    ensures ProblemSummary(Counts(3, 0, 3, 0, 2)) ==
              "Found " + "0 invalid YAML files" + " and " + "2 files" + " with " + "3 errors" + " and " + "0 warnings" + "."
    ensures FailureMessage(Counts(3, 0, 3, 0, 2)) == "Found " + "3 problems" + " in " + "3 potential policy files" + "."
  {
    FilePhrases();
    InvalidPhrases();
    EntryPhrases();
    IssuePhrases();
    ProblemPhrases();
  }

  /** reporterTests "reports a valid file": all good, no failure, no annotation. */
  lemma ReportsValidFile()
    ensures var r := ReportWithCounts([Entry("foo.yaml", Undefined, [])], Counts(1, 0, 0, 0, 0));
            && r.log[0] == "Checked 1 potential policy file."
            && r.log[1] == "Everything looks good."
            && r.failure == None
            && r.annotations == []
  {
    CheckedOne();
  }

  /** reporterTests "reports on invalid file". */
  lemma ReportsInvalidFile()
    ensures var r := ReportWithCounts([Entry("foo.yaml", Undefined, [Issue("error", "foo")])], Counts(1, 1, 0, 0, 0));
            && r.log[0] == "Checked 1 potential policy file."
            && r.log[1] == "Found " + "1 invalid YAML file" + " and " + "0 files with errors or warnings."
            && r.failure == Some("Found " + "1 problem" + " in " + "1 potential policy file" + ".")
            && r.annotations == [Annotation("error", "foo.yaml", "foo")]
  {
    CheckedOne();
    InvalidFileLines();
    AnnotationsOfOne(Entry("foo.yaml", Undefined, [Issue("error", "foo")]));
  }

  /** reporterTests "reports missing key". */
  lemma ReportsMissingKey()
    ensures var r := ReportWithCounts([Entry("foo.yaml", Undefined, [Issue("error", "foo")])], Counts(1, 0, 1, 0, 1));
            && r.log[0] == "Checked 1 potential policy file."
            && r.log[1] == "Found " + "0 invalid YAML files" + " and " + "1 file" + " with " + "1 error" + " and " + "0 warnings" + "."
            && r.failure == Some("Found " + "1 problem" + " in " + "1 potential policy file" + ".")
            && r.annotations == [Annotation("error", "foo.yaml", "foo")]
  {
    CheckedOne();
    MissingKeyLines();
    AnnotationsOfOne(Entry("foo.yaml", Undefined, [Issue("error", "foo")]));
  }

  /** reporterTests "reports two missing keys": two annotations, in issue order. */
  lemma ReportsTwoMissingKeys()
    ensures var r := ReportWithCounts([Entry("foo.yaml", Undefined, [Issue("error", "foo"), Issue("error", "bar")])],
                                      Counts(1, 0, 2, 0, 1));
            && r.log[0] == "Checked 1 potential policy file."
            && r.log[1] == "Found " + "0 invalid YAML files" + " and " + "1 file" + " with " + "2 errors" + " and " + "0 warnings" + "."
            && r.failure == Some("Found " + "2 problems" + " in " + "1 potential policy file" + ".")
            && r.annotations == [Annotation("error", "foo.yaml", "foo"), Annotation("error", "foo.yaml", "bar")]
  {
    CheckedOne();
    TwoMissingKeysLines();
    AnnotationsOfOne(Entry("foo.yaml", Undefined, [Issue("error", "foo"), Issue("error", "bar")]));
  }

  function ReportedEntries(): seq<Entry>
  {
    [ Entry("foo.yaml", Undefined, []),
      Entry("bar.yaml", Undefined, [Issue("error", "duplicate"), Issue("error", "bar")]),
      Entry("test/bar.yaml", Undefined, [Issue("error", "duplicate")]) ]
  }

  lemma ReportedAnnotations()
    ensures Annotations(ReportedEntries()) ==
              [ Annotation("error", "bar.yaml", "duplicate"), Annotation("error", "bar.yaml", "bar"),
                Annotation("error", "test/bar.yaml", "duplicate") ]
  {
    var es := ReportedEntries();
    assert es[1..][1..][1..] == [];
    assert Annotations(es[1..][1..]) == AnnotateEntry(es[2]);
    assert Annotations(es[1..]) == AnnotateEntry(es[1]) + AnnotateEntry(es[2]);
  }

  /** reporterTests "finds duplicate ids and missing keys": three annotations, entry by entry. */
  lemma ReportsDuplicatesAndMissingKeys()
    ensures var r := ReportWithCounts(ReportedEntries(), Counts(3, 0, 3, 0, 2));
            && r.log[0] == "Checked 3 potential policy files."
            && r.log[1] == "Found " + "0 invalid YAML files" + " and " + "2 files" + " with " + "3 errors" + " and " + "0 warnings" + "."
            && r.failure == Some("Found " + "3 problems" + " in " + "3 potential policy files" + ".")
            && r.annotations ==
                 [ Annotation("error", "bar.yaml", "duplicate"), Annotation("error", "bar.yaml", "bar"),
                   Annotation("error", "test/bar.yaml", "duplicate") ]
  {
    CheckedThree();
    DuplicatesLines();
    ReportedAnnotations();
  }
}
