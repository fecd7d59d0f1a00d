/**
 * Validation followed by reporting, as the action runs them: what the
 * report says about a validated set of files.
 */
module Pipeline {

  import opened Results
  import opened Policies
  import opened Counting
  import opened Validator
  import opened Reporter

  lemma {:induction false} NoEntryWithIssuesMeansNoIssues(es: seq<Entry>)
    ensures EntriesWithIssues(es) == 0 <==> IssueTotal(es) == 0
    ensures IssueTotal(es) == 0 <==> forall i :: 0 <= i < |es| ==> es[i].issues == []
    decreases |es|
  {
    if |es| > 0 {
      NoEntryWithIssuesMeansNoIssues(es[1..]);
      assert forall i :: 1 <= i < |es| ==> es[i] == es[1..][i - 1];
    }
  }

  /**
   * After validating the files, the report fails exactly when some entry has
   * an issue; the problem count in the failure message is the number of
   * annotations sent; and annotations are sent whether or not it fails.
   */
  lemma {:induction false} ReportAfterValidate(files: seq<LoadedFile>)
    ensures var es := Validate(ORG_MODE, files).value;
            var c := GetCounts(es);
            var r := ReportIssues(es);
            && (r.failure.None? <==> forall i :: 0 <= i < |es| ==> es[i].issues == [])
            && |r.annotations| == c.error + c.warning + c.invalid
  {
    var es := Validate(ORG_MODE, files).value;
    CountsAfterValidate(files);
    NoEntryWithIssuesMeansNoIssues(es);
  }

  /** A file that parsed to a document carrying every required key with a truthy value. */
  predicate Complete(f: LoadedFile)
  {
    && f.outcome.Parsed?
    && JsValues.Truthy(f.outcome.doc)
    && forall key :: key in REQUIRED_KEYS ==> JsValues.Truthy(JsValues.Property(f.outcome.doc, key))
  }

  /** A complete file whose id no other file shares ends with no issues. */
  lemma CleanEntry(files: seq<LoadedFile>, i: int)
    requires 0 <= i < |files|
    requires forall k :: 0 <= k < |files| ==> Complete(files[k])
    requires forall a, b :: 0 <= a < b < |files| ==> FileId(files[a]) != FileId(files[b])
    ensures Validate(ORG_MODE, files).value[i].issues == []
  {
    ValidateEntries(files, i);
    RequiredKeys.RequiredKeyOrder(files[i].outcome.doc);
    forall j | 0 <= j < |files| && j != i
      ensures FileId(files[j]) != FileId(files[i])
    {
      if i < j {
        assert FileId(files[i]) != FileId(files[j]);
      } else {
        assert FileId(files[j]) != FileId(files[i]);
      }
    }
  }

  lemma {:induction false} NoFailedFiles(files: seq<LoadedFile>)
    requires forall k :: 0 <= k < |files| ==> files[k].outcome.Parsed?
    ensures FailedFiles(files) == 0
    decreases |files|
  {
    if |files| > 0 {
      NoFailedFiles(files[1..]);
    }
  }

  /** The validated entries of such files all come out without issues, and none of the files failed. */
  lemma {:induction false} CleanEntries(files: seq<LoadedFile>)
    requires forall k :: 0 <= k < |files| ==> Complete(files[k])
    requires forall a, b :: 0 <= a < b < |files| ==> FileId(files[a]) != FileId(files[b])
    ensures forall i :: 0 <= i < |files| ==> Validate(ORG_MODE, files).value[i].issues == []
    ensures FailedFiles(files) == 0
  {
    forall i | 0 <= i < |files|
      ensures Validate(ORG_MODE, files).value[i].issues == []
    {
      CleanEntry(files, i);
    }
    NoFailedFiles(files);
  }

  /** Files that all parse to complete documents with distinct ids produce a clean report. */
  lemma {:induction false} CleanFilesReportNothing(files: seq<LoadedFile>)
    requires forall k :: 0 <= k < |files| ==> Complete(files[k])
    requires forall a, b :: 0 <= a < b < |files| ==> FileId(files[a]) != FileId(files[b])
    ensures var es := Validate(ORG_MODE, files).value;
            && GetCounts(es) == Counts(|files|, 0, 0, 0, 0)
            && ReportIssues(es).failure.None?
            && ReportIssues(es).annotations == []
  {
    var es := Validate(ORG_MODE, files).value;
    CleanEntries(files);
    CountsAfterValidate(files);
    NoEntryWithIssuesMeansNoIssues(es);
    var c := GetCounts(es);
    assert c.invalid == 0 && c.warning == 0 && c.error == 0 && c.problemPolicy == 0;
  }
}
