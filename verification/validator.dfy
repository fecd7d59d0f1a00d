/**
 * The validation engine of validator.js: the mode check of `validate`, the
 * entries built by `loadPolicies` from the parse outcomes, and the three
 * passes of `validatePolicies` (duplicate ids, required keys, regrouping).
 */
module Validator {

  import opened Results
  import opened JsValues
  import opened Policies
  import opened Duplicates
  import opened RequiredKeys
  import opened Grouping
  import opened Counting

  /** The message of the error `validate` throws for an unsupported mode. */
  function InvalidModeMessage(mode: string): string
  {
    "Invalid validation mode: " + mode
  }

  /** `groupByStatus` on one entry. */
  function Regroup(e: Entry): Entry
  {
    e.(issues := GroupByStatus(e.issues))
  }

  /**
   * `validatePolicies`: the duplicate-id pass over all entries, then the
   * required-key pass on each entry, then the regrouping of each entry.
   * Entries keep their number, order, file and policy.
   */
  function ValidatePolicies(es: seq<Entry>): (r: seq<Entry>)
    ensures |r| == |es|
    ensures forall i :: 0 <= i < |es| ==> r[i].file == es[i].file && r[i].policy == es[i].policy
    ensures forall i :: 0 <= i < |es| ==>
              r[i].issues == GroupByStatus(
                es[i].issues
                + (if IsDuplicated(es, i) then [DuplicateIssue(IdKey(es[i]))] else [])
                + (if HasPolicy(es[i]) then MissingKeyIssues(es[i].policy) else []))
  {
    LaterPasses(DuplicatePass(es))
  }

  /** The required-key pass and the regrouping, applied to each marked entry. */
  function LaterPasses(marked: seq<Entry>): seq<Entry>
  {
    seq(|marked|, i requires 0 <= i < |marked| => Regroup(SyntaxPass(marked[i])))
  }

  /**
   * `validate`: any mode but "org" throws before any file is looked at;
   * "org" loads one entry per discovered file, in discovery order, and
   * validates them, with the corrected duplicate-id pass.
   */
  function Validate(mode: string, files: seq<LoadedFile>): (r: Result<seq<Entry>, string>)
    ensures mode != ORG_MODE ==> r == Err(InvalidModeMessage(mode))
    ensures mode == ORG_MODE ==> r.Ok? && |r.value| == |files|
  {
    if mode == ORG_MODE then Ok(ValidatePolicies(LoadEntries(files))) else Err(InvalidModeMessage(mode))
  }

  /**
   * `validate` as written: the duplicate-id pass is the one of validator.js,
   * which throws on an id it cannot convert to a key or one naming a member
   * of `Object.prototype`; the thrown message ends the run.
   */
  function ValidateAsWritten(mode: string, files: seq<LoadedFile>): Result<seq<Entry>, string>
  {
    if mode != ORG_MODE then Err(InvalidModeMessage(mode))
    else match DuplicatePassAsWritten(LoadEntries(files))
      case Err(m) => Err(m)
      case Ok(marked) => Ok(LaterPasses(marked))
  }

  /**
   * The program as written agrees with `Validate` except when some file
   * carries an id that throws; then it fails with the message of the first
   * such id.
   */
  lemma ValidateAsWrittenSpec(mode: string, files: seq<LoadedFile>)
    ensures mode != ORG_MODE ==> ValidateAsWritten(mode, files) == Validate(mode, files)
    ensures mode == ORG_MODE ==>
              (ValidateAsWritten(mode, files).Err? <==> HasThrowingId(LoadEntries(files)))
    ensures mode == ORG_MODE && ValidateAsWritten(mode, files).Err? ==>
              exists x :: FirstThrow(LoadEntries(files), x)
                          && ValidateAsWritten(mode, files).error == ThrowMessage(LoadEntries(files)[x])
    ensures !HasThrowingId(LoadEntries(files)) ==> ValidateAsWritten(mode, files) == Validate(mode, files)
  {
    DuplicatePassAsWrittenSpec(LoadEntries(files));
  }

  /** File `i` parsed to a truthy document. */
  predicate ParsedPolicy(files: seq<LoadedFile>, i: int)
    requires 0 <= i < |files|
  {
    files[i].outcome.Parsed? && Truthy(files[i].outcome.doc)
  }

  /** The id key of a file's document; the empty string when it did not parse. */
  function FileId(f: LoadedFile): string
  {
    if f.outcome.Parsed? then ToJsString(Property(f.outcome.doc, "id")) else ""
  }

  /** Another file parsed to a truthy document whose id has the same key as file `i`'s. */
  predicate SharesId(files: seq<LoadedFile>, i: int)
    requires 0 <= i < |files| && files[i].outcome.Parsed?
  {
    exists j :: 0 <= j < |files| && j != i && ParsedPolicy(files, j) && FileId(files[j]) == FileId(files[i])
  }

  /** The issues a file ends up with, stated from its own parse outcome and the other files' ids. */
  function ExpectedIssues(files: seq<LoadedFile>, i: int): seq<Issue>
    requires 0 <= i < |files|
  {
    match files[i].outcome
    case Failed(cause) => [ParseIssue(cause)]
    case Parsed(doc) =>
      if !Truthy(doc) then []
      else (if SharesId(files, i) then [DuplicateIssue(FileId(files[i]))] else []) + MissingKeyIssues(doc)
  }

  /** All issues of a list are plain errors. */
  predicate AllErrors(issues: seq<Issue>)
  {
    forall k :: 0 <= k < |issues| ==> Kind(issues[k]) == ErrorKind
  }

  lemma ContentIssuesAreErrors(id: string, policy: Value)
    ensures AllErrors(MissingKeyIssues(policy))
    ensures AllErrors([DuplicateIssue(id)] + MissingKeyIssues(policy))
  {
    var missing := MissingKeys(policy, REQUIRED_KEYS);
    forall k | 0 <= k < |missing|
      ensures Kind(MissingKeyIssues(policy)[k]) == ErrorKind
    {
      ContentIssuesAreValid(missing[k], id);
    }
    ContentIssuesAreValid("", id);
  }

  /** Among the loaded entries, entry `i` is duplicated exactly when its file shares an id. */
  lemma DuplicatedIffSharesId(files: seq<LoadedFile>, i: int)
    requires 0 <= i < |files| && ParsedPolicy(files, i)
    ensures IsDuplicated(LoadEntries(files), i) <==> SharesId(files, i)
  {
    var loaded := LoadEntries(files);
    if SharesId(files, i) {
      var j :| 0 <= j < |files| && j != i && ParsedPolicy(files, j) && FileId(files[j]) == FileId(files[i]);
      assert HasPolicy(loaded[j]) && IdKey(loaded[j]) == IdKey(loaded[i]);
    }
    if IsDuplicated(loaded, i) {
      var j :| 0 <= j < |loaded| && j != i && HasPolicy(loaded[j]) && IdKey(loaded[j]) == IdKey(loaded[i]);
      assert ParsedPolicy(files, j) && FileId(files[j]) == FileId(files[i]);
    }
  }

  /** What the three passes append to loaded entry `i` is what the rules call for. */
  lemma RawIssues(files: seq<LoadedFile>, i: int)
    requires 0 <= i < |files|
    ensures var loaded := LoadEntries(files);
            loaded[i].issues
            + (if IsDuplicated(loaded, i) then [DuplicateIssue(IdKey(loaded[i]))] else [])
            + (if HasPolicy(loaded[i]) then MissingKeyIssues(loaded[i].policy) else [])
            == ExpectedIssues(files, i)
  {
    var loaded := LoadEntries(files);
    if ParsedPolicy(files, i) {
      DuplicatedIffSharesId(files, i);
    }
  }

  /** The issues a file is expected to end with are all errors. */
  lemma ExpectedIssuesAreErrors(files: seq<LoadedFile>, i: int)
    requires 0 <= i < |files|
    ensures forall k :: 0 <= k < |ExpectedIssues(files, i)| ==> ExpectedIssues(files, i)[k].status == ERROR
  {
    if ParsedPolicy(files, i) {
      ContentIssuesAreErrors(FileId(files[i]), files[i].outcome.doc);
    }
  }

  /**
   * After a successful `validate`, entry `i` is file `i`: same file; the
   * parsed document (or none on a parse failure); and exactly the issues
   * the rules call for, in the order duplicate id, then for, id, name.
   */
  lemma ValidateEntries(files: seq<LoadedFile>, i: int)
    requires 0 <= i < |files|
    ensures var es := Validate(ORG_MODE, files).value;
            && es[i].file == files[i].file
            && es[i].policy == (if files[i].outcome.Parsed? then files[i].outcome.doc else Undefined)
            && es[i].issues == ExpectedIssues(files, i)
  {
    RawIssues(files, i);
    ExpectedIssuesAreErrors(files, i);
    GroupByStatusKeepsErrors(ExpectedIssues(files, i));
  }

  /** The number of files whose read or parse failed. */
  function FailedFiles(files: seq<LoadedFile>): nat
    decreases |files|
  {
    if |files| == 0 then 0 else (if files[0].outcome.Failed? then 1 else 0) + FailedFiles(files[1..])
  }

  /** The shape of a validated entry: a lone parse-failure issue, or plain errors only. */
  predicate Settled(e: Entry, failed: bool)
  {
    if failed then |e.issues| == 1 && IsInvalidIssue(e.issues[0]) else AllErrors(e.issues)
  }

  lemma {:induction false} AllErrorsCounts(issues: seq<Issue>)
    requires AllErrors(issues)
    ensures CountKind(issues, ErrorKind) == |issues|
    ensures CountKind(issues, InvalidKind) == 0 && CountKind(issues, WarningKind) == 0
    decreases |issues|
  {
    if |issues| > 0 {
      AllErrorsCounts(issues[1..]);
    }
  }

  lemma SettledCounts(e: Entry, failed: bool)
    requires Settled(e, failed)
    ensures CountKind(e.issues, InvalidKind) == (if failed then 1 else 0)
    ensures CountKind(e.issues, ErrorKind) + CountKind(e.issues, InvalidKind) == |e.issues|
    ensures CountKind(e.issues, WarningKind) == 0
  {
    if failed {
      assert e.issues[1..] == [];
    } else {
      AllErrorsCounts(e.issues);
    }
  }

  /** Summing the per-entry shapes over a list of settled entries. */
  lemma {:induction false} SettledListCounts(es: seq<Entry>, files: seq<LoadedFile>)
    requires |es| == |files|
    requires forall i :: 0 <= i < |es| ==> Settled(es[i], files[i].outcome.Failed?)
    ensures CountKindIn(es, InvalidKind) == FailedFiles(files)
    ensures CountKindIn(es, WarningKind) == 0
    ensures CountKindIn(es, ErrorKind) + CountKindIn(es, InvalidKind) == IssueTotal(es)
    ensures EntriesWithIssues(es) >= FailedFiles(files)
    decreases |es|
  {
    if |es| > 0 {
      SettledCounts(es[0], files[0].outcome.Failed?);
      SettledListCounts(es[1..], files[1..]);
    }
  }

  lemma ValidatedEntrySettled(files: seq<LoadedFile>, i: int)
    requires 0 <= i < |files|
    ensures Settled(Validate(ORG_MODE, files).value[i], files[i].outcome.Failed?)
  {
    ValidateEntries(files, i);
    var issues := ExpectedIssues(files, i);
    match files[i].outcome {
      case Failed(cause) =>
        assert issues[0].message == "YAML parse error: " + cause;
        assert issues[0].message[..4] == INVALID_PREFIX;
      case Parsed(doc) =>
        if Truthy(doc) {
          ContentIssuesAreErrors(FileId(files[i]), doc);
        }
    }
  }

  /**
   * The summary of a validated run: every file counted in `total`; `invalid`
   * is the number of files that failed to parse; no warnings; and
   * `problemPolicy` is never negative, with `problemPolicy + invalid` the
   * number of entries with issues and `error + invalid` the number of issues.
   */
  lemma CountsAfterValidate(files: seq<LoadedFile>)
    ensures var es := Validate(ORG_MODE, files).value;
            var c := GetCounts(es);
            && c.total == |files|
            && c.invalid == FailedFiles(files)
            && c.warning == 0
            && c.problemPolicy >= 0
            && c.problemPolicy + c.invalid == EntriesWithIssues(es)
            && c.error + c.invalid == IssueTotal(es)
  {
    var es := Validate(ORG_MODE, files).value;
    forall i | 0 <= i < |es|
      ensures Settled(es[i], files[i].outcome.Failed?)
    {
      ValidatedEntrySettled(files, i);
    }
    SettledListCounts(es, files);
  }
}
