/**
 * The regrouping pass of validator.js (`groupByStatus`): each entry's issues
 * are put into an `error` bin and a `warning` bin by one left-to-right
 * `reduce`, and replaced by the errors followed by the warnings. Issues with
 * any other status land in neither bin and are dropped.
 */
module Grouping {

  import opened Policies

  /** The issues of `issues` whose status is `status`, in their original order. */
  function WithStatus(issues: seq<Issue>, status: string): (r: seq<Issue>)
    ensures |r| <= |issues|
    ensures forall k :: 0 <= k < |r| ==> r[k].status == status
    decreases |issues|
  {
    if |issues| == 0 then []
    else (if issues[0].status == status then [issues[0]] else []) + WithStatus(issues[1..], status)
  }

  lemma {:induction false} WithStatusAppend(a: seq<Issue>, b: seq<Issue>, status: string)
    ensures WithStatus(a + b, status) == WithStatus(a, status) + WithStatus(b, status)
    decreases |a|
  {
    if |a| > 0 {
      assert (a + b)[1..] == a[1..] + b;
      WithStatusAppend(a[1..], b, status);
    } else {
      assert a + b == b;
    }
  }

  /** Filtering keeps everything when every issue has the status, and nothing when none has it. */
  lemma {:induction false} WithStatusUniform(issues: seq<Issue>, status: string)
    ensures (forall k :: 0 <= k < |issues| ==> issues[k].status == status) ==> WithStatus(issues, status) == issues
    ensures (forall k :: 0 <= k < |issues| ==> issues[k].status != status) ==> WithStatus(issues, status) == []
    decreases |issues|
  {
    if |issues| > 0 {
      WithStatusUniform(issues[1..], status);
      assert issues == [issues[0]] + issues[1..];
    }
  }

  /** The accumulator of the `reduce`. */
  datatype Bins = Bins(errors: seq<Issue>, warnings: seq<Issue>)

  /** One step of the `reduce`: push onto the bin named by the status, if any. */
  function Bin(bins: Bins, issue: Issue): Bins
  {
    var bins := if issue.status == ERROR then bins.(errors := bins.errors + [issue]) else bins;
    if issue.status == WARNING then bins.(warnings := bins.warnings + [issue]) else bins
  }

  /** The `reduce` from `bins` over `issues`, left to right. */
  function BinAll(bins: Bins, issues: seq<Issue>): Bins
    decreases |issues|
  {
    if |issues| == 0 then bins else BinAll(Bin(bins, issues[0]), issues[1..])
  }

  /** Each bin ends up extended by the issues of its status, in their original order. */
  lemma {:induction false} BinAllFilters(bins: Bins, issues: seq<Issue>)
    ensures BinAll(bins, issues) ==
              Bins(bins.errors + WithStatus(issues, ERROR), bins.warnings + WithStatus(issues, WARNING))
    decreases |issues|
  {
    if |issues| > 0 {
      BinAllFilters(Bin(bins, issues[0]), issues[1..]);
    }
  }

  lemma StatusesDiffer()
    ensures ERROR != WARNING
  {
    assert ERROR[0] != WARNING[0];
  }

  /** Errors followed by warnings: every status is one of the two, and no error follows a warning. */
  lemma ErrorsThenWarnings(errors: seq<Issue>, warnings: seq<Issue>)
    requires forall k :: 0 <= k < |errors| ==> errors[k].status == ERROR
    requires forall k :: 0 <= k < |warnings| ==> warnings[k].status == WARNING
    ensures forall k :: 0 <= k < |errors + warnings| ==>
              (errors + warnings)[k].status == ERROR || (errors + warnings)[k].status == WARNING
    ensures forall a, b :: 0 <= a < b < |errors + warnings| && (errors + warnings)[a].status == WARNING ==>
              (errors + warnings)[b].status == WARNING
  {
    StatusesDiffer();
    var r := errors + warnings;
    forall a, b | 0 <= a < b < |r| && r[a].status == WARNING
      ensures r[b].status == WARNING
    {
      assert a >= |errors|;
      assert r[b] == warnings[b - |errors|];
    }
  }

  /** Filtering errors-then-warnings by either status gives back that group. */
  lemma {:induction false} FilterPartition(errors: seq<Issue>, warnings: seq<Issue>)
    requires forall k :: 0 <= k < |errors| ==> errors[k].status == ERROR
    requires forall k :: 0 <= k < |warnings| ==> warnings[k].status == WARNING
    ensures WithStatus(errors + warnings, ERROR) == errors
    ensures WithStatus(errors + warnings, WARNING) == warnings
  {
    StatusesDiffer();
    WithStatusAppend(errors, warnings, ERROR);
    WithStatusAppend(errors, warnings, WARNING);
    WithStatusUniform(errors, ERROR);
    WithStatusUniform(errors, WARNING);
    WithStatusUniform(warnings, ERROR);
    WithStatusUniform(warnings, WARNING);
    assert errors + [] == errors;
    assert [] + warnings == warnings;
  }

  /**
   * A stable partition: exactly the `error` issues, then exactly the
   * `warning` issues, each group in its original relative order, and nothing else.
   */
  function GroupByStatus(issues: seq<Issue>): (r: seq<Issue>)
    ensures WithStatus(r, ERROR) == WithStatus(issues, ERROR)
    ensures WithStatus(r, WARNING) == WithStatus(issues, WARNING)
    ensures forall k :: 0 <= k < |r| ==> r[k].status == ERROR || r[k].status == WARNING
    ensures forall a, b :: 0 <= a < b < |r| && r[a].status == WARNING ==> r[b].status == WARNING
  {
    var bins := BinAll(Bins([], []), issues);
    BinAllFilters(Bins([], []), issues);
    assert bins.errors == WithStatus(issues, ERROR) && bins.warnings == WithStatus(issues, WARNING);
    ErrorsThenWarnings(bins.errors, bins.warnings);
    FilterPartition(bins.errors, bins.warnings);
    bins.errors + bins.warnings
  }

  /** Regrouping an already regrouped list changes nothing. */
  lemma GroupByStatusIdempotent(issues: seq<Issue>)
    ensures GroupByStatus(GroupByStatus(issues)) == GroupByStatus(issues)
  {
    var once := GroupByStatus(issues);
    BinAllFilters(Bins([], []), once);
    BinAllFilters(Bins([], []), issues);
  }

  /** A list of errors only is left as it is. */
  lemma GroupByStatusKeepsErrors(issues: seq<Issue>)
    requires forall k :: 0 <= k < |issues| ==> issues[k].status == ERROR
    ensures GroupByStatus(issues) == issues
  {
    BinAllFilters(Bins([], []), issues);
    WithStatusUniform(issues, ERROR);
    WithStatusUniform(issues, WARNING);
  }
}
