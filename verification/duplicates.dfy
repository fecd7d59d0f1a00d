/**
 * The duplicate-id pass of validator.js (`validateDuplicates`): entries that
 * carry a policy are grouped by the string form of their `id` in a plain
 * object, and every member of a group with more than one entry receives one
 * "Policy has duplicate id" error.
 */
module Duplicates {

  import opened Results
  import opened JsValues
  import opened Policies

  /** Groups as the `reduce` builds them: id key to entry indices, in entry order. */
  type Groups = map<string, seq<nat>>

  /** Strictly increasing, hence free of repeats. */
  predicate Increasing(s: seq<nat>)
  {
    forall a, b :: 0 <= a < b < |s| ==> s[a] < s[b]
  }

  /** Entry `i` has a policy, and some other entry with a policy shares its id key. */
  predicate IsDuplicated(es: seq<Entry>, i: int)
    requires 0 <= i < |es|
  {
    && HasPolicy(es[i])
    && exists j :: 0 <= j < |es| && j != i && HasPolicy(es[j]) && IdKey(es[j]) == IdKey(es[i])
  }

  /** The `reduce` over the entries, one step per entry, in entry order. */
  function Pivot(es: seq<Entry>): Groups
    decreases |es|
  {
    if |es| == 0 then map[] else PivotStep(Pivot(es[..|es| - 1]), es[|es| - 1], |es| - 1)
  }

  /** One call of the `reduce` callback for entry `e` at index `x`: append `x` to its id key's group. */
  function PivotStep(groups: Groups, e: Entry, x: nat): Groups
  {
    if !HasPolicy(e) then groups
    else
      var key := IdKey(e);
      groups[key := (if key in groups then groups[key] else []) + [x]]
  }

  /** `groups` lists exactly the indices of the entries of `es` with a policy, each under its id key, in order. */
  predicate GroupsOf(groups: Groups, es: seq<Entry>)
  {
    && (forall key :: key in groups ==> |groups[key]| > 0 && Increasing(groups[key]))
    && (forall key, k :: key in groups && 0 <= k < |groups[key]| ==>
          groups[key][k] < |es| && HasPolicy(es[groups[key][k]]) && IdKey(es[groups[key][k]]) == key)
    && (forall x :: 0 <= x < |es| && HasPolicy(es[x]) ==> IdKey(es[x]) in groups && x in groups[IdKey(es[x])])
  }

  /** Each step of the `reduce` keeps the groups exact for one more entry. */
  lemma PivotStepKeepsGroups(groups: Groups, es: seq<Entry>)
    requires |es| > 0 && GroupsOf(groups, es[..|es| - 1])
    ensures GroupsOf(PivotStep(groups, es[|es| - 1], |es| - 1), es)
  {
    var n := |es| - 1;
    var prefix := es[..n];
    var last := es[n];
    assert forall x :: 0 <= x < n ==> prefix[x] == es[x];
    if HasPolicy(last) {
      var key := IdKey(last);
      var old_list: seq<nat> := if key in groups then groups[key] else [];
      assert forall k :: 0 <= k < |old_list| ==> old_list[k] < n;
      var list := old_list + [n];
      var next := groups[key := list];
      assert PivotStep(groups, last, n) == next;
      assert Increasing(list) by {
        forall a, b | 0 <= a < b < |list|
          ensures list[a] < list[b]
        {
          if b < |old_list| {
            assert list[a] == old_list[a] && list[b] == old_list[b];
          } else {
            assert list[a] == old_list[a];
          }
        }
      }
      forall k, m | k in next && 0 <= m < |next[k]|
        ensures next[k][m] < |es| && HasPolicy(es[next[k][m]]) && IdKey(es[next[k][m]]) == k
      {
        if k != key || m < |old_list| {
          assert next[k][m] == groups[k][m];
        } else {
          assert next[k][m] == n;
        }
      }
      forall x | 0 <= x < |es| && HasPolicy(es[x])
        ensures IdKey(es[x]) in next && x in next[IdKey(es[x])]
      {
        if x < n {
          assert prefix[x] == es[x];
          var k := IdKey(es[x]);
          if k == key {
            assert x in old_list;
          } else {
            assert next[k] == groups[k];
          }
        } else {
          assert list[|list| - 1] == x;
        }
      }
    }
  }

  /** Every group lists exactly the indices of the entries with a policy and that id key, in order. */
  lemma {:induction false} PivotGroups(es: seq<Entry>)
    ensures forall key :: key in Pivot(es) ==> |Pivot(es)[key]| > 0 && Increasing(Pivot(es)[key])
    ensures forall key, k :: key in Pivot(es) && 0 <= k < |Pivot(es)[key]| ==>
              Pivot(es)[key][k] < |es| && HasPolicy(es[Pivot(es)[key][k]]) && IdKey(es[Pivot(es)[key][k]]) == key
    ensures forall x :: 0 <= x < |es| && HasPolicy(es[x]) ==>
              IdKey(es[x]) in Pivot(es) && x in Pivot(es)[IdKey(es[x])]
    decreases |es|
  {
    if |es| > 0 {
      PivotGroups(es[..|es| - 1]);
      PivotStepKeepsGroups(Pivot(es[..|es| - 1]), es);
    }
  }

  /** The indices that the `forEach` over groups of more than one entry reaches. */
  function DuplicateMembers(groups: Groups): set<nat>
  {
    set key, x | key in groups && |groups[key]| > 1 && x in groups[key] :: x
  }

  /** Appends the duplicate-id error to every entry whose index is in `marked`. */
  function Mark(es: seq<Entry>, marked: set<nat>): seq<Entry>
  {
    seq(|es|, i requires 0 <= i < |es| =>
      if i in marked then es[i].(issues := es[i].issues + [DuplicateIssue(IdKey(es[i]))]) else es[i])
  }

  /** An entry is reached by the marking loop exactly when it is duplicated. */
  lemma {:induction false} DuplicateMembersSpec(es: seq<Entry>, i: nat)
    requires i < |es|
    ensures i in DuplicateMembers(Pivot(es)) <==> IsDuplicated(es, i)
  {
    var groups := Pivot(es);
    PivotGroups(es);
    if i in DuplicateMembers(groups) {
      var key :| key in groups && |groups[key]| > 1 && i in groups[key];
      var list := groups[key];
      var j := if list[0] == i then list[1] else list[0];
      assert j in list && j != i;
      assert HasPolicy(es[j]) && IdKey(es[j]) == key;
      assert HasPolicy(es[i]) && IdKey(es[i]) == key;
      assert IsDuplicated(es, i);
    }
    if IsDuplicated(es, i) {
      var j :| 0 <= j < |es| && j != i && HasPolicy(es[j]) && IdKey(es[j]) == IdKey(es[i]);
      var key := IdKey(es[i]);
      var list := groups[key];
      assert i in list && j in list;
      assert |list| > 1;
      assert key in groups && |groups[key]| > 1 && i in groups[key];
      assert i in DuplicateMembers(groups);
    }
  }

  /** An increasing list holds each of its elements once. */
  lemma {:induction false} IncreasingOnce(s: seq<nat>, x: nat)
    requires Increasing(s)
    ensures multiset(s)[x] == (if x in s then 1 else 0)
    decreases |s|
  {
    if |s| > 0 {
      var tail := s[1..];
      assert s == [s[0]] + tail;
      IncreasingOnce(tail, x);
      if x == s[0] {
        assert x !in tail;
      }
    }
  }

  /**
   * Every entry with a policy sits in exactly one group, exactly once, so the
   * marking loop pushes onto it at most once; entries without a policy sit in
   * none.
   */
  lemma EachEntryInOneGroupOnce(es: seq<Entry>, x: nat, key: string)
    requires x < |es| && key in Pivot(es)
    ensures multiset(Pivot(es)[key])[x] == (if HasPolicy(es[x]) && IdKey(es[x]) == key then 1 else 0)
  {
    PivotGroups(es);
    IncreasingOnce(Pivot(es)[key], x);
  }

  /**
   * The duplicate-id pass: the same entries in the same order; an entry gets
   * exactly one duplicate-id error, naming its id, when it has a policy and
   * another entry with a policy has the same id key, and nothing otherwise.
   */
  function DuplicatePass(es: seq<Entry>): (r: seq<Entry>)
    ensures |r| == |es|
    ensures forall i :: 0 <= i < |es| ==> r[i].file == es[i].file && r[i].policy == es[i].policy
    ensures forall i :: 0 <= i < |es| ==>
              r[i].issues == es[i].issues + (if IsDuplicated(es, i) then [DuplicateIssue(IdKey(es[i]))] else [])
  {
    var marked := DuplicateMembers(Pivot(es));
    assert forall i :: 0 <= i < |es| ==> (i in marked <==> IsDuplicated(es, i)) by {
      forall i | 0 <= i < |es| {
        DuplicateMembersSpec(es, i);
      }
    }
    Mark(es, marked)
  }

  /** Every index in every group is an entry's. */
  predicate InRange(groups: Groups, n: nat)
  {
    forall key, k :: key in groups && 0 <= k < |groups[key]| ==> groups[key][k] < n
  }

  /** `duplicate.issues.push(...)` for the entry at index `x`. */
  function AppendDuplicate(es: seq<Entry>, x: nat): (r: seq<Entry>)
    requires x < |es|
    ensures |r| == |es|
  {
    es[x := es[x].(issues := es[x].issues + [DuplicateIssue(IdKey(es[x]))])]
  }

  /** `list.forEach(duplicate => ...)`: one push per index of the group, in list order. */
  function MarkGroup(es: seq<Entry>, list: seq<nat>): (r: seq<Entry>)
    requires forall k :: 0 <= k < |list| ==> list[k] < |es|
    ensures |r| == |es|
    decreases |list|
  {
    if |list| == 0 then es else MarkGroup(AppendDuplicate(es, list[0]), list[1..])
  }

  /**
   * `Object.values(pivoted).forEach(...)`, visiting the groups in the order
   * `keys` lists them: groups of more than one entry are marked, the others
   * skipped.
   */
  function MarkGroups(es: seq<Entry>, groups: Groups, keys: seq<string>): (r: seq<Entry>)
    requires InRange(groups, |es|)
    requires forall k :: 0 <= k < |keys| ==> keys[k] in groups
    ensures |r| == |es|
    decreases |keys|
  {
    if |keys| == 0 then es
    else
      var list := groups[keys[0]];
      MarkGroups(if |list| > 1 then MarkGroup(es, list) else es, groups, keys[1..])
  }

  /** `k` copies of the duplicate-id error. */
  function Repeat(issue: Issue, k: nat): seq<Issue>
  {
    seq(k, _ => issue)
  }

  /** How often the visit over `keys` pushes onto the entry at index `x`. */
  function Occurrences(groups: Groups, keys: seq<string>, x: nat): nat
    requires forall k :: 0 <= k < |keys| ==> keys[k] in groups
    decreases |keys|
  {
    if |keys| == 0 then 0
    else
      var list := groups[keys[0]];
      (if |list| > 1 then multiset(list)[x] else 0) + Occurrences(groups, keys[1..], x)
  }

  /** Marking one group pushes onto each entry as often as the group lists it; nothing else changes. */
  lemma {:induction false} MarkGroupSpec(es: seq<Entry>, list: seq<nat>)
    requires forall k :: 0 <= k < |list| ==> list[k] < |es|
    ensures forall x :: 0 <= x < |es| ==>
              && MarkGroup(es, list)[x].file == es[x].file
              && MarkGroup(es, list)[x].policy == es[x].policy
              && MarkGroup(es, list)[x].issues == es[x].issues + Repeat(DuplicateIssue(IdKey(es[x])), multiset(list)[x])
    decreases |list|
  {
    if |list| > 0 {
      var next := AppendDuplicate(es, list[0]);
      MarkGroupSpec(next, list[1..]);
      assert list == [list[0]] + list[1..];
      forall x | 0 <= x < |es|
        ensures MarkGroup(es, list)[x].issues == es[x].issues + Repeat(DuplicateIssue(IdKey(es[x])), multiset(list)[x])
      {
        var d := DuplicateIssue(IdKey(es[x]));
        var rest := multiset(list[1..])[x];
        if x == list[0] {
          assert [d] + Repeat(d, rest) == Repeat(d, rest + 1);
        }
      }
    }
  }

  /** Marking the groups in any order pushes onto each entry as often as all long groups list it together. */
  lemma {:induction false} MarkGroupsSpec(es: seq<Entry>, groups: Groups, keys: seq<string>)
    requires InRange(groups, |es|)
    requires forall k :: 0 <= k < |keys| ==> keys[k] in groups
    ensures forall x :: 0 <= x < |es| ==>
              && MarkGroups(es, groups, keys)[x].file == es[x].file
              && MarkGroups(es, groups, keys)[x].policy == es[x].policy
              && MarkGroups(es, groups, keys)[x].issues ==
                   es[x].issues + Repeat(DuplicateIssue(IdKey(es[x])), Occurrences(groups, keys, x))
    decreases |keys|
  {
    if |keys| > 0 {
      var list := groups[keys[0]];
      var next := if |list| > 1 then MarkGroup(es, list) else es;
      if |list| > 1 {
        MarkGroupSpec(es, list);
      }
      MarkGroupsSpec(next, groups, keys[1..]);
      forall x | 0 <= x < |es|
        ensures MarkGroups(es, groups, keys)[x].issues ==
                  es[x].issues + Repeat(DuplicateIssue(IdKey(es[x])), Occurrences(groups, keys, x))
      {
        var d := DuplicateIssue(IdKey(es[x]));
        var here := if |list| > 1 then multiset(list)[x] else 0;
        var later := Occurrences(groups, keys[1..], x);
        assert IdKey(next[x]) == IdKey(es[x]);
        assert Repeat(d, here) + Repeat(d, later) == Repeat(d, here + later);
      }
    }
  }

  /** Over distinct keys of the real groups, an entry is counted once for its own group if that group is long. */
  lemma {:induction false} OccurrencesInPivot(es: seq<Entry>, keys: seq<string>, x: nat)
    requires x < |es|
    requires forall k :: 0 <= k < |keys| ==> keys[k] in Pivot(es)
    requires forall a, b :: 0 <= a < b < |keys| ==> keys[a] != keys[b]
    ensures Occurrences(Pivot(es), keys, x) ==
              if HasPolicy(es[x]) && IdKey(es[x]) in keys && |Pivot(es)[IdKey(es[x])]| > 1 then 1 else 0
    decreases |keys|
  {
    if |keys| > 0 {
      OccurrencesInPivot(es, keys[1..], x);
      EachEntryInOneGroupOnce(es, x, keys[0]);
      assert keys[0] !in keys[1..];
      assert forall key :: key in keys <==> key == keys[0] || key in keys[1..];
    }
  }

  /** An entry's own group has more than one member exactly when the entry is duplicated. */
  lemma LongOwnGroup(es: seq<Entry>, x: nat)
    requires x < |es|
    ensures (HasPolicy(es[x]) && IdKey(es[x]) in Pivot(es) && |Pivot(es)[IdKey(es[x])]| > 1) <==> IsDuplicated(es, x)
  {
    PivotGroups(es);
    if HasPolicy(es[x]) {
      var list := Pivot(es)[IdKey(es[x])];
      if |list| > 1 {
        var j := if list[0] == x then list[1] else list[0];
        assert j in list && j != x;
        assert HasPolicy(es[j]) && IdKey(es[j]) == IdKey(es[x]);
      }
      if IsDuplicated(es, x) {
        var j :| 0 <= j < |es| && j != x && HasPolicy(es[j]) && IdKey(es[j]) == IdKey(es[x]);
        assert x in list && j in list;
      }
    }
  }

  /** Entry `x` after visiting every group once, in the order `keys` gives. */
  lemma {:induction false} AnyGroupOrderEntry(es: seq<Entry>, keys: seq<string>, x: nat)
    requires x < |es|
    requires InRange(Pivot(es), |es|)
    requires forall k :: 0 <= k < |keys| ==> keys[k] in Pivot(es)
    requires forall key :: key in Pivot(es) ==> key in keys
    requires forall a, b :: 0 <= a < b < |keys| ==> keys[a] != keys[b]
    ensures MarkGroups(es, Pivot(es), keys)[x] == DuplicatePass(es)[x]
  {
    MarkGroupsSpec(es, Pivot(es), keys);
    OccurrencesInPivot(es, keys, x);
    LongOwnGroup(es, x);
    var d := DuplicateIssue(IdKey(es[x]));
    assert Repeat(d, 1) == [d];
    assert Repeat(d, 0) == [];
  }

  /**
   * The order `Object.values` visits the groups in does not matter: visiting
   * every group once, in any order, gives the same entries as `DuplicatePass`.
   */
  lemma {:induction false} AnyGroupOrderMarksDuplicates(es: seq<Entry>, keys: seq<string>)
    requires forall k :: 0 <= k < |keys| ==> keys[k] in Pivot(es)
    requires forall key :: key in Pivot(es) ==> key in keys
    requires forall a, b :: 0 <= a < b < |keys| ==> keys[a] != keys[b]
    ensures InRange(Pivot(es), |es|)
    ensures MarkGroups(es, Pivot(es), keys) == DuplicatePass(es)
  {
    PivotGroups(es);
    forall x | 0 <= x < |es|
      ensures MarkGroups(es, Pivot(es), keys)[x] == DuplicatePass(es)[x]
    {
      AnyGroupOrderEntry(es, keys, x);
    }
  }

  /**
   * Two policies that both lack an `id` share the key "undefined": each is
   * flagged, and the message names the id "undefined".
   */
  lemma MissingIdsAreDuplicates(es: seq<Entry>, i: nat, j: nat)
    requires i < |es| && j < |es| && i != j
    requires HasPolicy(es[i]) && HasPolicy(es[j])
    requires Property(es[i].policy, "id") == Undefined && Property(es[j].policy, "id") == Undefined
    ensures DuplicatePass(es)[i].issues == es[i].issues + [DuplicateIssue("undefined")]
  {
    assert IdKey(es[i]) == "undefined" && IdKey(es[j]) == "undefined";
    assert IsDuplicated(es, i);
  }

  /** The names `({})[key]` finds on `Object.prototype` before any group exists. */
  const PROTOTYPE_KEYS: set<string> := {
    "constructor", "hasOwnProperty", "isPrototypeOf", "propertyIsEnumerable",
    "toString", "toLocaleString", "valueOf", "__proto__",
    "__defineGetter__", "__defineSetter__", "__lookupGetter__", "__lookupSetter__"
  }

  const PUSH_NOT_A_FUNCTION: string := "result[id].push is not a function"

  /** The `id` the `reduce` reads off an entry's policy. */
  function Id(e: Entry): Value
  {
    Property(e.policy, "id")
  }

  /**
   * Entry `x` makes the `reduce` as written throw when it reaches it: its id
   * cannot be turned into a key, or the key names an `Object.prototype` member.
   */
  predicate ThrowsAt(es: seq<Entry>, x: int)
    requires 0 <= x < |es|
  {
    HasPolicy(es[x]) && (!Printable(Id(es[x])) || IdKey(es[x]) in PROTOTYPE_KEYS)
  }

  /** The TypeError such an entry raises. */
  function ThrowMessage(e: Entry): string
  {
    if !Printable(Id(e)) then CANNOT_CONVERT else PUSH_NOT_A_FUNCTION
  }

  predicate HasThrowingId(es: seq<Entry>)
  {
    exists x :: 0 <= x < |es| && ThrowsAt(es, x)
  }

  /**
   * The `reduce` as written. `result[id]` first turns the id into a key, which
   * throws for an id `String` cannot convert. `result[id] || []` then reads an
   * inherited member of `Object.prototype` when the key names one, and the
   * following `push` throws a TypeError.
   */
  function PivotAsWritten(es: seq<Entry>): Result<Groups, string>
    decreases |es|
  {
    if |es| == 0 then Ok(map[])
    else
      match PivotAsWritten(es[..|es| - 1])
      case Err(msg) => Err(msg)
      case Ok(groups) => StepAsWritten(groups, es[|es| - 1], |es| - 1)
  }

  /** One call of the `reduce` callback as written, for entry `e` at index `x`. */
  function StepAsWritten(groups: Groups, e: Entry, x: nat): Result<Groups, string>
  {
    if !HasPolicy(e) then Ok(groups)
    else if !Printable(Id(e)) then Err(CANNOT_CONVERT)
    else
      var key := IdKey(e);
      if key in groups then Ok(groups[key := groups[key] + [x]])
      else if key in PROTOTYPE_KEYS then Err(PUSH_NOT_A_FUNCTION)
      else Ok(groups[key := [x]])
  }

  /** The pass as written: throws on such an id, otherwise marks like `DuplicatePass`. */
  function DuplicatePassAsWritten(es: seq<Entry>): Result<seq<Entry>, string>
  {
    match PivotAsWritten(es)
    case Err(msg) => Err(msg)
    case Ok(groups) => Ok(Mark(es, DuplicateMembers(groups)))
  }

  /** A throwing id among the entries is one among all but the last, or the last one's. */
  lemma HasThrowingIdSnoc(es: seq<Entry>)
    requires |es| > 0
    ensures forall x :: 0 <= x < |es| - 1 ==> (ThrowsAt(es[..|es| - 1], x) <==> ThrowsAt(es, x))
    ensures HasThrowingId(es) <==> HasThrowingId(es[..|es| - 1]) || ThrowsAt(es, |es| - 1)
  {
    var prefix := es[..|es| - 1];
    assert forall x :: 0 <= x < |prefix| ==> prefix[x] == es[x];
    if HasThrowingId(es) {
      var x :| 0 <= x < |es| && ThrowsAt(es, x);
      if x < |prefix| {
        assert ThrowsAt(prefix, x);
      }
    }
    if HasThrowingId(prefix) {
      var x :| 0 <= x < |prefix| && ThrowsAt(prefix, x);
      assert ThrowsAt(es, x);
    }
  }

  /** Every group key is the id key of some entry with a policy. */
  lemma PivotKeyWitness(es: seq<Entry>, key: string)
    ensures key in Pivot(es) ==>
              exists x :: 0 <= x < |es| && HasPolicy(es[x]) && IdKey(es[x]) == key
  {
    PivotGroups(es);
    if key in Pivot(es) {
      var x := Pivot(es)[key][0];
      assert HasPolicy(es[x]) && IdKey(es[x]) == key;
    }
  }

  /** Entry `x` is the first entry whose id throws. */
  predicate FirstThrow(es: seq<Entry>, x: int)
  {
    0 <= x < |es| && ThrowsAt(es, x) && forall y :: 0 <= y < x ==> !ThrowsAt(es, y)
  }

  /** Away from prototype names, the callback as written throws exactly on a throwing id, and otherwise agrees with `PivotStep`. */
  lemma StepAsWrittenSpec(groups: Groups, e: Entry, x: nat)
    requires forall key :: key in groups ==> key !in PROTOTYPE_KEYS
    ensures StepAsWritten(groups, e, x) ==
              if HasPolicy(e) && (!Printable(Id(e)) || IdKey(e) in PROTOTYPE_KEYS) then Err(ThrowMessage(e))
              else Ok(PivotStep(groups, e, x))
  {
    if HasPolicy(e) && Printable(Id(e)) && IdKey(e) !in groups {
      assert [] + [x] == [x];
    }
  }

  /** One step of the as-written `reduce` from the intended groups of the entries before it. */
  lemma {:induction false} PivotAsWrittenStep(es: seq<Entry>)
    requires |es| > 0 && !HasThrowingId(es[..|es| - 1])
    requires PivotAsWritten(es[..|es| - 1]) == Ok(Pivot(es[..|es| - 1]))
    ensures PivotAsWritten(es) ==
              if ThrowsAt(es, |es| - 1) then Err(ThrowMessage(es[|es| - 1])) else Ok(Pivot(es))
  {
    var n := |es| - 1;
    var prefix := es[..n];
    var groups := Pivot(prefix);
    forall key | key in groups
      ensures key !in PROTOTYPE_KEYS
    {
      PivotKeyWitness(prefix, key);
      var x :| 0 <= x < |prefix| && HasPolicy(prefix[x]) && IdKey(prefix[x]) == key;
      assert !ThrowsAt(prefix, x);
    }
    StepAsWrittenSpec(groups, es[n], n);
  }

  /**
   * Appending an entry keeps the first throwing id of the entries before it,
   * and makes the new entry the first one when none of them throws.
   */
  lemma FirstThrowSnoc(es: seq<Entry>, x: int)
    requires |es| > 0 && 0 <= x < |es|
    requires x < |es| - 1 ==> FirstThrow(es[..|es| - 1], x)
    requires x == |es| - 1 ==> !HasThrowingId(es[..|es| - 1]) && ThrowsAt(es, x)
    ensures FirstThrow(es, x)
    ensures PivotAsWritten(es[..|es| - 1]).Err? ==> PivotAsWritten(es) == PivotAsWritten(es[..|es| - 1])
  {
    HasThrowingIdSnoc(es);
    if x < |es| - 1 {
      assert es[..|es| - 1][x] == es[x];
    }
  }

  /**
   * The as-written `reduce` throws exactly when some entry's id throws, with
   * the message of the first such entry; otherwise it builds the intended groups.
   */
  lemma {:induction false} PivotAsWrittenSpec(es: seq<Entry>)
    ensures PivotAsWritten(es).Err? <==> HasThrowingId(es)
    ensures PivotAsWritten(es).Err? ==> exists x :: FirstThrow(es, x) && PivotAsWritten(es).error == ThrowMessage(es[x])
    ensures !HasThrowingId(es) ==> PivotAsWritten(es) == Ok(Pivot(es))
    decreases |es|
  {
    if |es| > 0 {
      var n := |es| - 1;
      var prefix := es[..n];
      PivotAsWrittenSpec(prefix);
      HasThrowingIdSnoc(es);
      if HasThrowingId(prefix) {
        var x :| FirstThrow(prefix, x) && PivotAsWritten(prefix).error == ThrowMessage(prefix[x]);
        FirstThrowSnoc(es, x);
      } else {
        PivotAsWrittenStep(es);
        if ThrowsAt(es, n) {
          FirstThrowSnoc(es, n);
        }
      }
    }
  }

  /**
   * The as-written pass succeeds exactly when no id throws, and then agrees
   * with `DuplicatePass`; when it throws, it is with the first throwing id's message.
   */
  lemma DuplicatePassAsWrittenSpec(es: seq<Entry>)
    ensures DuplicatePassAsWritten(es).Err? <==> HasThrowingId(es)
    ensures DuplicatePassAsWritten(es).Err? ==> exists x :: FirstThrow(es, x) && DuplicatePassAsWritten(es).error == ThrowMessage(es[x])
    ensures !HasThrowingId(es) ==> DuplicatePassAsWritten(es) == Ok(DuplicatePass(es))
  {
    PivotAsWrittenSpec(es);
  }

  /** A single policy with `id: constructor` makes the as-written pass throw, where the corrected one reports nothing. */
  lemma ConstructorIdThrows()
    ensures var es := [Entry("policies/a.yml", Obj(map["for" := Str("repositories"), "id" := Str("constructor"), "name" := Str("a")]), [])];
            DuplicatePassAsWritten(es) == Err(PUSH_NOT_A_FUNCTION)
            && DuplicatePass(es) == es
  {
    var es := [Entry("policies/a.yml", Obj(map["for" := Str("repositories"), "id" := Str("constructor"), "name" := Str("a")]), [])];
    assert HasPolicy(es[0]) && IdKey(es[0]) == "constructor";
    assert FirstThrow(es, 0);
    DuplicatePassAsWrittenSpec(es);
    assert !IsDuplicated(es, 0);
  }

  /**
   * A single policy whose id is a mapping with its own `toString` field makes
   * the as-written pass throw, where the corrected one groups it under
   * "[object Object]" and reports nothing.
   */
  lemma ToStringFieldIdThrows()
    ensures var es := [Entry("policies/a.yml", Obj(map["for" := Str("repositories"), "id" := Obj(map["toString" := Num(1)]), "name" := Str("a")]), [])];
            DuplicatePassAsWritten(es) == Err(CANNOT_CONVERT)
            && DuplicatePass(es) == es
  {
    var es := [Entry("policies/a.yml", Obj(map["for" := Str("repositories"), "id" := Obj(map["toString" := Num(1)]), "name" := Str("a")]), [])];
    assert HasPolicy(es[0]) && !Printable(Id(es[0]));
    assert FirstThrow(es, 0);
    DuplicatePassAsWrittenSpec(es);
    assert !IsDuplicated(es, 0);
  }
}
