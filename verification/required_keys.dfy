/**
 * The required-key pass of validator.js (`validatePolicySyntax`): an entry
 * with a policy gets one "Policy missing '<key>' clause" error for each of
 * `for`, `id`, `name`, in that order, whose value is missing or falsy.
 */
module RequiredKeys {

  import opened JsValues
  import opened Policies

  /** The keys of `keys` whose value in `policy` is missing or falsy, in the order of `keys`. */
  function MissingKeys(policy: Value, keys: seq<string>): (r: seq<string>)
    ensures |r| <= |keys|
    ensures forall k :: k in r <==> k in keys && !Truthy(Property(policy, k))
    decreases |keys|
  {
    if |keys| == 0 then []
    else (if Truthy(Property(policy, keys[0])) then [] else [keys[0]]) + MissingKeys(policy, keys[1..])
  }

  /** The issues the `forEach` over the required keys appends, one per missing key. */
  function MissingKeyIssues(policy: Value): seq<Issue>
  {
    var missing := MissingKeys(policy, REQUIRED_KEYS);
    seq(|missing|, k requires 0 <= k < |missing| => MissingKeyIssue(missing[k]))
  }

  /** One key's contribution: its issue when its value is falsy, nothing otherwise. */
  function IfMissing(policy: Value, key: string): seq<Issue>
  {
    if Truthy(Property(policy, key)) then [] else [MissingKeyIssue(key)]
  }

  /** Different keys give different messages. */
  lemma MissingKeyIssueInjective(a: string, b: string)
    ensures MissingKeyIssue(a) == MissingKeyIssue(b) ==> a == b
  {
    var head := "Policy missing '";
    if MissingKeyIssue(a) == MissingKeyIssue(b) {
      var m := MissingKeyIssue(a).message;
      assert |a| == |b|;
      assert a == m[|head|..|head| + |a|];
      assert b == MissingKeyIssue(b).message[|head|..|head| + |b|];
    }
  }

  /**
   * For the fixed key list the pass appends exactly: the `for` issue if `for`
   * is falsy, then the `id` issue if `id` is, then the `name` issue if `name` is.
   */
  lemma RequiredKeyOrder(policy: Value)
    ensures MissingKeyIssues(policy) == IfMissing(policy, "for") + IfMissing(policy, "id") + IfMissing(policy, "name")
  {
    var keys := REQUIRED_KEYS;
    assert keys[1..] == ["id", "name"];
    assert keys[1..][1..] == ["name"];
    assert keys[1..][1..][1..] == [];
  }

  /**
   * Every appended issue is an error, and the issue for a required key is
   * appended exactly when that key is missing or falsy; none is appended twice.
   */
  lemma MissingKeyIssuesSpec(policy: Value)
    ensures forall k :: 0 <= k < |MissingKeyIssues(policy)| ==> MissingKeyIssues(policy)[k].status == ERROR
    ensures forall key :: key in REQUIRED_KEYS ==>
              (MissingKeyIssue(key) in MissingKeyIssues(policy) <==> !Truthy(Property(policy, key)))
    ensures |MissingKeyIssues(policy)| ==
              (if Truthy(Property(policy, "for")) then 0 else 1)
              + (if Truthy(Property(policy, "id")) then 0 else 1)
              + (if Truthy(Property(policy, "name")) then 0 else 1)
  {
    RequiredKeyOrder(policy);
    forall key | key in REQUIRED_KEYS
      ensures MissingKeyIssue(key) in MissingKeyIssues(policy) <==> !Truthy(Property(policy, key))
    {
      MissingKeyIssueInjective(key, "for");
      MissingKeyIssueInjective(key, "id");
      MissingKeyIssueInjective(key, "name");
    }
  }

  /**
   * The pass on one entry: an entry without a policy is returned unchanged;
   * otherwise the file and policy are kept and the missing-key issues are
   * appended after the existing ones.
   */
  function SyntaxPass(e: Entry): (r: Entry)
    ensures r.file == e.file && r.policy == e.policy
    ensures !HasPolicy(e) ==> r == e
    ensures HasPolicy(e) ==> r.issues == e.issues + MissingKeyIssues(e.policy)
  {
    if !HasPolicy(e) then e else e.(issues := e.issues + MissingKeyIssues(e.policy))
  }
}
