/**
 * The records the validator keeps per discovered file (validator.js): an
 * entry `{file, policy, issues}` and the issues attached to it, plus the
 * construction of an entry from the outcome of reading and parsing a file.
 */
module Policies {

  import opened JsValues

  const ERROR: string := "error"
  const WARNING: string := "warning"

  /** The keys every policy document must carry, in the order they are checked. */
  const REQUIRED_KEYS: seq<string> := ["for", "id", "name"]

  /** The only validation mode that is implemented. */
  const ORG_MODE: string := "org"

  /** The prefix by which the counter recognises a parse failure. */
  const INVALID_PREFIX: string := "YAML"

  /** One detected problem; `status` is passed through verbatim to annotations. */
  datatype Issue = Issue(status: string, message: string)

  /** One discovered file. `policy` is `Undefined` when the file did not parse. */
  datatype Entry = Entry(file: string, policy: Value, issues: seq<Issue>)

  /** What reading and safe-loading one file produced: a document, or the thrown message. */
  datatype ParseResult = Parsed(doc: Value) | Failed(cause: string)

  /** A discovered file together with its parse outcome, in discovery order. */
  datatype LoadedFile = LoadedFile(file: string, outcome: ParseResult)

  function ParseIssue(cause: string): Issue
  {
    Issue(ERROR, "YAML parse error: " + cause)
  }

  function MissingKeyIssue(key: string): Issue
  {
    Issue(ERROR, "Policy missing '" + key + "' clause")
  }

  function DuplicateIssue(id: string): Issue
  {
    Issue(ERROR, "Policy has duplicate id: " + id)
  }

  /** The rule passes only look at entries whose `policy` is truthy. */
  predicate HasPolicy(e: Entry)
  {
    Truthy(e.policy)
  }

  /** The key under which an entry is grouped: `String(entry.policy.id)`. */
  function IdKey(e: Entry): string
  {
    ToJsString(Property(e.policy, "id"))
  }

  /** An issue the counter classifies as a parse failure. */
  predicate IsInvalidIssue(i: Issue)
  {
    StartsWith(i.message, INVALID_PREFIX)
  }

  /**
   * Builds the entry for one file: the parsed document with no issues, or no
   * document and a single parse-error issue carrying the thrown message.
   */
  function LoadEntry(f: LoadedFile): (e: Entry)
    ensures e.file == f.file
    ensures f.outcome.Parsed? ==> e.policy == f.outcome.doc && e.issues == []
    ensures f.outcome.Failed? ==> !HasPolicy(e) && |e.issues| == 1
    ensures f.outcome.Failed? ==>
              e.issues[0].status == ERROR && IsInvalidIssue(e.issues[0])
              && e.issues[0].message == "YAML parse error: " + f.outcome.cause
  {
    match f.outcome
    case Parsed(doc) => Entry(f.file, doc, [])
    case Failed(cause) => Entry(f.file, Undefined, [ParseIssue(cause)])
  }

  /** Entries for all discovered files, in discovery order. */
  function LoadEntries(files: seq<LoadedFile>): (es: seq<Entry>)
    ensures |es| == |files|
    ensures forall k :: 0 <= k < |files| ==> es[k] == LoadEntry(files[k])
  {
    seq(|files|, k requires 0 <= k < |files| => LoadEntry(files[k]))
  }

  /** Content-rule messages never look like parse failures to the counter. */
  lemma ContentIssuesAreValid(key: string, id: string)
    ensures !IsInvalidIssue(MissingKeyIssue(key))
    ensures !IsInvalidIssue(DuplicateIssue(id))
  {
    assert MissingKeyIssue(key).message[0] == 'P';
    assert DuplicateIssue(id).message[0] == 'P';
  }
}
