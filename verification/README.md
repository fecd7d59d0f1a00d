# policies-action validation engine in Dafny

A functional model of the policy validator and report formatter of
`github/policies-action`. The repository's own names are used throughout.

- **Input.** A list of files has been discovered under `policies/`. Each file comes with its YAML parse outcome: a document, or a failure with the parser's message.
- **Entries.** `loadPolicies` turns each file into an entry `{file, policy, issues}`.
- **Validation.** In `org` mode, `validate` runs three passes over the entries:
  - the duplicate-id pass;
  - the required-key pass over `for`, `id` and `name`;
  - the regroup pass, which puts errors before warnings.
- **Counting.** `getCounts` derives `total`, `invalid`, `error`, `warning` and `problemPolicy` from the issue lists.
- **Reporting.** `reportIssues` turns the entries and counts into:
  - two log lines;
  - an optional `setFailed` message;
  - one annotation per issue.

The modules follow the program:

| module | file | models |
|---|---|---|
| `Results` | results.dfy | `Option` and `Result` |
| `JsValues` | js_values.dfy | parsed YAML as JavaScript values, with falsiness, property lookup and `String(v)`. `String(v)` is how an id becomes an object key and how a template literal prints it |
| `Policies` | policies.dfy | issues, entries, parse outcomes, and the entry `loadPolicies` builds per file |
| `Duplicates` | duplicates.dfy | `validateDuplicates`, corrected and as written |
| `RequiredKeys` | required_keys.dfy | `validatePolicySyntax` |
| `Grouping` | grouping.dfy | `groupByStatus` |
| `Counting` | counting.dfy | `getCounts`, as the source's fold and as independent reference counts |
| `Validator` | validator.dfy | the passes, and what a validated file ends up with |
| `Reporter` | reporter.dfy | `reportIssues` and `pluralString` |
| `Pipeline` | pipeline.dfy | validation followed by reporting |
| `Scenarios` | scenarios.dfy | the repository's test cases, stated with the strings the tests expect |

### Modelling choices

- **Documents.** A YAML document is a `JsValues.Value`: undefined, null, a boolean, a number, a string, an array or a mapping. Numbers are the integers a JavaScript number holds exactly, of magnitude at most 2^53 (`JsValues.ExactInt`); each of them prints in plain decimal.
- **Falsiness.** `!entry.policy` and `!entry.policy[key]` are JavaScript falsiness, so `Truthy` covers undefined, null, `false`, `0` and `""`.
- **Id keys.** Ids are grouped by their object-key string:
  - the number `1` and the string `"1"` share a group;
  - an entry without an `id` groups under `"undefined"`.
- **Empty documents.** A file that parses to an empty document gets an entry with no policy and no issues. Such an entry is counted only in `total`.
- **Pass order.** The duplicate pass runs first, so a flagged entry's duplicate-id error precedes its missing-key errors. The regroup then keeps that order, because both are errors.
- **Mode check.** `validate` returns `Err("Invalid validation mode: " + mode)` for any mode other than `org`, in place of the thrown `Error`.
- **Dead early return.** The early return `if (pivoted.length === this.policies.length)` (validator.js:42) is never taken. `pivoted` is a plain object, so `pivoted.length` is `undefined`; even an id `"length"` makes it an array, never a number. The model leaves the test out.
- **Group order.** `Object.values(pivoted)` visits groups in an order that depends on the keys. `MarkGroups` models the `forEach` as a fold over any enumeration of the keys, and `AnyGroupOrderMarksDuplicates` proves that every enumeration gives `DuplicatePass`, which is stated per entry. Behind it, `EachEntryInOneGroupOnce` shows that every entry sits in exactly one group, once.
- **Corrected and as written.** `DuplicatePass` is the duplicate-id pass as evidently intended: every id is grouped. The program as written throws on some ids (see "## Findings"). `DuplicatePassAsWritten` and `Validator.ValidateAsWritten` model that program, and their spec lemmas prove that it agrees with the corrected one exactly when no id throws. The rest of the model, `Validate` included, states the corrected program.
- **`problemPolicy` sign.** `getCounts` subtracts `invalid` from the number of entries with issues, so `problemPolicy` is an `int`. It can be negative for arbitrary entries, for example an entry holding two "YAML…" issues. After `validate` it is never negative (`Validator.CountsAfterValidate`). The reporter's `if (counts.problemPolicy)` is therefore a nonzero test.
- **Entries without a document.** Entries without a parsed document are skipped by both content passes. This follows the code, which tests `!entry.policy` (validator.js:36, 50): a file that parses to `null`, `0`, `false` or `""` is skipped like a parse failure, but gets no issue.

## Model

| member | source | states |
|---|---|---|
| JsValues.Truthy | validator.js:52 | a value is falsy exactly when it is undefined, null, false, 0 or the empty string |
| JsValues.NatToStringRoundTrip | reporter.js:26 | the decimal digits a count prints as read back to the count |
| JsValues.IntToStringRoundTrip | reporter.js:26 | any integer, negative ones included, reads back from its printed form |
| JsValues.NumberKeysDistinct | validator.js:38 | two numeric ids of magnitude at most 2^53 land in the same group exactly when they are equal |
| JsValues.NumberAndStringKeysCollide | validator.js:38 | a numeric id of magnitude at most 2^53 and the string of its decimal digits land in the same group |
| Policies.LoadEntry | validator.js:62-69 | a parsed file keeps its document and gets no issues; a failed one has no policy and exactly one error issue "YAML parse error: " + cause, which classifies as invalid |
| Policies.LoadEntries | validator.js:62-69 | one entry per file, in file order |
| Policies.ContentIssuesAreValid | validator.js:76 | missing-key and duplicate-id messages never count as invalid YAML |
| Duplicates.PivotGroups | validator.js:35-41 | every group is a nonempty increasing list of entries that have a policy with that id key, and every entry with a policy is in its key's group |
| Duplicates.DuplicateMembersSpec | validator.js:43-45 | an entry is a member of a group larger than one exactly when it has a policy and another entry with a policy shares its id key |
| Duplicates.EachEntryInOneGroupOnce | validator.js:35-45 | an entry occurs once in its own group and in no other |
| Duplicates.MarkGroupsSpec | validator.js:43-46 | visiting a list of groups appends to each entry one duplicate-id error per visited group of more than one entry that holds it, and nothing else |
| Duplicates.OccurrencesInPivot | validator.js:35-46 | over distinct keys, an entry occurs exactly once among the visited groups of more than one entry when it has a policy whose id key is visited and its group is longer than one, and not at all otherwise |
| Duplicates.LongOwnGroup | validator.js:35-46 | an entry's own group has more than one member exactly when it is flagged as a duplicate |
| Duplicates.AnyGroupOrderMarksDuplicates | validator.js:43-46 | visiting the groups in any order that lists every key once gives exactly `DuplicatePass` |
| Duplicates.DuplicatePass | validator.js:34-47 | same entries, files and policies; an entry gets exactly one "Policy has duplicate id: <id>" error when another entry with a policy shares its id, otherwise nothing |
| Duplicates.MissingIdsAreDuplicates | validator.js:37-38 | two policies without an `id` are duplicates of each other under the id "undefined" |
| Duplicates.PivotAsWrittenSpec | validator.js:35-41 | the source's reduce throws exactly when some policy's id throws: an id `String` cannot convert (a mapping with its own `toString`, or a list holding one) or one whose key names an `Object.prototype` member. It throws with the first such policy's message, "Cannot convert object to primitive value" or "result[id].push is not a function"; otherwise it builds the intended groups |
| Duplicates.DuplicatePassAsWrittenSpec | validator.js:34-47 | the pass as written throws exactly when some id throws, with the first such id's message, and otherwise agrees with `DuplicatePass` |
| Duplicates.ConstructorIdThrows | validator.js:38-39 | a single complete policy with `id: constructor` makes the pass as written throw, while the corrected pass leaves it unchanged |
| Duplicates.ToStringFieldIdThrows | validator.js:38 | a single policy whose id is a mapping with a `toString` field makes the pass as written throw "Cannot convert object to primitive value", while the corrected pass leaves it unchanged |
| RequiredKeys.MissingKeys | validator.js:51-53 | a key is reported exactly when it is one of the keys checked and its value is missing or falsy |
| RequiredKeys.RequiredKeyOrder | validator.js:6 | following the key list `['for', 'id', 'name']`, the appended issues are the `for`, then `id`, then `name` issues, each only if that key is missing or falsy |
| RequiredKeys.MissingKeyIssuesSpec | validator.js:51-53 | every appended issue is an error; the issue for a key is present exactly when that key is falsy; the number of issues is the number of falsy keys |
| RequiredKeys.MissingKeyIssueInjective | validator.js:52 | different keys give different messages |
| RequiredKeys.SyntaxPass | validator.js:49-54 | file and policy unchanged; an entry without a policy is left as it is; otherwise the missing-key issues are appended after the existing ones |
| Grouping.WithStatusAppend | validator.js:88-92 | filtering by status distributes over concatenation |
| Grouping.BinAllFilters | validator.js:88-92 | the reduce into bins collects, per bin, exactly the issues of that status, in order |
| Grouping.GroupByStatus | validator.js:86-95 | the errors are kept in order, and so are the warnings; nothing else is kept; no error follows a warning |
| Grouping.GroupByStatusIdempotent | validator.js:86-95 | regrouping a regrouped list changes nothing |
| Grouping.GroupByStatusKeepsErrors | validator.js:86-95 | a list of errors only is left as it is |
| Counting.TallyEntriesAdds | validator.js:73-81 | the source's fold adds, to its start value, the reference counts per kind and the number of entries with issues |
| Counting.GetCounts | validator.js:72-84 | `total` is the number of entries; `invalid`, `error` and `warning` count the issues classified as "YAML…", error and warning; `problemPolicy` is the number of entries with issues minus `invalid` |
| Counting.KindsPartitionIssues | validator.js:75-79 | every issue falls in exactly one class (invalid, error, warning or uncounted) |
| Counting.CountsCoverIssues | validator.js:72-84 | the counted issues plus the uncounted ones are all issues, so `invalid + error + warning` never exceeds the number of issues |
| Validator.Validate | validator.js:15-18 | any mode but `org` fails with "Invalid validation mode: <mode>" and produces nothing; `org` produces one entry per file |
| Validator.ValidateAsWrittenSpec | validator.js:15-47 | the program as written fails on a mode other than `org` like `Validate`; in `org` mode it fails exactly when some file's id throws, with the first such id's message, and otherwise gives what `Validate` gives |
| Validator.ValidatePolicies | validator.js:26-32 | entries keep their number, order, files and policies; each entry's issues are the regrouped original, duplicate-id and missing-key issues |
| Validator.DuplicatedIffSharesId | validator.js:34-47 | a loaded file is flagged as a duplicate exactly when another file parsed to a policy with the same id key |
| Validator.ValidateEntries | validator.js:26-69 | after `validate`, entry i is file i with its document (none on a parse failure), and its issues are exactly: the parse error; or nothing for a falsy document; or the duplicate-id error if another file shares its id, followed by the missing-key errors for `for`, `id`, `name` |
| Validator.CountsAfterValidate | validator.js:72-84 | after `validate`: `total` is the number of files, `invalid` the number of failed parses, `warning` is 0, `problemPolicy` is never negative, `problemPolicy + invalid` is the number of entries with issues, and `error + invalid` is the number of issues |
| Reporter.PluralStringSpec | reporter.js:25-27 | the phrase starts with the count, which reads back, then a space and the noun; the noun is plural exactly when the count is not 1, 0 included |
| Reporter.Annotations | reporter.js:21-22 | one annotation per issue |
| Reporter.AnnotationAt | reporter.js:21-22 | issue j of entry i is annotated, with its status, the entry's file and its message, after all issues of earlier entries: entry order, then issue order |
| Reporter.ReportWithCounts | reporter.js:3-23 | two log lines, the first "Checked <total> potential policy file(s)."; no failure exactly when `problemPolicy + invalid` is 0, and then the second line is "Everything looks good."; otherwise the second line is the problem summary and the failure message is "Found <error+warning+invalid> problem(s) in <total> potential policy file(s)."; either way the annotations are one per issue, in entry then issue order (`Annotations`) |
| Reporter.SecondLineDecidesOutcome | reporter.js:7-17 | the second line is "Everything looks good." exactly when there is no failure |
| Pipeline.NoEntryWithIssuesMeansNoIssues | validator.js:74 | no entry has issues exactly when there are no issues at all |
| Pipeline.ReportAfterValidate | reporter.js:7-22 | after `validate`, the report fails exactly when some entry has an issue, and the number of annotations is `error + warning + invalid` |
| Pipeline.CleanFilesReportNothing | reporter.js:3-23 | files that all parse to complete documents with distinct ids give counts (n, 0, 0, 0, 0), no failure and no annotations |
| Scenarios.FindsValidFile | test/validatorTests.js:16-28 | one complete file gives counts (1, 0, 0, 0, 0) |
| Scenarios.FindsInvalidYamlFile | test/validatorTests.js:31-43 | one file that fails to parse gives counts (1, 1, 0, 0, 0), whatever the parser's message |
| Scenarios.FindsMissingKey | test/validatorTests.js:45-57 | a file without `name` gets the single error "Policy missing 'name' clause" and counts (1, 0, 1, 0, 1) |
| Scenarios.FindsTwoMissingKeys | test/validatorTests.js:59-71 | a file with only `for` gets the `id` error, then the `name` error, and counts (1, 0, 2, 0, 1) |
| Scenarios.FindsDuplicatesAndMissingKeys | test/validatorTests.js:73-87 | both `bar` files get the duplicate-id error and the first also the missing-`name` error, in that order; `foo` gets nothing; counts (3, 0, 3, 0, 2) |
| Scenarios.ReportsValidFile | test/reporterTests.js:6-17 | "Checked 1 potential policy file.", "Everything looks good.", no failure, no annotation |
| Scenarios.ReportsInvalidFile | test/reporterTests.js:19-32 | the invalid-file summary line, the failure "Found 1 problem in 1 potential policy file." and one annotation |
| Scenarios.ReportsMissingKey | test/reporterTests.js:34-48 | "Found 0 invalid YAML files and 1 file with 1 error and 0 warnings." and the one annotation |
| Scenarios.ReportsTwoMissingKeys | test/reporterTests.js:50-67 | "… 1 file with 2 errors and 0 warnings.", "Found 2 problems in 1 potential policy file." and two annotations in issue order |
| Scenarios.ReportsDuplicatesAndMissingKeys | test/reporterTests.js:69-92 | "Checked 3 potential policy files.", "… 2 files with 3 errors and 0 warnings.", "Found 3 problems in 3 potential policy files." and three annotations in entry, then issue, order |

In the reporter scenarios, the longer expected lines are written as concatenations of the phrases they are built from, for example `"Found " + "1 problem" + " in " + "1 potential policy file" + "."`.

## Left out

- File discovery: `recursive-readdir`, `fs.readFileSync` and the extension filter (validator.js:57-61). These are file-system I/O. The model takes the list of files and their parse outcomes as input.
- Read failures: a read that throws is caught by the same `catch` as a parse failure (validator.js:63-68), so it arrives as a `Failed` outcome with the error's message.
- The js-yaml parser (validator.js:64). It is a foreign library, so only its outcome is modelled: a document or a failure message.
- Documents: only integers of magnitude at most 2^53 are modelled as numbers. Floating point, `NaN`, `Infinity`, YAML timestamps and binary values are left out, so are a mapping key literally named `__proto__`, sparse arrays and the cyclic documents YAML aliases can build.
- JsValues.NumberKeysDistinct: holds only for the integers modelled. js-yaml reads a larger integer as the nearest double, so two distinct large ids can share a group, and from 10^21 on `String` prints exponent notation.
- Validator.Validate: states the corrected duplicate-id pass, and so do `ValidateEntries`, `CountsAfterValidate` and the `Pipeline` lemmas. The program as written throws instead on an id that names an `Object.prototype` member or that `String` cannot convert; `ValidateAsWritten` models that, and `ValidateAsWrittenSpec` bounds the difference to exactly those inputs.
- `pluralize` (reporter.js:1). It is a foreign library. Plurals are modelled for the six nouns the reporter uses, each formed by appending "s".
- index.js, `validateOrg`'s path join and the async plumbing. These are host glue: `@actions/core` input, `GITHUB_WORKSPACE`, console output and `run`.
- Mutation and aliasing: the passes are pure functions returning new entry lists, not in-place edits of `this.policies`.
- Reporter.ReportIssues: it has no contract of its own. It is `ReportWithCounts` applied to `GetCounts` of the same entries, and the reporter tests stub the counts in the same way.

## Findings

| source | as written | input that shows it | evidently intended | confidence | as-written member | corrected member |
|---|---|---|---|---|---|---|
| validator.js:38-39 | `result[id] = result[id] \|\| []` reads the id off a plain object. An id that names an `Object.prototype` member finds the inherited function or object, so `.push` throws "result[id].push is not a function" and the whole `validate` run fails | a single complete policy with `id: constructor` (or `toString`, `hasOwnProperty`, `__proto__`, …) | the policy is grouped like any other id. Alone it gets no issue; sharing the id with another policy, both get the duplicate-id error | not executed | Duplicates.DuplicatePassAsWritten (Duplicates.ConstructorIdThrows) | Duplicates.DuplicatePass |
| validator.js:38 | `result[id]` converts the id to a property key. An id that is a mapping with its own `toString` key (or a list holding one) has no callable `toString`, and the inherited `valueOf` returns the object itself, so the conversion throws "Cannot convert object to primitive value" and the whole `validate` run fails | a single policy with `id: {toString: 1}` | the policy is grouped under its printed key like any other id | not executed | Duplicates.DuplicatePassAsWritten (Duplicates.ToStringFieldIdThrows) | Duplicates.DuplicatePass |
