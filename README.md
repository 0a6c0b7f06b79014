# n8n workflow validator, modelled in Dafny

This project models the validator in `scripts/validate-workflow.js` of the Youtube-shorts video generator. The validator reads an n8n workflow document ("Video generator.json") and runs four checks over it:

- a structural check of `name`, `nodes` and `connections`;
- node checks: recommended node types, the `id`/`name`/`type` of every node, and a rule for each of four node types (form trigger, LLM chain, HTTP request, S3);
- a referential-integrity check of `connections` against node names;
- a check that credential entries are complete.

The errors and warnings of the four checks are concatenated in that order. When the run finishes, the exit status is 1 exactly when there is an error. A run that raises a `TypeError` does not finish (see `Report.RunOf`).

The document is a value of `Document.Workflow`. JavaScript truthiness is modelled explicitly:

- a string field is truthy when present and not empty (`Document.Truthy`);
- a present array or object is always truthy;
- `None` is a missing field, and a template literal renders it as `undefined` (`Document.Show`).

A check that raises a JavaScript `TypeError` ends in `Document.Outcome.Threw`. `Threw` carries what the accumulated arrays held at that moment.

Each module models one part of the script:

- `Structure`: the structural check.
- `Rules`: the four type-specific rules. Each rule is a method that takes the caller's `errors` and `warnings` sequences and returns them extended. This is how the script pushes onto its caller's arrays. Each method is specified by a pure function with the same behaviour (`FormTriggerRule`, `LlmRule`, `HttpRule`, `S3Rule`), and the properties are stated on those functions.
- `NodeChecks`: the node checks. `ValidateNodes` is the `forEach` loop over the nodes, proved equal to the recursive definition `NodesOutcome`.
- `Connections`: the connection check. Each nested `forEach` of the script is one method, proved against one of the recursive functions `TargetErrors`, `GroupErrors`, `PortErrors` and `EntriesErrors`.
- `Credentials`: the credential check.
- `Report`: the exit-code decision of `generateReport` (`ExitCode`) and the concatenation in `main`. `ValidateWorkflow` is proved equal to `RunOf`, and `RunOf` yields `Crashed` exactly when a `TypeError` escapes.
- `Text`: the string operations the checks rely on. It has `Includes` (`String.prototype.includes`) and the decimal rendering of an index.
- `Scenarios`: consequences over whole documents, and worked examples.

Where the code and its documented intent differ, the model follows the code:

- A document without `nodes` and without `name` gets two structural errors (missing name, then missing nodes array), not one (`Scenarios.MissingNodesStructure`).
- An HTTP request node without `url` does not just get the missing-URL error. The local-URL test raises a `TypeError` after that error is pushed (see Findings).
- Without a `nodes` array, the run ends in a `TypeError` in `main` (reading `nodes.length`) or in `validateNodes` (`nodes.map`). No report is produced in that case.

## Model

| member | source | states |
|---|---|---|
| Structure.ValidateWorkflowStructure | Youtube-shorts-video-generator/scripts/validate-workflow.js:40-59 | No warnings; at most two errors; each of the three messages is present exactly when its condition holds; the name error comes first and the nodes error last; the exact number of errors. |
| Scenarios.MissingNodesStructure | Youtube-shorts-video-generator/scripts/validate-workflow.js:45-52 | Without a nodes array the result is exactly the missing-nodes error, preceded by the name error when the name is missing. |
| Rules.FirstVoiceField | Youtube-shorts-video-generator/scripts/validate-workflow.js:135 | `find` returns nothing exactly when no field is labelled Voice; otherwise it returns the first such field. |
| Rules.RequiredFieldMessageInjective | Youtube-shorts-video-generator/scripts/validate-workflow.js:130 | Different labels give different required-field messages. |
| Rules.MissingLabelErrors | Youtube-shorts-video-generator/scripts/validate-workflow.js:125-132 | One error per required label missing from the field labels: present exactly when the label is missing, no other messages, no duplicates. |
| Rules.FormTriggerRule | Youtube-shorts-video-generator/scripts/validate-workflow.js:117-142 | Old contents stay a prefix. Without form field values: exactly one error and nothing else. Otherwise: at most five errors, one exactly per missing required label, no duplicates; at most one warning, present exactly when the first Voice field declares an empty option list. |
| Rules.CheckRequiredLabels | Youtube-shorts-video-generator/scripts/validate-workflow.js:128-132 | The loop appends exactly the missing-label errors. |
| Rules.ValidateFormTrigger | Youtube-shorts-video-generator/scripts/validate-workflow.js:117-142 | The imperative rule returns what FormTriggerRule specifies. |
| Scenarios.NoVoiceFieldNoWarning | Youtube-shorts-video-generator/scripts/validate-workflow.js:135-141 | A form with no field labelled Voice never gets the voice-options warning. |
| Rules.LlmMessagesDistinct | Youtube-shorts-video-generator/scripts/validate-workflow.js:148-152 | The two LLM warnings differ. |
| Rules.LlmRule | Youtube-shorts-video-generator/scripts/validate-workflow.js:144-154 | Errors unchanged; old warnings stay a prefix; at most two added, their exact count, and each present exactly when its field is missing. |
| Rules.ValidateLlmNode | Youtube-shorts-video-generator/scripts/validate-workflow.js:144-154 | The imperative rule returns what LlmRule specifies. |
| Text.Includes | Youtube-shorts-video-generator/scripts/validate-workflow.js:164 | `includes` is true exactly when the substring occurs at some offset. |
| Rules.HttpWarningsDistinct | Youtube-shorts-video-generator/scripts/validate-workflow.js:165-170 | The local-URL and HuggingFace warnings differ. |
| Rules.HttpWarnings | Youtube-shorts-video-generator/scripts/validate-workflow.js:163-171 | With a url present: exactly one warning per condition that holds, so at most two; none exactly when the url is not local and HuggingFace needs no authentication; the local-URL warning exactly for a local non-empty url; the HuggingFace warning exactly for a HuggingFace url without authentication. |
| Rules.HttpRule | Youtube-shorts-video-generator/scripts/validate-workflow.js:156-172 | As written. It raises exactly when url is absent, after pushing the missing-URL error. Otherwise the missing-URL error is added exactly when url is empty, no other error is added, and one warning is added for each of local url and unauthenticated HuggingFace url, exactly when it holds. |
| Rules.ValidateHttpRequest | Youtube-shorts-video-generator/scripts/validate-workflow.js:156-172 | The imperative rule, including where it raises, matches HttpRule. |
| Rules.HttpRuleThrowsWithoutUrl | Youtube-shorts-video-generator/scripts/validate-workflow.js:164 | Without url the rule as written raises, while the guarded rule adds exactly the missing-URL error. |
| Rules.HttpRuleGuarded | Youtube-shorts-video-generator/scripts/validate-workflow.js:159-171 | The corrected rule never raises: the missing-URL error exactly when url is not truthy, no warning then; the local-URL warning exactly for a local url, the HuggingFace warning exactly for an unauthenticated HuggingFace url, and one warning per condition that holds. |
| Rules.HttpRuleAgreesWithGuarded | Youtube-shorts-video-generator/scripts/validate-workflow.js:164 | With a url present, the rule as written and the corrected rule agree. |
| Rules.S3MessagesDistinct | Youtube-shorts-video-generator/scripts/validate-workflow.js:178-182 | The two S3 errors differ. |
| Rules.S3Rule | Youtube-shorts-video-generator/scripts/validate-workflow.js:174-184 | Warnings unchanged; old errors stay a prefix; at most two added, their exact count; the bucket error exactly when the bucket name is missing; the file error exactly for an upload without a file name. |
| Rules.ValidateS3Node | Youtube-shorts-video-generator/scripts/validate-workflow.js:174-184 | The imperative rule returns what S3Rule specifies. |
| Scenarios.S3UploadNeedsFileName | Youtube-shorts-video-generator/scripts/validate-workflow.js:181-183 | An upload with a bucket and no file name gets exactly the file error; a download gets none. |
| NodeChecks.TypeMessageInjective | Youtube-shorts-video-generator/scripts/validate-workflow.js:78 | Different types give different recommended-type messages. |
| NodeChecks.MissingTypeWarnings | Youtube-shorts-video-generator/scripts/validate-workflow.js:75-79 | One warning per required type absent from the present types: present exactly when the type is absent, no other messages, no duplicates. |
| NodeChecks.RecommendedWarningsCount | Youtube-shorts-video-generator/scripts/validate-workflow.js:67-79 | Between zero and four distinct warnings; each listed type's warning is present exactly when no node has that type. |
| NodeChecks.CheckRecommendedTypes | Youtube-shorts-video-generator/scripts/validate-workflow.js:75-79 | The loop appends exactly the missing-type warnings. |
| Scenarios.NothingPresent | Youtube-shorts-video-generator/scripts/validate-workflow.js:75-79 | With no node at all, every required type gets its warning, in order. |
| Text.DecimalString | Youtube-shorts-video-generator/scripts/validate-workflow.js:86-94 | `${index}` renders a non-empty string of decimal digits with no leading zero, except for 0 itself. |
| Text.DecimalStringInjective | Youtube-shorts-video-generator/scripts/validate-workflow.js:84-93 | Different indices render as different decimal texts. |
| NodeChecks.FieldMessagesDistinct | Youtube-shorts-video-generator/scripts/validate-workflow.js:84-93 | For one index, the missing-id, missing-name and missing-type messages differ. |
| NodeChecks.FieldMessagesNameTheirIndex | Youtube-shorts-video-generator/scripts/validate-workflow.js:84-93 | Each missing-field message determines its node index. |
| NodeChecks.NodeFieldErrors | Youtube-shorts-video-generator/scripts/validate-workflow.js:83-93 | Exact count, and each field's error is present exactly when that field is not truthy. |
| NodeChecks.DispatchRule | Youtube-shorts-video-generator/scripts/validate-workflow.js:96-111 | Raises exactly when a listed type has no parameters, or is an HTTP node without url; an unlisted type gets no further check; the rules only append. |
| NodeChecks.DispatchNode | Youtube-shorts-video-generator/scripts/validate-workflow.js:96-111 | The imperative switch returns what DispatchRule specifies. |
| NodeChecks.CheckNode | Youtube-shorts-video-generator/scripts/validate-workflow.js:82-112 | One node raises exactly when its rule does; its field errors follow the old errors; an unlisted type adds only the field errors. |
| NodeChecks.CheckNodeAt | Youtube-shorts-video-generator/scripts/validate-workflow.js:82-112 | The imperative loop body returns what CheckNode specifies. |
| NodeChecks.CheckNodesFromThrows | Youtube-shorts-video-generator/scripts/validate-workflow.js:82-112 | The loop over nodes from index i raises exactly when some later node raises. |
| NodeChecks.CheckNodesFrom | Youtube-shorts-video-generator/scripts/validate-workflow.js:83-112 | The `forEach` over the nodes from index i only appends to the accumulated findings, whether it completes or a rule raises. |
| NodeChecks.CheckNodesFromReports | Youtube-shorts-video-generator/scripts/validate-workflow.js:82-112 | When the loop completes, every missing id, name and type of every visited node is reported with that node's index. |
| NodeChecks.NodesOutcome | Youtube-shorts-video-generator/scripts/validate-workflow.js:61-115 | validateNodes raises exactly when some node's rule raises. |
| NodeChecks.NodesOutcomeFacts | Youtube-shorts-video-generator/scripts/validate-workflow.js:61-115 | When validateNodes returns, its warnings begin with the recommended-type warnings and every missing field of every node is reported. |
| NodeChecks.ValidateNodes | Youtube-shorts-video-generator/scripts/validate-workflow.js:61-115 | The imperative check returns what NodesOutcome defines. |
| Connections.NoUnresolvedInGroup | Youtube-shorts-video-generator/scripts/validate-workflow.js:207-211 | A group has no unresolved target exactly when every target names a node. |
| Connections.NoUnresolvedInGroups | Youtube-shorts-video-generator/scripts/validate-workflow.js:206-212 | The same, for all groups of a port. |
| Connections.NoUnresolvedInPorts | Youtube-shorts-video-generator/scripts/validate-workflow.js:205-213 | The same, for all ports of a source. |
| Connections.NoUnresolvedTargets | Youtube-shorts-video-generator/scripts/validate-workflow.js:199-214 | The same, for all sources. |
| Connections.NoUnresolvedSources | Youtube-shorts-video-generator/scripts/validate-workflow.js:199-202 | No source key is unresolved exactly when every source key names a node. |
| Connections.TargetErrors | Youtube-shorts-video-generator/scripts/validate-workflow.js:207-211 | One error per unresolved target of a group. |
| Connections.GroupErrors | Youtube-shorts-video-generator/scripts/validate-workflow.js:206-212 | One error per unresolved target over a port's groups. |
| Connections.PortErrors | Youtube-shorts-video-generator/scripts/validate-workflow.js:205-213 | One error per unresolved target over a source's ports. |
| Connections.SourceErrors | Youtube-shorts-video-generator/scripts/validate-workflow.js:199-214 | One error for an unresolved source key, plus one per unresolved target under it. |
| Connections.EntriesErrors | Youtube-shorts-video-generator/scripts/validate-workflow.js:199-214 | The error count is the unresolved source keys plus the unresolved targets. |
| Connections.ConnectionsFindings | Youtube-shorts-video-generator/scripts/validate-workflow.js:186-217 | No warnings. Without connections: exactly one error. Otherwise the errors number the unresolved source keys plus the unresolved targets; they are empty exactly when every source key and every target names a node; and a message is an error exactly when it is the unknown-source message for an unresolved source key or the unknown-target message for an unresolved target. |
| Connections.TargetErrorsMembers | Youtube-shorts-video-generator/scripts/validate-workflow.js:207-211 | A message is an error of a group exactly when it is the unknown-target message for one of its wires whose target names no node. |
| Connections.PortErrorsTargets | Youtube-shorts-video-generator/scripts/validate-workflow.js:205-213 | A message is an error over a source's ports exactly when it names a wire, under some port and group, whose target is unresolved. |
| Connections.EntriesErrorsMembers | Youtube-shorts-video-generator/scripts/validate-workflow.js:199-214 | A message is an error of the whole traversal exactly when it is the error for some unresolved source key or target. |
| Connections.CheckGroup | Youtube-shorts-video-generator/scripts/validate-workflow.js:207-211 | The innermost loop appends exactly TargetErrors. |
| Connections.CheckPort | Youtube-shorts-video-generator/scripts/validate-workflow.js:206-212 | The group loop appends exactly GroupErrors. |
| Connections.CheckPorts | Youtube-shorts-video-generator/scripts/validate-workflow.js:205-213 | The output-type loop appends exactly PortErrors. |
| Connections.CheckSource | Youtube-shorts-video-generator/scripts/validate-workflow.js:199-214 | One source key's callback appends exactly SourceErrors. |
| Connections.ValidateConnections | Youtube-shorts-video-generator/scripts/validate-workflow.js:186-217 | The imperative check returns what ConnectionsFindings specifies. |
| Scenarios.UnknownSourceReported | Youtube-shorts-video-generator/scripts/validate-workflow.js:199-202 | A source key naming no node, with all of its targets resolved, gives exactly that one error. |
| Credentials.CredentialNodes | Youtube-shorts-video-generator/scripts/validate-workflow.js:224 | The filter keeps only nodes with credentials and is no longer than its input. |
| Credentials.CredentialNodesMembers | Youtube-shorts-video-generator/scripts/validate-workflow.js:224 | A node is kept exactly when it is in the list and has credentials. |
| Credentials.CredentialNodesEmpty | Youtube-shorts-video-generator/scripts/validate-workflow.js:224-228 | The filtered list is empty exactly when no node has credentials. |
| Credentials.EntryWarnings | Youtube-shorts-video-generator/scripts/validate-workflow.js:231-236 | One warning per incomplete entry of a node. |
| Credentials.EntryWarningsName | Youtube-shorts-video-generator/scripts/validate-workflow.js:233-234 | A warning is present exactly when it names the node and the key of an incomplete entry. |
| Credentials.IncompleteCountZero | Youtube-shorts-video-generator/scripts/validate-workflow.js:233 | No entry is incomplete exactly when every entry has both an id and a name. |
| Credentials.AllCredentialWarningsCount | Youtube-shorts-video-generator/scripts/validate-workflow.js:230-237 | One warning per incomplete entry over all nodes; none exactly when all entries are complete. |
| Credentials.FilterKeepsWarnings | Youtube-shorts-video-generator/scripts/validate-workflow.js:224-237 | Dropping the nodes without credentials changes no warning. |
| Credentials.CredentialsFindings | Youtube-shorts-video-generator/scripts/validate-workflow.js:219-240 | No errors. Without credential nodes: exactly the API-keys warning. The warning count is that warning, when it applies, plus one per incomplete entry. No warnings exactly when some node has credentials and all entries are complete. Each warning is the API-keys warning when no node has credentials, or the message naming the node and key of an incomplete entry, and every such entry's message is present. |
| Credentials.AllCredentialWarningsMembers | Youtube-shorts-video-generator/scripts/validate-workflow.js:230-237 | A message is a per-entry warning over all nodes exactly when it names the node and key of some incomplete entry. |
| Credentials.CheckNodeCredentials | Youtube-shorts-video-generator/scripts/validate-workflow.js:231-236 | The per-key loop appends exactly the node's warnings. |
| Credentials.CheckAllCredentials | Youtube-shorts-video-generator/scripts/validate-workflow.js:230-237 | The per-node loop appends exactly the concatenated warnings. |
| Credentials.ValidateCredentials | Youtube-shorts-video-generator/scripts/validate-workflow.js:219-240 | The imperative check returns what CredentialsFindings specifies. |
| Report.ExitCode | Youtube-shorts-video-generator/scripts/validate-workflow.js:247-274 | The status is 0 or 1, and 0 exactly when there are no errors, whatever the warnings. |
| Report.RunOf | Youtube-shorts-video-generator/scripts/validate-workflow.js:277-303 | The run crashes exactly when nodes is not an array or a node rule raises; a finished run's status is ExitCode of its lists. |
| Report.RunOutcome | Youtube-shorts-video-generator/scripts/validate-workflow.js:295-301 | When nodes is an array and no node's rule raises, the run finishes; it then fails exactly when the structural, node or connection check reported an error; the structural errors are a prefix of all errors; the recommended-type warnings are a prefix of all warnings. |
| Report.ValidateWorkflow | Youtube-shorts-video-generator/scripts/validate-workflow.js:277-303 | main concatenates the four checks in order and decides as RunOf defines. |
| Scenarios.MissingConnectionsReportedTwice | Youtube-shorts-video-generator/scripts/validate-workflow.js:55-57 | When no node's rule raises, missing connections are reported by both the structural and the connection check, and the run fails. |
| Scenarios.EmptyWorkflowPasses | Youtube-shorts-video-generator/scripts/validate-workflow.js:277-303 | A named document with no nodes and empty connections has no errors, the four recommended-type warnings then the API-keys warning, and status 0. |

## Left out

- `loadWorkflow` (file existence, reading, `JSON.parse`, exiting on failure) is not modelled. The already-parsed document is a parameter of `Report.ValidateWorkflow`.
- Console output is not modelled: `log`, `colors`, the banner lines and the numbered listing of findings in `generateReport` and `main`. Only the returned exit status is kept.
- `process.exit` and the `require.main` entry point are process plumbing. A `TypeError` escaping `main` is `Report.Run.Crashed`. Node then exits with status 1 through its uncaught-exception handler, and the model does not carry that status.
- The unused `nodeIds` in validateConnections has no effect on the result.
- Values of the wrong JSON type are outside the datatypes, except a `nodes` value that is not an array, which is modelled. Examples are a non-string `url`, a `null` array element and a non-array port list. Some of them would raise (`url.includes` on a number, `forEach` on a port list that is not an array), and the model cannot express them. Some would not: an array `url` does not raise at :164, because arrays have `includes` too, and a non-string `fieldLabel` is only copied and compared at :126-135, so it raises nowhere and gets the missing-label error like any string label outside the required list (the model expresses that case with such a string label).
- `None` stands for a missing or `null` object field. On every object field the script reads (:49, :54, :118, :120, :136, :151, :190, :224) the two behave alike, since both are falsy. A present object or array is truthy. A string field can also be falsy as `Some("")`.
- A JSON `null` string field is not told apart from a missing one; both are `None`. The script tells them apart in only two places. A template literal renders `null` as `null`, where `Document.Show(None)` gives `undefined`. The target check at :208 asks whether the node-name list includes the target, and there a `null` name does not match a missing `node` field, while `None` matches `None`.
- Object key order: `connections` and each node's `credentials` are sequences in `Object.keys` order. The model does not reproduce JavaScript's rule that integer-like keys come first.
- The node rules, the node loop, the connection check and the credential check (modules `Rules`, `NodeChecks`, `Connections` and `Credentials`) are modelled on values: the push onto a shared array becomes a returned, extended sequence. Aliasing between the arrays is not modelled; the script has none.
- `main` applies its four checks in a loop over an array of functions. The model makes the four calls in sequence, in the same order.

## Findings

| source | as written | input that shows it | evidently intended | confidence | as-written member | corrected member |
|---|---|---|---|---|---|---|
| Youtube-shorts-video-generator/scripts/validate-workflow.js:164 | `params.url && params.url.includes('localhost') \|\| params.url.includes('192.168.')` evaluates `params.url.includes` when `url` is absent, so it raises a TypeError after the missing-URL error. | An HTTP request node whose parameters have no `url`. | Guard both substring tests by the presence of `url`: report only the missing URL and continue with the other nodes. | not executed | Rules.HttpRule, Rules.HttpRuleThrowsWithoutUrl | Rules.HttpRuleGuarded |

The model of the whole run keeps the as-written rule (`NodeChecks.DispatchRule` uses `Rules.HttpRule`), because it follows the code. `Rules.HttpRuleAgreesWithGuarded` shows that whenever `url` is present, the two rules agree.
