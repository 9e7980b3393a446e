# restnest, modelled in Dafny

restnest describes a REST API as a tree of resource definitions:

- **`def`** checks a nested definition and builds the tree. It builds the record with the upper-cased method, then checks the method as given, fills in schema defaults, and adds one required path parameter for every `:name` placeholder in the path.
- **`add`** attaches a child under a new id.
- **`merge`** folds a root-to-leaf chain of nodes into one node:
  - paths and schemas are concatenated;
  - method, headers and params are layered, with later nodes winning;
  - only the last node's children are kept.
- **`with`** follows a dotted path through the children, merges the chain it visited, and binds the caller's params over the merged ones.
- **`call`** works through the schema of a resolved node in order:
  - it rejects a required parameter that is missing;
  - it substitutes the first `:key` of the path with the caller's value and consumes that key;
  - it hands the resulting request descriptor to an adapter.
- **`info`** lists every node of a tree, each merged under its ancestors.

The project is made of these modules:

| module | file | contents |
|---|---|---|
| `Types` | `types.dfy` | definitions (`Spec`, `RawParam`), nodes (`Node`, `ParamSpec`), request descriptors, errors and `Result` |
| `Text` | `text.dfy` | the string operations the core relies on (see the list below) |
| `Definition` | `define.dfy` | `def` and `add`, written as methods and proved equal to the functions `Build` and `Attach` |
| `Merging` | `merge.dfy` | `merge` |
| `Resolution` | `resolve.dfy` | `with`, written as a recursive method and proved equal to `Resolve` |
| `Invocation` | `invoke.dfy` | `call`, a loop over the schema proved equal to `Invoke` |
| `Listing` | `info.dfy` | `info`, a recursive method proved against the multiset of entries `Entries` |
| `Scenarios` | `scenarios.dfy` | the behaviours described by `tests/restnest-test.js` |
| `GitHub` | `github.dfy` | the catalogue of `src/api/github.js`, with one request resolved and prepared end to end |

The string operations in `Text` are:

- the placeholder scan `/:[a-zA-Z0-9]+/g`;
- `split('.')` and `join('.')`;
- `String.prototype.replace` with a string pattern, which replaces only the first occurrence;
- ASCII `toUpperCase`.

## Model

| member | source | states |
|---|---|---|
| Definition.Def | src/restnest.js:13-50 | the node built, or the first error thrown, is the one `Build` gives: method check, then schema normalisation, then path placeholders, then children in order |
| Definition.Add | src/restnest.js:76-83 | an id already in use gives `DuplicateResource`. Otherwise it succeeds exactly when the child definition builds; the children gain exactly `id`, holding the built child; every other child and every other field stays as it was |
| Definition.BuildOkIff | src/restnest.js:13-50 | `def` succeeds exactly on valid definitions. Valid means: the method is one of the five verbs, every explicit schema entry passes its checks, the child ids are distinct, and every child definition is valid (recursively) |
| Definition.BuildVerb | src/restnest.js:15-24 | a method outside HEAD/GET/PUT/POST/DELETE (lower case included) fails with that method named; on success the node's method is the one given |
| Definition.VerbsAreUpper | src/restnest.js:3 | upper-casing leaves each of the five verbs unchanged |
| Definition.Normalize | src/restnest.js:26-34 | an entry passes exactly when it has a non-empty key and an omitted, empty or known location; the key is kept |
| Definition.NormalizeErrors | src/restnest.js:27-32 | the missing-key error is checked before the location error |
| Definition.NormalizeDefaults | src/restnest.js:33 | location defaults to `query` and `required` defaults to false, each only where the entry omits it |
| Definition.NormalizeSchemaSpec | src/restnest.js:26-34 | the normalised schema succeeds exactly when every entry does, keeping one entry per entry in order; on failure its error is that of the first failing entry |
| Definition.BuildSchema | src/restnest.js:26-43 | the built schema is the normalised explicit entries followed by the path entries; once the method passes, a bad explicit entry is the error |
| Definition.PathSchemaEntries | src/restnest.js:36-42 | a non-empty path adds one required `path` entry for each colon followed by an alphanumeric run, in path order (duplicates kept) |
| Definition.BuildFields | src/restnest.js:14-20 | path, headers and params are those of the definition; the children are exactly the built child definitions, one per id |
| Definition.BuildChildrenOk | src/restnest.js:45-47 | attaching the children succeeds exactly when their ids are distinct, none is already used, and every child builds |
| Definition.BuildChildrenShape | src/restnest.js:45-47 | attaching the children changes only the children: each id holds its built child, and nothing that was there before is lost |
| Text.Scan | src/restnest.js:37 | defines the global match of `/:[a-zA-Z0-9]+/g`: from left to right, each colon followed by an alphanumeric run gives the run's text, and scanning resumes after the run |
| Text.ScanIsTokens | src/restnest.js:37 | the left-to-right scan for placeholders gives exactly the tokens that start at a colon followed by an alphanumeric |
| Text.ScanNames | src/restnest.js:37-40 | every placeholder name is a non-empty alphanumeric run |
| Text.RunEnd | src/restnest.js:37 | a run of alphanumerics ends at the end of the text or at the first non-alphanumeric |
| Text.SplitJoin | src/restnest.js:114 | splitting joined dot-free segments gives the segments back |
| Text.JoinSplit | src/restnest.js:144 | joining the pieces of a split gives the string back, so the recursion's rejoined tail is the rest of the path |
| Text.SplitNoDots | src/restnest.js:114 | no piece of a split contains a dot |
| Text.Split | src/restnest.js:114-117 | a split has at least one piece, so the `Invalid path given` check cannot fire |
| Text.JoinRestShorter | src/restnest.js:144 | the rejoined tail is shorter than the path, so `with` terminates |
| Text.Find | src/restnest.js:162 | the index found is the first occurrence of the pattern at or after the start; none is found only when there is no occurrence |
| Text.ReplaceFirst | src/restnest.js:162 | defines `replace` with a string pattern: the first occurrence of the pattern, if any, is replaced by the replacement text, inserted literally |
| Text.ReplaceFirstSpec | src/restnest.js:162 | with a string pattern, `replace` substitutes the first occurrence only |
| Text.ReplaceFirstAbsent | src/restnest.js:162 | a path without the pattern is unchanged |
| Text.UpperHasNoLower | src/restnest.js:15 | upper-casing keeps the length and leaves no lower-case letter |
| Text.UpperOfUpper | src/restnest.js:15 | upper-casing text without lower-case letters changes nothing |
| Merging.Merge | src/restnest.js:90-104 | defines `merge` of a non-empty chain: the last node's method and children, the paths concatenated (an absent path counting as empty), headers and params layered left to right, the schemas concatenated |
| Merging.MergeOne | src/restnest.js:90-104 | merging a single node gives that node, with an absent path turned into "" |
| Merging.MergeTwo | src/restnest.js:90-104 | merging two nodes, field by field: the child's method, joined paths, layered headers and params, concatenated schemas, the child's children |
| Merging.LayerKeys | src/restnest.js:92 | a key is in the merged headers or params exactly when some node of the chain has it |
| Merging.LayerLastWins | src/restnest.js:92 | the merged value of a key is that of the last node that has the key |
| Merging.ConcatAppend | src/restnest.js:98-101 | concatenating paths or schemas distributes over splitting the chain |
| Merging.LayerAppend | src/restnest.js:92 | layering distributes over splitting the chain |
| Merging.MergeOfMerges | src/restnest.js:90-104 | merging the merges of two chains is merging their concatenation |
| Merging.MergeFlatten | src/restnest.js:90-104 | a merged prefix can stand in for the nodes it came from |
| Merging.MergeSnoc | src/restnest.js:90-104 | merging a chain one node longer is merging its merge with that node: that node's method and children, its path fragment and schema appended, its headers and params layered on top |
| Resolution.With | src/restnest.js:113-145 | the recursive walk that re-splits and rejoins the tail, pushing onto the stack, returns what `Resolve` gives: the merge of the stack (or the root) and the visited children, with the caller's params bound; an unknown segment gives that segment's error |
| Resolution.WalkIsChain | src/restnest.js:123-144 | the walk succeeds with a chain exactly when each element of that chain is the named child of the element before it, the first being a child of the root |
| Resolution.WalkStops | src/restnest.js:125-127 | the walk fails at the first segment that names no child of the node reached, and reports that segment |
| Resolution.WalkFailsAtMissing | src/restnest.js:125-127 | conversely, every failed walk names a first missing segment after a valid chain prefix |
| Resolution.ResolveMerges | src/restnest.js:136-140 | a resolved path is the merge of the root and its chain, with the caller's params bound |
| Resolution.ResolveUnknown | src/restnest.js:125-127 | resolution fails naming the first segment that is not a child, the empty segment included |
| Resolution.ResolveEmpty | src/restnest.js:114-127 | on a root without a child named "", resolving "" fails with an unknown resource "" |
| Resolution.BindParams | src/restnest.js:138 | binding: a caller's value wins, every other merged key keeps its value, and no other field changes |
| Invocation.Call | src/restnest.js:147-179 | the loop over the schema hands the adapter exactly the descriptor `Invoke` gives, or returns its error |
| Invocation.RunAppend | src/restnest.js:155-174 | working through a schema in two parts is working through the first, then the second |
| Invocation.RunParams | src/restnest.js:155-174 | a successful run keeps the method and headers, and removes exactly the keys of the path entries from the params |
| Invocation.InvokeParams | src/restnest.js:150-174 | the descriptor has the node's method and headers; its params are the node's params under the caller's, less every key a path entry consumed |
| Invocation.MissingRequired | src/restnest.js:156-157 | a required key absent from the params left by the earlier entries makes the call fail with that key |
| Invocation.RequiredPresent | src/restnest.js:156-157 | in a successful call, every required entry found its key among the params left by the earlier entries |
| Invocation.AbsentRequiredFails | src/restnest.js:156-157 | a required key that neither the node nor the caller supplies always makes the call fail |
| Invocation.InvokeRequired | src/restnest.js:150-157 | the same, stated for a node and a caller |
| Invocation.PathStep | src/restnest.js:161-166 | a path entry replaces the first `:key` with the caller's value and consumes the key |
| Invocation.OtherStep | src/restnest.js:168-172 | query and body entries change nothing once the required check passes |
| Invocation.PathlessFails | src/restnest.js:162 | a path entry reached on a node without a path fails, naming the key (the `TypeError` of `undefined.replace`) |
| Invocation.RunPathless | src/restnest.js:162 | working through a schema never gives a path to a request that had none |
| Invocation.SubstitutesCallerValue | src/restnest.js:156-162 | a key bound only on the node passes the required check, but `undefined` is substituted for it |
| Invocation.RepeatedPlaceholderFails | src/restnest.js:156-165 | in any schema, a path entry followed later by a required entry with the same key (as a repeated placeholder gives) makes the call fail; once the entries before the later one went through, the error is `MissingParameter` of that key |
| Invocation.BoundValueLost | src/restnest.js:156-162 | the path `/:username` with `username` bound on the node and not by the caller prepares `/undefined` |
| Invocation.StepBoundUsesChecked | src/restnest.js:156-162 | corrected step: a required path entry substitutes the value the required check found |
| Invocation.BoundValueKept | src/restnest.js:156-162 | corrected call: the same node prepares `/` followed by the bound value |
| Invocation.RunAgree | src/restnest.js:155-174 | the call as written and the corrected call agree whenever every path entry of the schema is required and the caller supplies its key, and the request's params hold the caller's value for every key they share with the caller |
| Invocation.InvokeAgree | src/restnest.js:147-174 | from a node: the as-written and corrected calls agree whenever every path entry of the node's schema is required and the caller supplies its key |
| Listing.Info | src/restnest.js:56-67 | the stack as given is kept; the node's own entry comes next; the entries pushed are, counted with multiplicity, one per node of the tree, each merged under its ancestors |
| Listing.Label | src/restnest.js:57 | the path prints as `N/A` exactly when it is absent or empty, or is itself "N/A" |
| Listing.EntriesCoverChains | src/restnest.js:62-64 | every node reachable by a chain of children contributes the entry of that chain merged from the root |
| Listing.EntriesAreChains | src/restnest.js:56-67 | every entry listed is that of some chain from the root, so nothing else is listed |
| Listing.ChildEntriesIncluded | src/restnest.js:62-64 | the entries of a child merged under its parent are among the parent's |
| Listing.HeightChild | src/restnest.js:62-64 | a child merged under its parent is lower than the parent, so `info` terminates |
| Listing.ChainBelowPair | src/restnest.js:95 | only the last node's children survive a merge, so the chains below a child and below its merge with the parent are the same |
| Listing.MergeBelowPair | src/restnest.js:63 | merging a chain below a child merged under its parent is merging the chain from the parent |
| Scenarios.DefFillsDefaults | tests/restnest-test.js:18-21 | `def({})` is the default node: GET, no path, empty headers, params, schema and children |
| Scenarios.DefRejectsMethods | tests/restnest-test.js:23-27 | `INVALID` is rejected, and so is `get` |
| Scenarios.DefPathParameter | tests/restnest-test.js:29-41 | `/:username` gives the schema `[username, path, required]` |
| Scenarios.DefChildren | tests/restnest-test.js:43-56 | two empty child definitions give two default children |
| Scenarios.DefRejectsSchemas | tests/restnest-test.js:58-68 | an entry without a key, and one with location `invalid`, are each rejected with their error |
| Scenarios.AddChild | tests/restnest-test.js:72-86 | `add` installs a default child, and adding the same id again fails |
| Scenarios.MergeChain | tests/restnest-test.js:89-129 | the path is `/api/users/:username`, the two schemas are concatenated, and the last node's child `repos` is kept |
| Scenarios.WithIsATest | tests/restnest-test.js:145-166 | `is.a.test` gives `/this/is/a/test` with the inherited `test_param`, overridden by a caller's value |
| Scenarios.WithFails | tests/restnest-test.js:168-178 | `""` and `is.a.crap` fail naming `""` and `crap` |
| Scenarios.CallRequiresUsername | tests/restnest-test.js:181-186 | calling `/:username` without params fails on `username` |
| GitHub.BaseHasNoPlaceholders | src/api/github.js:3-12 | the scheme's colon in `https://api.github.com` is not a placeholder, so the root's schema is only the two paging entries |
| GitHub.ResolveRepoEvents | src/api/github.js:3-31 | `repos.owner.repo.events` resolves to the base URL plus `/repos/:owner/:repo/events`, with the Accept header and the paging, owner and repo entries |
| GitHub.CallRepoEvents | src/api/github.js:3-31 | calling it with an owner and a repository fills both placeholders and consumes both params |
| GitHub.CallRepoEventsBound | src/api/github.js:3-31 | the corrected call prepares the same request |

Three behaviours of the source a reader might not expect; the model follows the source:

- **Empty path.** There is no separate error for an empty dotted path. `split('.')` always returns at least one piece, so the check at src/restnest.js:115 can never fire. On a root without a child named `""`, resolving `""` fails as an unknown resource `""`, which is also what the repository's tests expect. A root whose `resources` does have the key `""` resolves it to that child like any other segment.
- **Lower-case methods.** The record is built with the upper-cased method (src/restnest.js:15), but the check at src/restnest.js:22 looks at the method as given. So `get` is rejected although its upper case is a verb.
- **Duplicate schema keys.** Keys need not be unique within a schema: nothing in `def` checks them.

## Left out

- Objects, prototypes and truthiness:
  - Definitions and nodes are records with string-valued headers and params.
  - JavaScript's other value types are not modelled, nor are inherited prototype keys seen by `root.resources[id]`.
- Deep copying and aliasing:
  - lodash's `_.merge` is recursive over nested values. For string values it is the plain override the model uses.
  - `_.cloneDeep` of the children is not modelled.
  - `_.omit` is shallow, so `_.merge(resource.params, params)` in `call` writes into the resolved node's own `params`. The model works on values, so this aliasing is not captured.
- Resolution.With: the source pushes each visited child onto its `stack` argument in place (src/restnest.js:120,131), so a stack the caller passes in is left longer afterwards, also when line 126 throws partway down the walk. The model takes the stack as a value and returns only the resolved node or the error, so this effect on the caller's stack is not captured.
- Definition.Add: the source mutates `root` in place and returns it. The model returns the updated node as a new value, so aliasing of a root held elsewhere is not captured.
- Upper-casing is ASCII only. After the verb check the method is always one of five ASCII verbs, so Unicode case mapping never matters.
- Error messages:
  - `_throw` messages are modelled as the `Error` constructors, carrying the offending method, entry, location, id or key.
  - The text of `JSON.stringify` in the missing-key message is not modelled.
- `console.log(resource)` in `call` is left out because it is output only.
- `resource.query_params = {}` is always empty in the source, so it is not part of the descriptor.
- `String.prototype.replace` special patterns (`$&` and similar) in a substituted value are not modelled. The value is inserted literally.
- The adapter (`src/adapter/superagent.js`) and its HTTP I/O are left out. `Call` takes the adapter as a function parameter and returns its result.
- Merging.Merge: `merge([])` throws in the source (`_.last([])` is undefined). The model requires a non-empty chain, since every caller passes one.
- Listing.Info:
  - The order in which `_.forOwn` enumerates children is not modelled. The contract states the entries as a multiset, with the node's own entry first.
  - The entry text is abstracted to the fields it prints.
- The GitHub catalogue is written out as the nodes its `def`/`add` calls build, not obtained by running `Build` on it. Only the `repos.owner.repo.events` request is resolved end to end.
- The trees the merge and `with` scenarios use (`Scenarios.At`, `Scenarios.ThisIsATest`, from tests/restnest-test.js:91-95 and :134-143) are likewise written out as the nodes `def` builds, not obtained from `Build` of those definitions; only the `def` and `add` scenarios go through `Build`.
- A definition's children are an ordered list of `(id, definition)` pairs, in the order `_.forOwn` visits them. This fixes which error `def` reports first when several children are bad. A list can name an id twice, which a JavaScript object literal cannot; for such a list the model reports `DuplicateResource`, an error `def` never throws from a literal. So the "child ids are distinct" part of `Valid` (in `Definition.BuildOkIff`) is a condition every real definition already meets.

## Findings

| source | as written | input that shows it | evidently intended | confidence | as-written member | corrected member |
|---|---|---|---|---|---|---|
| src/restnest.js:162 | The required check (line 156) looks at the node's params merged with the caller's, but the value substituted for `:key` is read from the caller's `params` only | A node with path `/:username` and params `{username: v}`, as `with` produces when `v` is bound there, called with `{}`: the check passes and the path becomes `/undefined` | Substitute the merged value that passed the check, giving `/v` | not executed | Invocation.BoundValueLost | Invocation.BoundValueKept |

The corrected call is `InvokeBound`. `StepBoundUsesChecked` shows that it substitutes the value the check found. `InvokeAgree` shows that both versions agree whenever every path entry of the schema is required and the caller supplies its key. Every entry `def` derives from a placeholder is required; an explicit path entry that is not required lies outside the lemma, and there the two versions can differ even when the caller passes the key. The as-written `Invoke` stays the model of `call`, since that is what the code does.
