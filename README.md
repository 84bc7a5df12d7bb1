# args-parser command specs, modelled in Dafny

args-parser (JonDotsoy/args-parser) is a TypeScript library. An author
declares a tree of commands: each command has a name, a description, options,
positional arguments, subcommands and an optional handler. The library does
four things with that tree:

- It resolves a command-line vector against the tree (`parseArgs`). The
  result is a chain of parsed nodes, one for each subcommand word crossed.
  Each node carries its command path, its options and its positionals.
- It renders the help text of the selected command
  (`buildSelectHelpDialog`, `buildHelpDialog`).
- It builds a validation schema for the selected node and checks the
  positional count (`createSchemaValidation`, `validate`).
- It calls the handler of the selected command (`bindArgs`).

The top-level `command-spec.ts` is an earlier prototype of the same resolver
and renderer, and it is modelled beside the current one.

The model is split into these modules:

- `Wrappers`: `Option` and `Result`.
- `JsString`: the JavaScript string and array built-ins the core uses:
  `find` (with the index search under it), `map`, `join`, `startsWith`,
  `substring`, `padStart` and `padEnd`.
- `Schemas`: the data shapes of `src/schemas/command-spec.ts` and the
  alias rule of the option schema.
- `Resolver`: `parseArgs` of `src/command-spec.ts`. `ParseArgs` is an
  imperative loop over the vector and `StoreOption` is the per-option store
  loop. Both are proved equal to the recursive definitions `Resolve` and
  `Store`.
- `ArgvScan`: an independent tokenization of the vector. It is used to
  state what a whole resolution does.
- `ResolverProps`: the properties of the resolver.
- `Validator`: `createSchemaValidation` (an imperative walk up the parent
  chain), `validate` and `MissingArgumentError`.
- `Dispatcher`: `bindArgs`.
- `Help`: the help renderer, as pure functions over lines.
- `Prototype` and `PrototypeProps`: the prototype resolver and renderer,
  and how they relate to the current ones.
- `ResolverExamples`, `HelpExamples`, `BindingExamples` and
  `PrototypeExamples`: the scenarios of `command-spec.test.ts`, proved on the
  model.

`parseArgs` in both files looks option tokens up in the top-level spec's
`options` (src/command-spec.ts:150-153, command-spec.ts:118-120), not in the
current command's. `ResolverProps.OptionTokenNeverTransitions` states the
consequence: an option declared only on a subcommand is never recognised, and
an option of the top-level command is recognised at any depth.

## Model

| member | source | states |
|---|---|---|
| JsString.Map | src/command-spec.ts:27-29 | `Array.prototype.map`: one result per element, in order; it gives the argument names that the "Missing" message joins and the labels and descriptions of the help blocks |
| Schemas.ValidAliasForms | src/schemas/command-spec.ts:60-63 | every alias the option schema accepts starts with `-`, so it is always read as an option token; the long form is exactly the one that starts with `--`, and the short form is exactly the one of length 2 |
| Schemas.RejectedAliases | src/schemas/command-spec.ts:60-63 | the alias pattern rejects `-ab`, a bare `--`, a bare `-` and a word, and accepts `--abc`, `-a` and `--dry-run` |
| Schemas.ValidOptionNeedsAlias | src/schemas/command-spec.ts:60-63 | an option spec with an empty alias list never passes the schema |
| JsString.FindIndex | src/command-spec.ts:150-153 | the search under `find`: the index found is the first one at or after `from` that satisfies the predicate; when there is none, no element from `from` on satisfies it |
| JsString.Find | src/command-spec.ts:150-153 | `Array.prototype.find`: none exactly when no element satisfies the predicate; otherwise the first element that does |
| JsString.Substring | src/command-spec.ts:157 | the string is the prefix of length `start` followed by the result; a start at or past the end gives "" |
| JsString.PadStart | src/command-spec.ts:51-53 | the result has the larger of the two lengths, ends with the input and has only spaces in front of it |
| JsString.PadEnd | src/command-spec.ts:100-120 | the result has the larger of the two lengths, starts with the input and has only spaces after it |
| Resolver.FindOption | src/command-spec.ts:150-153 | it finds the first option of the list that has the token among its aliases, and it finds none exactly when no option of the list names the token |
| Resolver.FindSubcommand | src/command-spec.ts:178-183 | it finds the first subcommand of the list whose name is the token, and it finds none exactly when no subcommand has that name |
| Resolver.StoreOption | src/command-spec.ts:156-162 | the loop over the option's aliases leaves exactly the map `Store` defines: each alias stripped of `--` or `-` is a key; a `multiple` option appends to the array under that key, and any other option overwrites it |
| Resolver.ParseArgs | src/command-spec.ts:134-198 | the imperative loop over the vector returns exactly `Resolve`: the last node reached, "Not implemented yet" for an unknown option token, or `CommandNotFoundError` with the current path and the token |
| ResolverProps.HitCountPositive | src/command-spec.ts:156-162 | a key is written by the alias loop exactly when one of the aliases strips to it |
| ResolverProps.StoreUnderKeys | src/command-spec.ts:156-162 | storing adds exactly the stripped aliases to the map's keys, and removes none |
| ResolverProps.StoreUnderValues | src/command-spec.ts:156-162 | a key that no alias strips to keeps its value; a key that an alias strips to holds the single value (non-`multiple`), or the prior array followed by the value once for each alias that hits it (`multiple`) |
| ResolverProps.StorePreservesKeys | src/command-spec.ts:156-162 | storing an option never removes a key |
| ResolverProps.PathLengthIsDepth | src/schemas/command-spec.ts:86-102 | on a well-formed chain, the command path has one entry more than the node has ancestors |
| ResolverProps.PathStartsWithRoot | src/command-spec.ts:138-143 | on a well-formed chain, the command path starts with the top-level command's name |
| ResolverProps.ResolveKeepsChainWellFormed | src/command-spec.ts:164-173 | resolving from a well-formed node ends on a well-formed node: each node's path is its parent's path plus its own name, and its spec is a subcommand of the parent's spec |
| ResolverProps.ResolveBuildsWellFormedChain | src/command-spec.ts:134-198 | every node that `parseArgs` returns heads a well-formed chain that reaches down from the top-level node |
| ResolverProps.ResolveKeepsAncestors | src/command-spec.ts:164-173 | a node that is an ancestor of the current node is still an ancestor of the node the resolution ends on |
| ResolverProps.LeftNodeIsFrozen | src/command-spec.ts:164-173 | once a subcommand word is crossed, the node it left appears unchanged among the ancestors of the result: later options and positionals never reach it |
| ResolverProps.ResolveAppliesEveryOption | src/command-spec.ts:149-163 | on success, every option token of the vector is a top-level option, and the final node's options are the node's starting options with every option token applied in order |
| ResolverProps.ResolveConsumesEveryWord | src/command-spec.ts:164-176 | on success, every non-option word of the vector appears once and in order in the trace of the result: either as a subcommand name in the path or as a positional of the node it was read at |
| ResolverProps.OptionTokenNeverTransitions | src/command-spec.ts:149-163 | a token starting with `-`, wherever it stands in the vector, fails with "Not implemented yet" when no top-level option names it; otherwise the first top-level option naming it is stored into the current node (same parent, spec, path and positionals), and the pass goes on after its value, which is the next token taken unconditionally |
| ResolverProps.SubcommandBeatsPositional | src/command-spec.ts:164-192 | a word that names a subcommand of the current node, wherever it stands, moves to the first such child however many positional slots are free, and the pass goes on from the child |
| ResolverProps.UnmatchedWordFails | src/command-spec.ts:190-198 | a word that is no subcommand, read when every positional slot is filled, fails at once, whatever follows it, with `CommandNotFoundError` at the current path and the message "<path> <arg>: Is not valid command. See <path> --help" |
| ResolverProps.WordFillsFreeSlot | src/command-spec.ts:174-196 | a word that is no subcommand, read while a slot is free, is appended to the node's positionals, nothing else changes, and the pass goes on with the words after it |
| Validator.CreateSchemaValidation | src/command-spec.ts:233-265 | the walk up the parent chain gives one string slot per declared argument of the node, and the option fields keyed by option `name` that the node and its ancestors declare, written in that order |
| Validator.Validate | src/command-spec.ts:201-215 | `validate` settles with exactly `ValidationOf` of the node |
| Validator.ValidationOutcome | src/command-spec.ts:18-32 | validation succeeds exactly when the positional count equals the declared count, and then returns the positionals; too few gives "Missing <names joined by ', '> argument", too many gives "unknow error" |
| Validator.WriteFieldsKeys | src/command-spec.ts:255-258 | the option object's keys are the names written into it, added to whatever it held before |
| Validator.WriteFieldsLastWins | src/command-spec.ts:255-258 | when a name is written more than once, the last write decides its field |
| Validator.WriteFieldsUntouched | src/command-spec.ts:255-258 | a key that none of the options names keeps its field |
| Validator.WriteFieldsForgetsEarlier | src/command-spec.ts:255-258 | a key that the options write does not depend on what the object held before |
| Validator.WriteFieldsAppend | src/command-spec.ts:249-259 | writing two lists of options one after the other is the same as writing their concatenation |
| Validator.OptionSchemaShape | src/command-spec.ts:249-259 | the option schema's keys are the option names of the node and all its ancestors; a name that an ancestor declares takes the ancestor's field, because the ancestor is written later |
| Validator.OptionSchemaFieldKinds | src/command-spec.ts:256-257 | a name's field is a string schema when its option takes a value and `literal(true)` for a flag |
| Validator.LastIndexExists | src/command-spec.ts:255-258 | the last option of a list that carries a given name exists, and no later option carries that name |
| Dispatcher.BindArgs | src/command-spec.ts:221-231 | `bindArgs` rejects exactly when resolution fails, with the same error; otherwise it calls the selected spec's handler, when there is one, with the node's positionals, its options and the node, whatever the validation it started says |
| Dispatcher.ResolvedValidation | src/command-spec.ts:201-215 | on a node the resolver produced, validation fails only for too few positionals, and then always with the "Missing" message |
| Help.UsageLabels | src/command-spec.ts:51-53 | the first usage line is labelled "Usage:" and the later ones "   or:" |
| Help.MaxLengthBounds | src/command-spec.ts:76-93 | the padding length is at least the length of every label, and it is the length of one of them unless it is 0 |
| Help.PadLenCoversLabels | src/command-spec.ts:76-93 | the padding is at least as long as every argument name, every subcommand name and every option's aliases joined by spaces; it is 0 when the command has none of the three |
| Help.BlockShape | src/command-spec.ts:97-123 | a block is empty exactly when no entry has a truthy description; otherwise it is the title, one line per entry and a blank line |
| Help.EntryLineShape | src/command-spec.ts:97-123 | an entry line is two spaces, the label padded to the padding length, four spaces and the description, so every description starts at column pad + 6 |
| Help.BlockColumns | src/command-spec.ts:97-123 | in a shown block, every entry line has the entry's label and description in fixed columns |
| Help.ArgumentsBlockShown | src/command-spec.ts:97-103 | the "Arguments" block is shown exactly when some argument has a truthy description |
| Help.ArgumentsBlockAligned | src/command-spec.ts:97-103 | a shown "Arguments" block has one aligned line per argument, and the descriptions in one column |
| Help.CommandsBlockShown | src/command-spec.ts:105-113 | the "Commands" block is shown exactly when some subcommand has a truthy description |
| Help.CommandsBlockAligned | src/command-spec.ts:105-113 | a shown "Commands" block has one aligned line per subcommand, and the descriptions in one column |
| Help.OptionsBlockShown | src/command-spec.ts:115-123 | the "Options" block is shown exactly when some option has a truthy description |
| Help.OptionsBlockAligned | src/command-spec.ts:115-123 | a shown "Options" block has one aligned line per option, labelled with its aliases joined by spaces |
| Help.NoSpecDialog | src/command-spec.ts:39-44 | without a spec, the dialog is the one "Is not valid command" line that points to `<first path element> --help` |
| Help.UsageShape | src/command-spec.ts:51-74 | there is one usage line when the command has neither arguments nor subcommands, and otherwise one for the arguments and one for "<command>"; each line starts with its label, the path and " [options]" exactly when options exist |
| Help.DialogSections | src/command-spec.ts:46-123 | the dialog is the description and a blank line (only for a truthy description), then the usage lines, a blank line and the blocks, in that order |
| Help.FirstUsageLine | src/command-spec.ts:46-73 | the first line after the description starts with "Usage: " and the first path element |
| Help.HelpOfResolvedNode | src/command-spec.ts:126-132 | `buildHelpDialog` fails exactly when `parseArgs` fails, with the same error; otherwise its first usage line starts with "Usage: " and the top-level command's name |
| Prototype.ProtoStoreOption | command-spec.ts:122-128 | the prototype's alias loop leaves exactly `ProtoStore`, which stops at the first write that throws |
| Prototype.ProtoStoreFailurePersists | command-spec.ts:122-128 | once a write of the alias loop throws, the writes after it never run |
| Prototype.ProtoParseArgs | command-spec.ts:105-164 | the prototype loop returns exactly `ProtoResolve`, with subcommands and slots looked up on the top-level spec |
| Prototype.CharValues | command-spec.ts:125 | spreading a stored string gives its characters, one value each, in order |
| Prototype.BuildCommandSpec | command-spec.ts:166-168 | every call rejects with "No implemented yet" |
| PrototypeProps.ProtoResolveKeepsChain | command-spec.ts:129-138 | in the prototype, each node's path is its parent's path plus its own name, and every node below the top is a top-level subcommand |
| PrototypeProps.ProtoResolveBuildsChain | command-spec.ts:105-164 | every node that the prototype returns heads such a chain |
| PrototypeProps.ProtoSubcommandFromAnyNode | command-spec.ts:129-152 | a top-level subcommand name, wherever it stands, moves to a child at any depth; the child starts with no options and no positionals, and the pass goes on from it |
| PrototypeProps.ProtoOptionToken | command-spec.ts:117-128 | in the prototype, a token starting with `-` fails with "Not implemented yet" when no top-level option names it; otherwise the first such option is stored into the current node (or its store error is raised) and the pass goes on after its value |
| PrototypeProps.ProtoUnmatchedWordFails | command-spec.ts:143-159 | in the prototype, a word that is no top-level subcommand, read when the node holds as many positionals as the top-level spec declares, fails at once with the current path in the message |
| PrototypeProps.ProtoWordFillsFreeSlot | command-spec.ts:139-156 | in the prototype, a word that is no top-level subcommand fills a slot while the node holds fewer positionals than the top-level spec declares, whatever its own spec declares |
| PrototypeProps.ProtoConsumesEveryWord | command-spec.ts:140-159 | on success, every non-option word appears once and in order in the trace of the result |
| PrototypeProps.NoTransitionKeepsAll | command-spec.ts:129-138 | when no subcommand word is crossed, all option uses are still pending |
| PrototypeProps.ProtoTailOptions | command-spec.ts:117-138 | the final node's options are the option uses after the last subcommand word, applied to an empty map (or to the starting options when no subcommand word was crossed) |
| PrototypeProps.SpreadCases | command-spec.ts:124-126 | for a `multiple` option, the spread agrees with the current resolver on an absent key or an array, splits a stored string into characters, and throws on a stored `true` |
| PrototypeProps.SingleStoreAgrees | command-spec.ts:122-128 | for an option that is not `multiple`, both resolvers store the same map |
| PrototypeProps.AgreementWithoutSubcommands | command-spec.ts:105-164 | for a command without subcommands and without `multiple` options, the prototype gives the same node, or the same error under its own name, as the current resolver |
| PrototypeProps.ProtoPathStartsWithRoot | command-spec.ts:105-111 | in the prototype chain, every command path starts with the top-level command's name |
| PrototypeProps.ProtoHelpOfResolvedNode | command-spec.ts:100-103 | the prototype `buildHelpDialog` fails exactly when its `parseArgs` fails, with the same error; otherwise its first usage line starts with "Usage: " and the top-level command's name |
| ResolverExamples.SubcommandPath | command-spec.test.ts:334-358 | resolving `ls` gives the path cli ls, and a parent with the path cli |
| ResolverExamples.FlagBeforeSubcommand | command-spec.test.ts:360-386 | `--abc ls` sets a and abc to true on the parent, and the child starts with a copy of them |
| ResolverExamples.MultipleAccumulates | command-spec.test.ts:418-452 | a repeated `multiple` option collects both values under both stripped aliases |
| ResolverExamples.PositionalAfterOptions | command-spec.test.ts:454-492 | a word after the option values fills the first positional slot |
| ResolverExamples.NotFoundMessageExample | src/command-spec.ts:8-16 | the message of `CommandNotFoundError` for the path cli ls and the token no-found |
| ResolverExamples.UnknownSubcommandPath | command-spec.test.ts:297-332 | `ls no-found` fails at the path cli ls with the message the test matches |
| HelpExamples.BareDialog | command-spec.test.ts:24-40 | a command with only a description renders its description, a blank line, "Usage: cli" and a blank line |
| HelpExamples.FullDialog | command-spec.test.ts:200-259 | an argument, an option and a described subcommand render both usage lines and the Arguments, Commands and Options blocks, with the labels padded to 8 |
| HelpExamples.UndescribedSubcommandDialog | command-spec.test.ts:146-198 | with a subcommand that has no description, the Commands block is left out, and the Arguments and Options blocks are still padded to 8 |
| HelpExamples.UndescribedPadLen | src/command-spec.ts:86-93 | a subcommand without a description still counts toward the padding, which stays 8 |
| HelpExamples.FullPadLen | src/command-spec.ts:76-93 | the padding of that command is 8, the length of "-a --abc" |
| HelpExamples.SubcommandDialog | command-spec.test.ts:261-295 | the help of `abc ls` renders the subcommand: its description, a blank line, "Usage: cli ls" and a blank line |
| BindingExamples.UserEditBinding | command-spec.test.ts:525-578 | `--output yaml user edit user1` selects edit with the positional user1, the path cli user edit and output yaml, so its handler is called with them |
| BindingExamples.MissingUserId | src/command-spec.ts:18-32 | without user1, resolution succeeds but validation fails with "Missing user_id argument" |
| PrototypeExamples.NestedSubcommandFails | command-spec.ts:144-159 | in the prototype, the nested `edit` is not a top-level subcommand and finds no slot, so the handler scenario fails at cli user |
| PrototypeExamples.ChildStartsEmpty | command-spec.ts:129-138 | in the prototype too, `--abc ls` leaves the options on the parent and starts the child with none |
| PrototypeExamples.SubcommandHelpAgrees | command-spec.ts:100-103 | the prototype's help of `abc ls` is the same dialog as the current one |
| PrototypeExamples.SpreadOfStoredString | command-spec.ts:124-126 | `-x ab --x c` on a single-value short alias and a `multiple` long alias sharing the key x gives [c] in the current resolver and [a, b, c] in the prototype |
| PrototypeExamples.SpreadOfStoredTrue | command-spec.ts:124-126 | when the key holds the `true` of a flag, the prototype throws and the current resolver succeeds |

## Left out

- zod: the option schema is built but never applied by the core, so it is kept as a map from names to field kinds. The positional tuple check is modelled only as far as the core reads it: the count, and the first issue's `too_small` code.
- The alias regular expression is written as a predicate over characters. `\w` is read as ASCII letters, digits and `_`.
- Async generators: a dialog is the finite sequence of lines it yields.
- `bindArgs` starts `validate()` without awaiting it. The model returns the validation's outcome beside the handler call, and says nothing about when an unhandled rejection surfaces.
- Handlers are opaque references. What a handler does, and the value it returns, are not modelled.
- Keys of `optionsParsed` are map keys. A key such as `__proto__`, which a JavaScript object treats specially, is not modelled.
- Prototype.Lookup: keys that a JavaScript object inherits are not modelled. The prototype's root starts with `{}` and its child with `optionsParsed: []` (command-spec.ts:109, 136). In both, a `multiple` option whose stripped alias is an inherited member (`constructor` or `toString` on `{}`; `map`, `filter`, `keys` or `length` on `[]`) reads a function or a number at command-spec.ts:125, so the spread throws a TypeError. On `[]`, writing a value option to `length` throws a RangeError or stores a number. `Lookup` sees only the keys the alias loop wrote, so in these cases the model stores the value and succeeds.
- An absent `options`, `arguments` or `subcommands` list is the empty list. Every reader in the core treats the two alike.
- The `validator` field of an argument spec and `multiple` on a positional argument are not modelled, because no part of the core reads them.
- The test file gives option aliases as `names`, which the schema file calls `aliases`. The model uses one field for both.
- Lengths are counted in characters, not UTF-16 code units.
- Prototype.ProtoErrorMessage: the text of the `TypeError` thrown when the spread meets `true` is defined by the JavaScript engine. It is modelled as an error without a message.
- The schema assertions of command-spec.test.ts:580-658 are not encoded, because they inspect zod objects. The test at 388-416 asserts only that the result is not the same object, which says nothing about values.
