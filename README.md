# apheleia-cli command engine, modelled in Dafny

apheleia-cli is a PHP library for WP-CLI commands. You describe a command once, as a `Command` object or as a one-line signature such as `wp example <name> [--flag] [--opt=<value>]`. The library then does four things:

- it builds the record WP-CLI registers (`CommandAddition::getArgs`);
- it binds WP-CLI's raw positional and named values to the parameters the command declares (`WpCliInput`, `ArrayInput`);
- it builds the name-to-value map a handler is called with (`InvokerBackedInvocationStrategy`, `PhpDiHandlerInvoker`, `TransformingAssociativeArrayParameterResolver`);
- it keeps a registry of commands, grouped into namespaces (`CommandRegistry`).

This project models that engine and proves what it promises.

## Modules

| file | module | source |
|---|---|---|
| wrappers.dfy | `Wrappers` | `Option`, `Result` and `Outcome`, plus one `Error` constructor per exception the source throws (the message's variable parts become fields) |
| php_arrays.dfy | `PhpArrays` | PHP values and ordered arrays as association lists: `$a[k] = v` is `Put`, `unset` is `Remove`, `array_merge` is `Merge` (later writes win) |
| support.dfy | `Support` | `src/Support.php`: the four case conversions |
| parameters.dfy | `Parameters` | `src/Argument.php`, `src/Flag.php`, `src/Option.php` (PHP class `Option` becomes `AssocOption`, because `Option` is the optional type) |
| commands.dfy | `Commands` | `src/Command.php` and `src/NamespaceCommand.php` |
| parser.dfy | `CommandParser` | `src/CommandParser.php` |
| input.dfy | `Input` | `src/Input/WpCliInput.php`, `src/Input/ArrayInput.php` |
| resolver.dfy | `Resolver` | `src/TransformingAssociativeArrayParameterResolver.php` |
| helpers.dfy | `Helpers` | `src/ParsedCommandHelper.php`, `src/CommandAdditionHelper.php` |
| addition.dfy | `Additions` | `src/CommandAddition.php` |
| registry.dfy | `Registry` | `src/CommandRegistry.php` |
| invocation.dfy | `Invocation` | `src/InvokerBackedInvocationStrategy.php`, `src/Invoker/PhpDiHandlerInvoker.php` |

## How the model is built

**Objects that are changed in place are classes.**
- `Argument`, `Flag` and `AssocOption` keep their setters as methods that change fields.
- `Command`'s `add*` methods append to the `arguments` / `options` sequences of descriptor objects.
- `ParsedCommandHelper` and `CommandAdditionHelper` change the descriptors they find.
- `CommandRegistry` updates `registeredCommands` and `currentGroupParent`.
- `CommandAddition` updates `autoExit`.

**Each class method is proved against a pure function.**
- `Command.State()` reads a command into a `CommandState` value.
- The pure rules (`AddArgumentTo`, `AddParamTo`, `SetOn`, `ApplyChanges`, `ReflectDefaults`, …) say what every method does to that value, outcome included.
- Lemmas then prove properties of the rules, such as the command invariant `Good` and per-key lookups.

**A `NamespaceCommand` is a `Command` whose `isNamespace` constant is set.** Each mutator the PHP subclass overrides fails on it.

**Exceptions are `Result` / `Outcome` values.** Every `throw` of the core is modelled, and so are the `TypeError`s that the string-typed descriptor setters raise under `strict_types=1` when the helpers hand them a value that is not a string (`SetterTypeError`), and the one `new CommandAddition` raises when the registry holds an invoker factory that is no invocation-strategy factory (`AdditionFactoryTypeError`). The helpers' map values and a handler parameter's default are therefore PHP `Value`s. Where the code checks before it changes anything, the state is proved unchanged on failure. Where it applies entries one by one (the helpers' `defaults`, `descriptions` and `options`), earlier entries stay applied, as in PHP.

**The PHP loops are methods with loops** proved equal to a recursive specification:
- `processArgs` and `processAssocArgs`;
- `getWpCliArguments` and `getWpCliAssociativeArguments`;
- the resolver's nested `foreach`;
- the helper loops;
- `callCommandHandler`'s `while` and `foreach`;
- the parser's token loops.

**Fixed choices in the model:**
- A command's full name depends on its parent chain. Functions that need it take a ghost `chain` argument, the ancestors nearest first.
- Callables are a name plus a list of reflected parameters (name and, when available, a default of any PHP value).
- Parameter-name transformers are `string -> string` functions.
- WP-CLI's process exit (`halt`) is the `Halted` outcome of `Handle`.
- The value a handler returns is a parameter of `Handle`.
- The registry's invoker factory is a `GivenFactory` that records only whether it is an `InvocationStrategyFactoryInterface`, the type `CommandAddition`'s constructor declares for that argument (src/CommandAddition.php:29-33). The default `InvokerFactory` is not one.

## Where the code and its documentation differ (the model follows the code)

- **`kebabCase(camelCase(s))` is not always `kebabCase(s)`.** For `s = "-"`, `camelCase("-")` is `""` while `kebabCase("-")` is `"-"` (`Support.KebabOfCamelCaseDiffers`).
- **Word boundaries are narrower than "before any uppercase letter that is not first".** The regex `\B([A-Z])` puts a separator before an uppercase letter only when a letter, digit or `_` precedes it; a space or `-` does not count (`Support.MarkBoundariesRule`).
- **The resolver's default transformer chain has no identity step.** It is kebab, snake, camel, Pascal (src/TransformingAssociativeArrayParameterResolver.php:22-27). Only `ParsedCommandHelper`'s default mapper chain starts with the identity (src/ParsedCommandHelper.php:17-23).
- **The parser keeps every leading name token as the command name**, joined by single spaces (src/CommandParser.php:41). It does not split off a leaf name.

Two code behaviours the model keeps:

- **A stored `null` is kept by `get` but not by `getArgument` / `getOption` / `getFlag`.** The getters use `??`, so a stored `null` gives the default (`Input.StoredNullDiffers`).
- **The helpers' failure messages use the stripped name.** They report the name after the `--` has been removed.

## Model

| member | source | states |
|---|---|---|
| Support.Lower | src/Support.php:35 | `strtolower` on ASCII: same length, each character lowered |
| Support.DropSeparators | src/Support.php:32-34 | skipping the rest of a separator run: the result does not start with `-`, `_` or whitespace and is no longer than the input |
| Support.DashesToSpaces | src/Support.php:16-18 | every `-` and `_` becomes a space, every other character is kept |
| Support.UcWordsFrom | src/Support.php:15 | `ucwords` keeps the length and only upper-cases characters |
| Support.RemoveSpaces | src/Support.php:12-14 | the result has no space and every character comes from the input |
| Support.LcFirst | src/Support.php:11 | only the first character may change |
| Support.MarkBoundariesRule | src/Support.php:19-23 | `preg_replace('/\B([A-Z])/', '-$1')` inserts `-` before an uppercase letter exactly when it follows a letter, digit or `_` |
| Support.LowerHasNoUpper | src/Support.php:35 | the lowered string holds no uppercase ASCII letter |
| Support.CollapseShape | src/Support.php:32-34 | collapsing runs of `[-_\s]` into one separator leaves no whitespace, no other separator and no doubled separator |
| Support.KebabCaseShape | src/Support.php:30-43 | `kebabCase` output has no uppercase letter, no `_`, no whitespace and never two adjacent `-` |
| Support.SnakeCaseShape | src/Support.php:64-77 | `snakeCase` output has no uppercase letter, no `-`, no whitespace and never two adjacent `_` |
| Support.MarkBoundariesWithoutUpper | src/Support.php:36-40 | a string without uppercase letters gets no boundary inserted |
| Support.LowerWithoutUpper | src/Support.php:35 | lowering a string without uppercase letters changes nothing |
| Support.CollapseFixpoint | src/Support.php:32-34 | a lower-case string already separated by single separators is collapsed to itself |
| Support.SeparatedFixpoint | src/Support.php:32-40 | the whole kebab/snake pipeline leaves such a string unchanged |
| Support.KebabCaseIdempotent | src/Support.php:30-43 | `kebabCase(kebabCase(s)) == kebabCase(s)` |
| Support.SnakeCaseIdempotent | src/Support.php:64-77 | `snakeCase(snakeCase(s)) == snakeCase(s)` |
| Support.CollapseSeparatorSwap | src/Support.php:32-34 | collapsing with `_` is collapsing with `-` and then replacing `-` by `_` |
| Support.SnakeCaseIsKebabCaseWithUnderscores | src/Support.php:30-77 | `snakeCase(s)` is `kebabCase(s)` with every `-` replaced by `_` |
| Support.PascalCaseShape | src/Support.php:45-62 | `pascalCase` output contains no `-`, `_` or space |
| Support.CamelCaseShape | src/Support.php:9-28 | `camelCase` output contains no `-`, `_` or space |
| Support.EmptyStaysEmpty | src/Support.php:9-77 | all four conversions map `""` to `""` |
| Support.KebabOfCamelCaseDiffers | src/Support.php:9-43 | `kebabCase(camelCase("-"))` is `""` while `kebabCase("-")` is `"-"` |
| Parameters.IsValidNameIffCharset | src/Argument.php:117-122 | `isValidName` holds exactly when stripping the disallowed characters changes nothing, i.e. every character is in the charset (the empty name passes) |
| Parameters.Strip | src/Argument.php:119-121 | the regex strip keeps only charset characters and never lengthens the name |
| Parameters.StripKeepsValid | src/Flag.php:63-68 | a name made of charset characters is stripped to itself |
| Parameters.LowerCaseNamesAreMixedCase | src/Flag.php:63-68 | a valid flag or option name is a valid argument name |
| Parameters.OptionsKey | src/Argument.php:106-112 | the `options` key is present iff the list is not empty, holding the list in the order given |
| Parameters.ArgumentSynopsis | src/Argument.php:91-115 | fails iff a required argument has a default (`validate`); otherwise type positional, name, optional and repeating mirrored, description iff truthy, default iff set, options iff non-empty |
| Parameters.ApplyArgumentSetter | src/Argument.php:124-157 | no setter changes the name |
| Parameters.ArgumentValidationIsOrderIndependent | src/Argument.php:159-166 | the synopsis fails exactly when, after any sequence of setters, a default is set and the argument is required, whatever the order |
| Parameters.Argument.constructor | src/Argument.php:44-53 | a new argument is required, not repeating, without default or description, with no options |
| Parameters.Argument.Create | src/Argument.php:44-53 | construction fails with the argument name error iff the name is not valid; otherwise gives a fresh argument in the initial state |
| Parameters.Argument.Set | src/Argument.php:124-157 | each setter changes exactly its own field |
| Parameters.FlagSynopsis | src/Flag.php:47-61 | never fails: type flag, optional, not repeating, description iff truthy, no default, options or value |
| Parameters.Flag.constructor | src/Flag.php:23-32 | a new flag has its name and no description |
| Parameters.Flag.Create | src/Flag.php:23-32 | fails with the flag name error iff the name is not lower-case valid |
| Parameters.Flag.SetDescription | src/Flag.php:70-75 | sets the description and nothing else |
| Parameters.OptionSynopsis | src/Option.php:87-118 | fails iff the option is required and its value optional; otherwise type assoc, not repeating, optional mirrored, description iff set (even `""`), default iff set, options iff non-empty, value `{optional: true, name}` iff the value is optional |
| Parameters.ApplyOptionSetter | src/Option.php:132-165 | no setter changes the name |
| Parameters.OptionValidationIsOrderIndependent | src/Option.php:167-174 | the synopsis fails exactly when, after any setters in any order, the option ends required with an optional value |
| Parameters.AssocOption.constructor | src/Option.php:45-54 | a new option is optional, its value not optional, no default, description or options |
| Parameters.AssocOption.Create | src/Option.php:45-54 | fails with the option name error iff the name is not lower-case valid |
| Parameters.AssocOption.Set | src/Option.php:132-165 | each setter changes exactly its own field |
| Commands.ArgumentNames | src/Command.php:161-164 | the names of the arguments, in insertion order |
| Commands.ParamNames | src/Command.php:227-230 | the names of the flags and options, in insertion order |
| Commands.CheckArgument | src/Command.php:81-104 | `addArgument` passes iff the name is free and the last argument is neither repeating nor optional before a required one; each failure is the one the code throws first |
| Commands.AddArgumentKeepsWellFormed | src/Command.php:79-109 | a passing `addArgument` keeps names unique, a repeating argument last and no required argument after an optional one |
| Commands.AddParamKeepsWellFormed | src/Command.php:111-139 | a flag or option with a free name keeps the invariant |
| Commands.NamespaceRefusal | src/NamespaceCommand.php:37-65 | a namespace command refuses every setter except description and usage |
| Commands.StepKeepsGood | src/Command.php:79-139 | a failing step leaves the command unchanged, a passing add appends exactly one entry, and the invariant holds afterwards |
| Commands.RunKeepsGood | src/NamespaceCommand.php:22-35 | the invariant holds after any sequence of steps, and a namespace command never gets a parameter |
| Commands.NamespaceRefusesMutators | src/NamespaceCommand.php:22-65 | on a namespace command a step succeeds iff it sets the description or usage |
| Commands.ArgumentSynopses | src/Command.php:239-243 | argument synopses in insertion order, succeeding iff every argument validates |
| Commands.ArgumentSynopsesError | src/Command.php:239-243 | the error is the one of the first argument that fails |
| Commands.ParamSynopses | src/Command.php:245-249 | flag and option synopses in insertion order, succeeding iff every one validates |
| Commands.ParamSynopsesError | src/Command.php:245-249 | the error is the one of the first option that fails |
| Commands.CommandSynopsis | src/Command.php:235-261 | arguments, then flags and options, then one generic entry iff arbitrary options are accepted; any validation failure propagates, arguments first |
| Commands.NamespaceSynopsisIsEmpty | src/NamespaceCommand.php:11-20 | a namespace command's synopsis is empty |
| Commands.JoinWordsAppend | src/Command.php:209-222 | appending a word adds one space and the word |
| Commands.JoinNames | src/Command.php:209-222 | the full name succeeds iff no name in the chain is empty or null, and fails with the empty-name error otherwise |
| Commands.Command.constructor | src/Command.php:74-77 | a new command has no name, parameters, handler or parent |
| Commands.Command.Namespace | src/NamespaceCommand.php:16-20 | a namespace command has the name, the description and the namespace marker as handler, no parameters, and satisfies the invariant |
| Commands.Command.AddArgument | src/Command.php:79-109 | the outcome and new state are those of the pure rule, and the argument object is appended iff it passes |
| Commands.Command.AddFlag | src/Command.php:111-124 | the flag object is appended iff its name is free |
| Commands.Command.AddOption | src/Command.php:126-139 | the option object is appended iff its name is free |
| Commands.Command.Set | src/Command.php:273-334 | each simple setter changes its own field; on a namespace command the overridden ones fail and change nothing |
| Commands.Command.SetParent | src/Command.php:315-320 | sets the parent and leaves the rest of the state as it was |
| Commands.Command.GetHandler | src/Command.php:186-204 | the handler if one is set; otherwise "handler not set" with the full name |
| Commands.FullName | src/Command.php:209-222 | the parent's full name, a space, then the own name, recursively; empty names fail |
| Commands.FullNameStep | src/Command.php:215-219 | a child's full name extends its parent's by one space and its own name |
| Commands.FullNameStepErr | src/Command.php:211-213 | a parent whose name fails makes the child's name fail |
| CommandParser.Tokens | src/CommandParser.php:21 | `array_filter(preg_split('/\s+/'))`: every token is a non-empty run without whitespace other than `"0"` |
| CommandParser.TokensOfJoinWords | src/CommandParser.php:21 | splitting words joined by single spaces gives the words back |
| CommandParser.BlankHasNoTokens | src/CommandParser.php:21-25 | a blank signature has no token |
| CommandParser.MatchArgument | src/CommandParser.php:106-112 | a matched argument token carries a valid name |
| CommandParser.MatchFlag | src/CommandParser.php:114-120 | a matched flag token carries a valid lower-case name |
| CommandParser.MatchOption | src/CommandParser.php:132-143 | a matched option token carries a valid name and value name |
| CommandParser.Classify | src/CommandParser.php:43-57 | argument, then flag, then option, then generic, else unrecognised; a recognised token is well formed |
| CommandParser.ArgumentIff | src/CommandParser.php:62-87 | a token is an argument with these fields iff it is `<name>`, optionally `...`, optionally wrapped in `[ ]`; optional iff bracketed, repeating iff dotted |
| CommandParser.FlagIff | src/CommandParser.php:89-104 | a token is a flag iff it is exactly `[--name]` with a lower-case name |
| CommandParser.OptionIff | src/CommandParser.php:145-170 | a token is an option iff it is `--name=<value>`, optionally `[--name[=<value>]]`; outer brackets make the option optional, inner ones its value |
| CommandParser.OptionBodyIff | src/CommandParser.php:136-142 | the body of an option token matches iff it is `--name`, then `=<value>` with optional brackets |
| CommandParser.OptionValueIff | src/CommandParser.php:136-142 | the value part matches iff it is `=<value>` or `[=<value>]` |
| CommandParser.NameIsNoParameter | src/CommandParser.php:127-130 | a name token is never classified as a parameter |
| CommandParser.NotAnArgument | src/CommandParser.php:106-112 | a token starting with `-` or `[-` is not an argument |
| CommandParser.OptionIsNoFlag | src/CommandParser.php:114-120 | a rendered option token is never a flag |
| CommandParser.ClassifyRender | src/CommandParser.php:43-57 | classifying the rendering of any well-formed token gives the token back |
| CommandParser.RenderClassify | src/CommandParser.php:43-57 | rendering the classification of a recognised token gives the text back |
| CommandParser.MatchedStart | src/CommandParser.php:106-143 | a recognised token starts with `[`, `<` or `-` |
| CommandParser.LeadingNames | src/CommandParser.php:27-34 | the leading name run is maximal: all names before it, no name after it |
| CommandParser.RunStepsIsRun | src/CommandParser.php:43-57 | feeding stops at the first failing `add*`, otherwise runs all steps |
| CommandParser.FeedKeepsGood | src/CommandParser.php:43-57 | the command invariant holds throughout parsing, and fed tokens never change the name |
| CommandParser.BlankSignature | src/CommandParser.php:21-25 | a blank signature fails with the empty-signature error |
| CommandParser.ParsedCommandIsGood | src/CommandParser.php:27-59 | a parsed command satisfies the invariant, is not a namespace, and is named by the leading name tokens joined by single spaces |
| CommandParser.NameAfterParameter | src/CommandParser.php:52-54 | a name-like token after a parameter is unrecognised |
| CommandParser.RenderIsToken | src/CommandParser.php:21-30 | a rendered parameter is a single token and not a name |
| CommandParser.FeedRendered | src/CommandParser.php:43-57 | feeding rendered tokens runs their steps in order |
| CommandParser.LeadingNamesOfPrefix | src/CommandParser.php:27-34 | names followed by a non-name are the leading run |
| CommandParser.ParseRendered | src/CommandParser.php:13-60 | a signature of names and rendered parameters parses to the named command with those parameters added in order |
| CommandParser.ArgumentFromSignature | src/CommandParser.php:62-87 | a fresh argument with the token's name, optionality and repetition |
| CommandParser.FlagFromSignature | src/CommandParser.php:89-104 | a fresh flag with the token's name |
| CommandParser.OptionFromSignature | src/CommandParser.php:145-170 | a fresh option with the token's name and optionalities |
| CommandParser.AddToken | src/CommandParser.php:44-51 | one token is added through the matching `add*` or sets arbitrary options |
| CommandParser.TakeName | src/CommandParser.php:27-34 | the name loop takes exactly the leading name tokens |
| CommandParser.FeedTokens | src/CommandParser.php:43-57 | the loop's outcome and final state are those of the token feed |
| CommandParser.Parse | src/CommandParser.php:13-60 | fails as the signature's parse fails; otherwise a fresh parentless command whose state is the parse |
| Input.RequireRest | src/Input/WpCliInput.php:78-84 | succeeds iff every remaining declared argument is optional; otherwise names the first required one |
| Input.FirstRepeating | src/Input/WpCliInput.php:70-72 | the index of the first repeating argument |
| Input.BoundPairs | src/Input/WpCliInput.php:63-76 | values go to declared arguments in order, one each, up to the first repeating one, which takes the rest |
| Input.BindArgsIsArgumentBinding | src/Input/WpCliInput.php:58-87 | the shift-by-shift loop equals the loop-free binding: too many values, missing required argument, or the bound pairs |
| Input.ProcessArgs | src/Input/WpCliInput.php:58-87 | `processArgs` computes that binding |
| Input.RequireOptional | src/Input/WpCliInput.php:78-84 | the trailing loop reports the first required argument left without a value |
| Input.SortParamsFails | src/Input/WpCliInput.php:97-121 | the option loop fails iff a required option is absent, and names the first such one |
| Input.SortParamsGet | src/Input/WpCliInput.php:97-121 | a declared option or flag takes the value passed for it and leaves the working copy; undeclared keys stay |
| Input.AssocBindingOk | src/Input/WpCliInput.php:93-135 | succeeds iff no required option is missing and either arbitrary options are accepted or every key is declared |
| Input.AssocBindingGet | src/Input/WpCliInput.php:93-135 | the flags bucket holds exactly the passed flags, the options bucket the passed options, and `arbitraryOptions` the undeclared keys |
| Input.ProcessAssocArgs | src/Input/WpCliInput.php:93-135 | `processAssocArgs` computes that binding |
| Input.WpCliInputGetsDeclared | src/Input/WpCliInput.php:27-36 | `get` on a constructed input returns the value passed for a declared option or flag |
| Input.NewWpCliInput | src/Input/WpCliInput.php:27-36 | the constructor binds the command's declarations and keeps the raw values |
| Input.BuildWpCliInput | src/Input/WpCliInput.php:27-36 | the constructor body on the command's state |
| Input.GetIsChainedGetters | src/Input/ArrayInput.php:40-55 | without stored nulls, `get` is arguments, then options, then flags, then the default |
| Input.StoredNullDiffers | src/Input/ArrayInput.php:40-64 | a stored null is returned by `get` but replaced by the default in `getArgument` |
| Input.Coalesce | src/Input/ArrayInput.php:61-94 | `??`: the value unless absent or null, then the default |
| Input.GetWpCliArguments | src/Input/ArrayInput.php:107-122 | the loop gives the argument values in order with sequences flattened in place; a `WpCliInput` gives the raw list |
| Input.GetWpCliAssociativeArguments | src/Input/ArrayInput.php:127-144 | the loop merges array options into the map, puts scalar options under their name and flags last; a `WpCliInput` gives the raw map |
| Input.FlattenAppend | src/Input/ArrayInput.php:107-122 | flattening distributes over concatenation |
| Input.ArgumentsRoundTrip | src/Input/WpCliInput.php:58-87 | flattening the bound arguments gives back the raw positional values |
| Input.WpCliArgumentsAgree | src/Input/ArrayInput.php:107-122 | an `ArrayInput` over the buckets gives the same positional list as the `WpCliInput` |
| Input.AssocRoundTrip | src/Input/ArrayInput.php:127-144 | rebuilding the named map from the bound buckets gives every raw key its raw value |
| Input.WpCliAssocAgree | src/Input/WpCliInput.php:49-52 | an `ArrayInput` over the buckets gives the same named map as the `WpCliInput`, key by key |
| Input.OptionsAssocScalars | src/Input/ArrayInput.php:127-140 | with only scalar options the loop is `array_merge` |
| Input.SortParamsShape | src/Input/WpCliInput.php:97-121 | the buckets keep unique keys and scalar options |
| Resolver.FirstHitIndex | src/TransformingAssociativeArrayParameterResolver.php:42-50 | the index of the first transformer whose output is a provided key |
| Resolver.FirstHit | src/TransformingAssociativeArrayParameterResolver.php:42-50 | a value is found iff some transformer hits a provided key |
| Resolver.FirstHitIsFirst | src/TransformingAssociativeArrayParameterResolver.php:42-50 | the value comes from the first transformer in chain order that hits |
| Resolver.ResolveFromGet | src/TransformingAssociativeArrayParameterResolver.php:41-51 | each remaining index not already resolved gets its first hit, the others keep their entry |
| Resolver.ResolveGet | src/TransformingAssociativeArrayParameterResolver.php:30-54 | resolved entries are kept unchanged; an unresolved parameter gets its first hit or stays absent; no other key appears |
| Resolver.ParameterResolver.constructor | src/TransformingAssociativeArrayParameterResolver.php:20-28 | an empty chain gives kebab, snake, camel, Pascal; a non-empty one replaces it |
| Resolver.ParameterResolver.SetParameterNameTransformers | src/TransformingAssociativeArrayParameterResolver.php:59-62 | replaces the chain |
| Resolver.ParameterResolver.GetParameters | src/TransformingAssociativeArrayParameterResolver.php:30-54 | the nested loops compute the resolution |
| Resolver.ParameterResolver.FindValue | src/TransformingAssociativeArrayParameterResolver.php:42-50 | the inner loop with `break` finds the first hit |
| Helpers.StripDashes | src/ParsedCommandHelper.php:48-50 | a leading `--` is removed, nothing else |
| Helpers.Lookup | src/ParsedCommandHelper.php:44-58 | finds the argument or flag/option of that name, or none |
| Helpers.DashedNameIsTheSame | src/ParsedCommandHelper.php:48-50 | `--name` and `name` address the same parameter |
| Helpers.NonArrayOptionsFail | src/ParsedCommandHelper.php:120-124 | a non-array options value fails before the name is looked up, whatever the name |
| Helpers.Strings | src/Argument.php:145 | the values are all strings iff a string list comes back, holding them in order |
| Helpers.ApplyChangeFails | src/ParsedCommandHelper.php:52-66 | an entry fails as unregistered iff no parameter has the name; as a flag iff the name is a flag and the setting is not a description; with a `TypeError` iff the name is an argument or option (or a flag getting a description) and the value is not a string, or not an array of strings for `options`; and fails iff one of these holds |
| Helpers.ApplyChangesAppend | src/ParsedCommandHelper.php:47-67 | entries apply in order; after a failure the later ones are skipped and earlier ones stay applied |
| Helpers.ChangeTargetTouchesOnlyTarget | src/ParsedCommandHelper.php:58-66 | a successful entry reaches only the named parameter and keeps every name, optionality and repetition |
| Helpers.ChangeTargetSets | src/ParsedCommandHelper.php:58-66 | a successful entry had a well-typed value; the named argument or option gets exactly the new default, description or options; a flag only a description |
| Helpers.ApplyChangesKeepsGood | src/ParsedCommandHelper.php:40-148 | the command invariant holds after any entries |
| Helpers.ApplyChangesKeepFields | src/ParsedCommandHelper.php:40-148 | entries never change the command's own fields |
| Helpers.DescriptionsSetCommandDescription | src/ParsedCommandHelper.php:74 | `descriptions` always sets the command description |
| Helpers.MapperHit | src/ParsedCommandHelper.php:179-201 | the first mapper whose output names a registered parameter |
| Helpers.ReflectDefaultIsDefaultsEntry | src/ParsedCommandHelper.php:179-201 | the reflected default is the `defaults` entry for the mapped name, a flag rejecting it |
| Helpers.ReflectDefaultSets | src/ParsedCommandHelper.php:179-201 | an argument or option found by the first hitting mapper gets the handler's default when it is a string and raises a `TypeError` when it is not (`null` included); a flag is left as it is and the search stops; no hit or no default changes nothing |
| Helpers.ReflectDefaultKeepsShape | src/ParsedCommandHelper.php:193-197 | a reflected default that succeeds keeps every name, kind, optionality and the command's fields |
| Helpers.ReflectDefaultFails | src/ParsedCommandHelper.php:180-196 | one parameter fails iff it has a non-string default and its first hit is an argument or option |
| Helpers.ReflectDefaultsFails | src/ParsedCommandHelper.php:179-201 | the loop fails iff some handler parameter's default is rejected, the earlier ones applied |
| Helpers.ReflectDefaultsKeepShape | src/ParsedCommandHelper.php:179-201 | the loop keeps every name, kind, optionality and the command's fields |
| Helpers.ReflectDefaultsKeepsGood | src/ParsedCommandHelper.php:164-202 | the invariant holds after reflecting every handler parameter |
| Helpers.HandlerOnResult | src/ParsedCommandHelper.php:103-110 | `handler` fails iff the command is a namespace (leaving it unchanged) or some reflected default is rejected; on any other command the handler is set and no other command field changes, even when a default is rejected; the invariant holds |
| Helpers.DefaultEntries | src/ParsedCommandHelper.php:40-70 | one default entry per key, in order |
| Helpers.DescriptionEntries | src/ParsedCommandHelper.php:72-96 | one description entry per key, in order |
| Helpers.OptionsEntries | src/ParsedCommandHelper.php:112-148 | one options entry per key, in order |
| Helpers.ChangeTargetOn | src/ParsedCommandHelper.php:58-66 | the setter call on the found descriptor object changes the command state as the pure rule says |
| Helpers.ApplyChangeOn | src/ParsedCommandHelper.php:47-66 | one entry on the command, as the pure rule says |
| Helpers.ApplyChangesOn | src/ParsedCommandHelper.php:47-67 | the `foreach` over entries, as the pure rule says |
| Helpers.ReflectDefaultOn | src/ParsedCommandHelper.php:179-201 | one handler parameter's default on the command, outcome and state as the pure rule says |
| Helpers.SetReflectedDefault | src/ParsedCommandHelper.php:193-197 | the `setDefault` call on the found descriptor, or nothing for a flag, as the pure rule says |
| Helpers.FindMapped | src/ParsedCommandHelper.php:181-199 | the mapper loop with `break` finds the first hit |
| Helpers.ReflectDefaultsOn | src/ParsedCommandHelper.php:164-202 | the outer loop over handler parameters, stopping at the first `TypeError`, as the pure rule says |
| Helpers.DescriptionsOnCommand | src/ParsedCommandHelper.php:72-96 | command description first, then the entries |
| Helpers.HandlerOnCommand | src/ParsedCommandHelper.php:103-110 | set the handler, then reflect its defaults |
| Helpers.CommandAdditionHelper.constructor | src/CommandAdditionHelper.php:13-16 | wraps the command |
| Helpers.CommandAdditionHelper.After | src/CommandAdditionHelper.php:18-23 | forwards to the after-invoke setter; parent and descriptor lists untouched |
| Helpers.CommandAdditionHelper.Before | src/CommandAdditionHelper.php:25-30 | forwards to the before-invoke setter; parent and descriptor lists untouched |
| Helpers.CommandAdditionHelper.Defaults | src/CommandAdditionHelper.php:32-62 | strip, look up, reject flags, set defaults (a non-string is a `TypeError`), in order |
| Helpers.CommandAdditionHelper.Descriptions | src/CommandAdditionHelper.php:64-88 | command description, then each parameter's, flags included (a non-string is a `TypeError`) |
| Helpers.CommandAdditionHelper.Options | src/CommandAdditionHelper.php:95-131 | non-arrays fail first, then strip, look up, reject flags, set options (a non-string item is a `TypeError`) |
| Helpers.CommandAdditionHelper.Usage | src/CommandAdditionHelper.php:133-138 | forwards to the usage setter; parent and descriptor lists untouched |
| Helpers.CommandAdditionHelper.When | src/CommandAdditionHelper.php:140-145 | forwards to the when setter; parent and descriptor lists untouched |
| Helpers.ParsedCommandHelper.constructor | src/ParsedCommandHelper.php:14-24 | the default mapper chain is identity, kebab, snake, camel, Pascal; a non-empty one replaces it |
| Helpers.ParsedCommandHelper.After | src/ParsedCommandHelper.php:26-31 | forwards to the after-invoke setter; parent and descriptor lists untouched |
| Helpers.ParsedCommandHelper.Before | src/ParsedCommandHelper.php:33-38 | forwards to the before-invoke setter; parent and descriptor lists untouched |
| Helpers.ParsedCommandHelper.Defaults | src/ParsedCommandHelper.php:40-70 | strip, look up, reject flags, set defaults (a non-string is a `TypeError`), in order |
| Helpers.ParsedCommandHelper.Descriptions | src/ParsedCommandHelper.php:72-96 | command description, then each parameter's, flags included (a non-string is a `TypeError`) |
| Helpers.ParsedCommandHelper.Handler | src/ParsedCommandHelper.php:103-110 | set the handler, then reflect its defaults through the mappers |
| Helpers.ParsedCommandHelper.Options | src/ParsedCommandHelper.php:112-148 | non-arrays fail first, then strip, look up, reject flags, set options (a non-string item is a `TypeError`) |
| Helpers.ParsedCommandHelper.Usage | src/ParsedCommandHelper.php:150-155 | forwards to the usage setter; parent and descriptor lists untouched |
| Helpers.ParsedCommandHelper.When | src/ParsedCommandHelper.php:157-162 | forwards to the when setter; parent and descriptor lists untouched |
| Additions.TextEntry | src/CommandAddition.php:46-48 | a description-like key is present iff its value is truthy |
| Additions.CallbackEntry | src/CommandAddition.php:58-64 | a callback key is present iff the callback is set |
| Additions.SynopsisEntryOf | src/CommandAddition.php:50-52 | the synopsis key is present iff the synopsis is not empty |
| Additions.ArgsGet | src/CommandAddition.php:42-71 | each of the six keys holds its value exactly under its condition, and no other key appears |
| Additions.NewCommandArgs | src/CommandAddition.php:42-71 | a command with nothing set gives an empty record |
| Additions.NamespaceArgs | src/CommandAddition.php:42-71 | a namespace command gives at most a short and a long description |
| Additions.ExitStatus | src/CommandAddition.php:120-126 | the status is always in [0, 255] |
| Additions.CommandAddition.constructor | src/CommandAddition.php:29-37 | auto-exit starts on |
| Additions.CommandAddition.SetAutoExit | src/CommandAddition.php:100-105 | sets auto-exit |
| Additions.CommandAddition.GetHandler | src/CommandAddition.php:81-90 | a callable is wrapped, the namespace marker passed through, a missing handler fails as the command's does |
| Additions.CommandAddition.Handle | src/CommandAddition.php:115-133 | status 0 for a non-int or negative result, 255 above 255, the result otherwise; halts iff auto-exit |
| Registry.AddToGet | src/CommandRegistry.php:74-88 | adding fails iff the name fails or is taken, leaving the map unchanged; otherwise only that key is added |
| Registry.RemoveFromGet | src/CommandRegistry.php:159-170 | removing fails iff the name is not registered; otherwise exactly that key goes, the others keep their order |
| Registry.AddThenRemove | src/CommandRegistry.php:68-170 | removing a command just added restores the map |
| Registry.RegisterOutcomeFails | src/CommandRegistry.php:74-87 | registering fails iff the name fails or is taken or the factory is rejected; the factory `TypeError` comes only for a free name; a success is a successful add |
| Registry.CommandsOfGet | src/CommandRegistry.php:103-109 | the registered commands by full name |
| Registry.RegisteredAfterAdd | src/CommandRegistry.php:68-109 | after an add the new name maps to its command, other names unchanged |
| Registry.RegisteredAfterRemove | src/CommandRegistry.php:159-170 | after a removal the name is gone, other names unchanged |
| Registry.CommandRegistry.constructor | src/CommandRegistry.php:18-66 | empty registry, childless groups refused, auto-exit on, no group; with no factory given the default `InvokerFactory` is kept, which `new CommandAddition` rejects |
| Registry.CommandRegistry.AllowChildlessGroups | src/CommandRegistry.php:93-98 | sets the flag only |
| Registry.CommandRegistry.SetAutoExit | src/CommandRegistry.php:172-177 | sets the flag only |
| Registry.CommandRegistry.GetRegisteredCommands | src/CommandRegistry.php:103-109 | the same keys, unique |
| Registry.CommandRegistry.Add | src/CommandRegistry.php:68-91 | inside a group the command gets the group as parent, its descriptors unchanged; a taken or failing full name fails, then a factory `new CommandAddition` rejects fails with its `TypeError`, each changing no registration; otherwise registers under the full name |
| Registry.CommandRegistry.Remove | src/CommandRegistry.php:159-170 | removes the command's full name or fails |
| Registry.CommandRegistry.Namespace | src/CommandRegistry.php:150-157 | registers a fresh namespace command under the current group, failing as `add` does; its whole state is that of `new NamespaceCommand(name, description)` and satisfies the invariant |
| Registry.CommandRegistry.BeginGroup | src/CommandRegistry.php:111-120 | registers the group's namespace command (whole state given, invariant holds), counts and makes it the current parent; a failed registration leaves registry and parent as they were |
| Registry.CommandRegistry.EndGroup | src/CommandRegistry.php:122-129 | restores the previous parent; removes the group if nothing was registered and childless groups are refused |
| Registry.CommandRegistry.ChildlessGroup | src/CommandRegistry.php:111-132 | a group that registers nothing leaves the registry and the current parent as they were |
| Invocation.CallParametersGet | src/InvokerBackedInvocationStrategy.php:36-42 | every context key keeps its value and `context` holds the whole context unless the context has its own |
| Invocation.ContextArgs | src/InvokerBackedInvocationStrategy.php:49 | a missing or null `args` is `[]`; a non-array fails |
| Invocation.ContextAssoc | src/InvokerBackedInvocationStrategy.php:50 | a missing or null `assocArgs` is `[]`; a non-array fails |
| Invocation.BaseParametersGet | src/InvokerBackedInvocationStrategy.php:52-58 | `args`/`arguments` hold the positional list, `assocArgs`/`options` the named map, `context` the context |
| Invocation.BindPositionalFails | src/InvokerBackedInvocationStrategy.php:62-76 | fails iff there are more values than arguments and none repeats |
| Invocation.BindPositionalOther | src/InvokerBackedInvocationStrategy.php:62-76 | keys that are not argument names are untouched |
| Invocation.BindPositionalGet | src/InvokerBackedInvocationStrategy.php:62-76 | each argument takes its value in order, the first repeating one the rest as a list, unreached ones stay as they were |
| Invocation.BindNamedGet | src/InvokerBackedInvocationStrategy.php:78-86 | a declared flag or option present in the map is bound and leaves the copy; other keys untouched |
| Invocation.HandlerParametersFails | src/InvokerBackedInvocationStrategy.php:47-93 | fails iff the context is malformed or positional values overflow non-repeating arguments |
| Invocation.HandlerArbitraryOptions | src/InvokerBackedInvocationStrategy.php:88-90 | `arbitraryOptions` is bound iff accepted and an undeclared key was passed, holding exactly the leftovers |
| Invocation.HandlerOptionGet | src/InvokerBackedInvocationStrategy.php:78-86 | a declared flag or option gets the passed value, else the base binding |
| Invocation.HandlerArgumentGet | src/InvokerBackedInvocationStrategy.php:62-76 | a declared argument gets its positional value or the rest, else the base binding; no missing check |
| Invocation.HandlerOtherGet | src/InvokerBackedInvocationStrategy.php:47-93 | any other key holds its base binding |
| Invocation.CallCommandHandler | src/InvokerBackedInvocationStrategy.php:47-93 | the `while` and `foreach` compute the handler map |
| Invocation.ReservedGet | src/Invoker/PhpDiHandlerInvoker.php:26-43 | buckets, WP-CLI shapes, and command, input and output under plain and type-name keys |
| Invocation.InvokeParametersGet | src/Invoker/PhpDiHandlerInvoker.php:23-48 | flags win over options over arguments over the reserved keys; every input name appears |

## Left out

- Output, WP-CLI runtime, `CommandRegistry::initialize` / `initializeImmediately`: process and stream I/O outside the engine.
- The php-di invoker calls, invocation-strategy and invoker factories: reflection-driven; only the parameter maps handed to them are modelled.
- `Command`'s `method_exists` fallbacks for the handler and callbacks (src/Command.php:146-176, 192-197): run-time probing of the class; the handler and callbacks are option fields.
- WP-CLI's `SynopsisParser` and the dependency check in `parse`: foreign code; the descriptor fields are derived from the token shape.
- PHP's numeric-string key coercion and `array_merge` renumbering: every parameter name is a plain string key.
- Invocation.ContextArgs: a context `args` given as an associative array fails with `ContextNotAnArray` instead of being used as PHP would.
- Invocation.ContextAssoc: a context `assocArgs` given as a non-empty list or as a scalar fails with `ContextNotAnArray`; PHP reads it only through `array_key_exists` and `empty` (src/InvokerBackedInvocationStrategy.php:81, 88), so with no declared flag or option it binds the value as given. `CommandAddition::handle` always passes arrays.
- Invocation.ReservedGet: the input, output and command objects are opaque values.
- Commands.FullName: the parent chain is passed as a ghost sequence; cyclic parent chains are not modelled.
- Registry.CommandRegistry.Add: does not state the new `Command.State()`, only its fields and parameter lists (the same thing).
- Additions.CommandAddition.Handle: the handler's return value is a parameter; the source calls a missing `getRequiredInvocationStrategy`.
- Concrete string examples of tests/SupportTest.php (such as `snakeCase("snakeCase")` and `kebabCase("kebab2Case")`) and the resolver's `param_one` example are not stated as lemmas: the model states the rules those examples illustrate for every input instead. The empty string (`Support.EmptyStaysEmpty`), the counterexample `Support.KebabOfCamelCaseDiffers` and the general rules the examples illustrate are proved.
- Text is a sequence of characters, not of bytes. PHP strings are bytes and the name pattern at src/CommandParser.php:129 has no `u` flag, so `isName`'s two-character minimum counts bytes there: `é` is a name in PHP but a one-character token the model's `CommandParser.IsName` rejects. Non-ASCII text is modelled per character throughout.
- Input.GetWpCliAssociativeArguments: an option whose value is a list contributes nothing; PHP's `array_merge` (src/Input/ArrayInput.php:132-133) appends its items under fresh integer keys, which the string-keyed map does not carry. An empty list adds nothing in both.
- Helpers.OptionsEntries: an `options` value given as an array with string keys is reduced to its values in order; the keys PHP's argument unpacking would carry into the descriptor are not kept.
