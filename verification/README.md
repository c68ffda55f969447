# Subcommand dispatch, modelled in Dafny

This project models the two dispatchers of the Go package `command`.

- **command.go** is a process-wide, single-level dispatcher. `On` registers a command with a description and its required flags. `Parse` reads the command line's own flags and chooses the command named by the first positional argument. It then parses that command's flags (plus `-h`) and checks that every required flag was supplied. `Run` invokes the chosen command, or shows its usage when `-h` was given. `DefineHelp`, or a command registered as `help`, becomes the usage hook of the command line's flag set.
- **commander.go** is a recursive `Commander`. Each node owns a registry. `Run` consumes one token to choose a record. `prepare` calls the handler's optional `Path`, `Flags` and `Compgens` in that order, each only when the handler implements it. `Launch` parses the remaining tokens and runs the handler on what is left. A handler that is itself a `Commander` repeats this one level down, under the display name `parent + " " + child`. `Compgen` walks the same tree for shell completion.

How the model represents the Go program:

- Registries are `map<string, Cont>` values and handlers are an inductive datatype. Dispatch and completion are pure functions that return outcome datatypes.
- The package globals of command.go become a `State` record, threaded explicitly through `On`, `Parse` and `Run`.
- Printing and `os.Exit` become the `Display` and outcome constructors.
- The flag package is an oracle: a function-typed parameter `Parser` that takes the declared flag names and the tokens and returns the visited flags, the boolean flags set to true and the residual tokens, or `Malformed`.
- Go's map iteration order is modelled by `EnumerateKeys`, which may return the keys in any order. The model proves that the sorted listings do not depend on that order.
- Go compares strings byte-wise; the model compares `char` code points, which agree for valid UTF-8.

Files: `wrappers.dfy` (Option), `sorting.dfy` (Go string order, sorting, map enumeration), `flags.dfy` (the flag-package oracle), `command.dfy` and `command_facts.dfy` (command.go), `commander.dfy` and `commander_facts.dfy` (commander.go).

Where the model follows the code rather than what its doc comments suggest:

- `commander.Run` calls `Usage(nil)`, so the dispatch-failure usage never lists the commander's own flags. Flags appear only when the flag set's usage hook shows the usage after a parse error.
- Required flags exist only in command.go. There, a missing required flag shows the subcommand's usage and exits with status 1. This check runs before `-h` is looked at.
- In command.go, a command whose `Flags` declares `-h` itself makes `fs.Bool("h", ..)` panic. The model has a separate outcome for this (`HelpFlagRedefined`).

## Model

| member | source | states |
|---|---|---|
| Sorting.EnumerateKeys | command.go:74-77 | ranging over a map yields every key exactly once, in some order |
| Sorting.SortBy | commander.go:168-173 | the sorted sequence is a permutation of its input, ordered by key, and strictly ascending when the keys are pairwise distinct |
| Sorting.StrictlySortedUnique | commander.go:168-173 | two strictly sorted sequences with the same members are equal, so a sorted listing cannot depend on the gathering order |
| Sorting.SortedKeys | command.go:74-79 | the keys of a map, sorted with `sort.Strings`, are every key once and strictly ascending |
| Sorting.LessIsFirstDifference | commander.go:212 | `Less`, the string `<` behind `byName.Less` and `sort.Strings`, holds exactly when the first string is a proper prefix of the second or has the smaller element at the first position where they differ |
| Command.On | command.go:64-71 | registering sets the entry for `name` to the new record, with its required-flag list; every other name keeps its entry and the registry stays keyed by name |
| Command.DefineHelp | command.go:215-217 | the given handler becomes the defined help command, replacing any earlier one; the registry, the global flags and the match are unchanged |
| Command.HelpCommand | command.go:130-142 | a `DefineHelp` handler wins; otherwise there is a help command exactly when "help" is registered, and it is that entry's handler |
| Command.NumOfGlobalFlags | command.go:207-213 | the count is zero exactly when the command line declares no flags |
| Command.Usage | command.go:88-108 | with nothing registered, only the flag defaults are shown; otherwise the command table is shown, and the global flags appear exactly when some are declared |
| Command.MissingFlags | command.go:172-182 | the missing set holds only required names that were not supplied, and it is empty exactly when every required name was supplied |
| Command.CheckRequired | command.go:172-182 | the map-filling and `Visit`-deleting loops compute exactly the required names absent from the visited flags |
| Command.GlobalFlagFailure | command.go:130-149 | when the command line's flags fail to parse, the help command runs on the arguments after the first exactly when there is one; otherwise the flag package's default usage for the program is shown |
| Command.SubcommandFlagUsage | command.go:165-167 | a subcommand flag set that fails to parse shows the usage the command's `Flags` installed when it installs one, and otherwise the flag package's default for the set named after the command |
| Command.Parse | command.go:128-187 | a normal return never changes the registry, the global flags or the defined help command |
| Command.Run | command.go:191-199 | with no match it does nothing; with `-h` it shows the subcommand's usage; otherwise it runs the matched handler on the stored arguments |
| Command.ParseAndRun | command.go:202-205 | the process stops exactly when `Parse` does not return, carrying `Parse`'s outcome; otherwise `Parse` returned the final state and the result is `Run` on it |
| Command.PrintUsageSorted | command.go:73-85 | one line per registered name, each with its description, in strictly ascending order |
| CommandFacts.OnLastWriteWins | command.go:64-71 | registering twice under one name is the same as registering the second record alone |
| CommandFacts.OnDistinctNamesCommute | command.go:64-71 | registrations under different names commute |
| CommandFacts.DefinedHelpTakesPrecedence | command.go:130-147 | after `DefineHelp(h)`, the help command is `h`, even once a command named "help" is registered |
| CommandFacts.RegisteredHelpEnables | command.go:134-142 | without `DefineHelp`, registering "help" makes that handler the help command |
| CommandFacts.EmptyRegistryIsNoOp | command.go:149-155 | with nothing registered and nothing matched, from any state (with or without a defined help command), `Parse` returns the state unchanged once the global flags parse, and the following `Run` is a no-op |
| CommandFacts.NoCommandSelected | command.go:157-186 | with commands registered, no positional argument or an unregistered first argument shows the command table and exits with 1 |
| CommandFacts.ParseSelectsExactly | command.go:163-182 | `Parse` records match `m` if and only if the independent `Selects` description holds, and a non-empty registry never returns without a match |
| CommandFacts.ParseRunsOnlyTheHelpHook | command.go:130-149 | `Parse` never runs the selected command; a handler runs only when the command line's flags fail to parse, and it is the help command, run on the arguments after the first |
| CommandFacts.GlobalFlagFailureRunsHelpHook | command.go:130-149 | when the command line's flags fail to parse, `Parse` ends with the help hook: the help command runs on the arguments after the first when there is one, and otherwise the default usage for the program is shown |
| CommandFacts.SubcommandFlagFailure | command.go:164-167 | when the selected command's flags fail to parse, `Parse` ends showing that flag set's usage: the command's own usage function if its `Flags` installs one, else the defaults for the set named after the command |
| CommandFacts.SelectedCommandIsNamed | command.go:163-169 | in a non-empty registry keyed by name, a normal return of `Parse` always records a match, and the matched command carries the name given as the first positional argument |
| CommandFacts.RequiredFlagsCheckedBeforeHelp | command.go:171-182 | a missing required flag exits with 1 and the subcommand's usage, whether or not `-h` is set |
| CommandFacts.RequiredFlagsOrderIrrelevant | command.go:172-182 | the missing set depends only on the set of required names, not on their order |
| CommandFacts.RequiredBothFlags | command.go:172-182 | with required flags A and B the check passes exactly when both were supplied |
| CommandFacts.ParseThenRun | command.go:191-205 | after a selecting `Parse`, `Run` runs the selected handler on the subcommand parser's residual, or shows its usage under `-h` |
| CommandFacts.SecondOfTwoCommandsRuns | command_test.go:99-114 | with two commands registered, naming the second runs only the second, with no arguments |
| CommandFacts.UsageListingDeterminate | command.go:73-85 | any two listings meeting the usage postcondition are equal, so map order never shows |
| Commander.DeclaredFlags | commander.go:114-116 | a handler without `Flags` declares no flags |
| Commander.On | commander.go:79-86 | registering sets the entry for `name` to the new record; the other entries, the name and the flags of the commander are unchanged; registries keyed by name stay so |
| Commander.GetContainer | commander.go:189-194 | nothing exactly when there is no token or the first token is not a key; otherwise the record under that exact key |
| Commander.NumOfGlobalFlags | commander.go:196-205 | a nil flag set counts zero flags, and the count is zero exactly for nil or an empty flag set |
| Commander.Usage | commander.go:162-186 | the usage names the given path and registry, and lists flags exactly when a non-empty flag set is given |
| Commander.Prepare | commander.go:106-121 | `Path` is called exactly for a Commander, `Flags` exactly for a Flagger, `Compgens` exactly for a Completer, in that order; the flag set and terminator carry the display name; a Commander installs its own usage on the flag set and registers itself as the positional generator, and a leaf's flag set shows the usage its `Flags` installed, or the flag package's default when it installs none |
| Commander.Launch | commander.go:123-129 | a parse failure shows the flag set's usage; otherwise a leaf runs on the parser's residual and a nested commander dispatches the residual under the given name |
| Commander.RunAt | commander.go:95-105 | an empty or unregistered first token shows the commander's usage without flags and exits with 1; a match launches that record under `path + " " + name` on the whole argument list |
| Commander.Run | commander.go:95-105 | on a commander whose `Path` stored its name: an empty or unregistered first token shows its usage without flags and exits with 1; a match launches that record under `name + " " + record name` on the whole argument list |
| Commander.Compgen | commander.go:131-159 | at position 0 the pool is exactly the registered names, with the typed prefix; past it, the result is no completion exactly when the first token is unregistered and a delegation exactly when it is registered, to the terminator prepared for that record with the same arguments |
| Commander.GatherRecords | commander.go:169-172 | ranging over the registry yields every record once, with distinct names |
| Commander.UsageEntries | commander.go:168-173 | the usage table is every registered record exactly once, strictly ascending by name |
| CommanderFacts.OnLastWriteWins | commander.go:79-86 | registering twice under one name is the same as registering the second record alone |
| CommanderFacts.LaunchRunsRegistered | commander.go:123-129 | whatever the flag parser does, a handler run by `Launch` is a leaf registered below the launched handler |
| CommanderFacts.RunRunsRegistered | commander.go:95-105 | a handler run by `Run` is a leaf registered under a key path that starts with the first token |
| CommanderFacts.PassthroughFollowsPath | commander.go:95-129 | when no token is a flag, a command line spelling a key path runs the leaf there on the remaining tokens, and one stopping at a nested commander shows that commander's usage under the joined display name |
| CommanderFacts.NestedMissShowsNestedUsage | commander.go:95-129 | a nested commander that cannot match its next token shows its own usage under `path + " " + token`, not its parent's |
| CommanderFacts.CompletionAgreesWithDispatch | commander.go:144-157 | where completion finds no command, dispatch shows the top usage; where it delegates, dispatch launches the same record under the terminator's name |
| CommanderFacts.UsageTableIndependentOfOrder | commander.go:168-173 | sorting any two gatherings of the registry by name gives the same table |
| CommanderFacts.GitRunsAdd | commander.go:95-129 | in the `git` / `remote add` tree, `remote add http://x` runs `add` on `http://x` |
| CommanderFacts.GitRunsVersion | commander.go:95-129 | `version extra` runs `version` on `extra` |
| CommanderFacts.GitRejectsUnknown | commander.go:95-105 | `bogus` shows the root usage of `git` |
| CommanderFacts.GitRejectsUnknownNested | commander.go:95-129 | `remote bogus` shows the usage of `git remote`, not of `git` |
| CommanderFacts.GitCompletesNested | commander.go:144-156 | completing after `remote add ` delegates to the terminator for `git remote`, whose positional generator is the nested commander |

## Left out

- Text layout (`fmt`, `tabwriter`, `%-15s` columns) and stdout versus stderr: usage is the `Display` value, and the rendered table is the ordered record list.
- The flag package's internals: tokenising, value coercion, defaults, `PrintDefaults`. It is the `Parser` oracle. Its only assumed property is that parsing no tokens succeeds with nothing left over.
- The exit status the flag package uses under `flag.ExitOnError` (2, or 0 for its own help request): this is the `FlagFailure` outcome.
- command.go under `flag.ContinueOnError`, the command-line flag set that the tests' `resetForTesting` installs: there `Parse` ignores a parse error. Only the program's own `ExitOnError` command line is modelled.
- `flag.Usage` surviving from an earlier `Parse` call in the same process: the model assumes the flag package's default usage is in place whenever no help command is installed.
- `subcommandUsage` calling the handler's `Flags` a second time, and a `Flags` that returns a flag set other than the one it was given.
- `term.Terminate()` in `Launch`: it finishes the process when the program is invoked by a shell for completion. The model assumes a normal invocation.
- The compgen library: `compgen.Prefix` becomes the inputs `pos` and `prefix`; `ValueGen` prefix filtering and `Terminator.Compgen` stay with the collaborator.
- Commander.Compgen: the candidates a delegated completion produces are not stated, only the terminator it delegates to, because they come from the terminator.
- Command.Parse: what a command's own usage function prints is not modelled, because it is the handler's code. The model records only that the flag set shows it (`HandlerUsage`).
- Commander.Prepare: what a leaf's own usage function prints is not modelled, because it is the handler's code. The model records only that the flag set shows it (`HandlerUsage`).
- A type embedding `commander` that overrides `Flags` without calling the embedded one: the model always installs the commander's usage hook.
- `NewCommander` and `Path` as separate operations: a fresh commander is `Node("", map[], {})`, and the effect of `Path` is the display name that `Launch` passes down.
- Commander.Launch: requires at least one token, because the Go code slices `args[1:]` and panics on an empty list.
- Sorting.SortBy: stability is not stated in the contract. It is not needed because registry names are unique keys, and the uniqueness lemma shows every sort agrees on distinct keys.
- Byte-wise string order: Go compares strings as UTF-8 bytes, and the model compares `char` code points. The two orders agree on valid UTF-8 text. Strings that are not valid UTF-8 are not modelled.
- Shared or self-containing commanders: `Handler` is an inductive value, so it cannot express one commander object registered in two places or inside itself. In Go both are possible through pointers, and then each `Path` call overwrites the shared object's name.
- `resetForTesting` and the package globals' mutability: states are values, and a fresh state is `Initial(globals)`.
