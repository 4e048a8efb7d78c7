# rsworktree in Dafny

`rsworktree` manages git worktrees kept under `<repository root>/.rsworktree`.
Its subcommands are:

- `create`: add a worktree on a branch of the same name, created from a base when it does not exist yet;
- `cd`: open a shell inside a worktree, or print its path;
- `ls`: find the worktrees by a breadth-first walk;
- `rm`: remove a worktree, optionally with its local branch;
- `pr-github`: push the worktree's branch and open a pull request with `gh`;
- `merge` and `merge-pr-github`: merge that pull request, then optionally delete the branches;
- `open-editor`: start the preferred editor on a worktree.

Run without a subcommand, it opens an interactive picker in the terminal.
The picker shows a worktree list, an action panel and a global-action panel, a status line, and at most one dialog.
Every key either changes that state or ends the session with a selection, which the runtime then carries out.

This project models, in Dafny:

- the picker's state machine and its dialogs, as classes whose methods update their fields;
- the renderer's window, mark and highlight rules;
- the runtime around the picker;
- every subcommand above;
- the repository handle and the editor preference and launch logic.

Each handler that changes state step by step is a method.
Its `ensures` ties the new state to a function of the old one, such as `NavUp`, `Confirm`, `Submit` or a command's `Trace`.
The lemmas about those functions state what the program promises:

- indices stay in range and navigation steps are inverse;
- validation comes before any callback;
- argument vectors have a fixed layout;
- command sequences stop at the first failure, and the failures tolerated are exactly the ones the code names;
- a displayed command reads back as the vector that was run;
- the `.gitignore` entry is appended once and then left alone;
- the editor preference is taken in a fixed order of precedence;
- each launch outcome maps to one status.

Git, `gh`, the file system, the terminal and the operating system are inputs:

- Commands run through `git` and `gh` are answered from a queue of prepared responses (`Runner.ScriptedRunner`), the way the commands' tests drive them.
- `rm` and `open-editor` read a record of recorded answers.
- Parsers and hashers from libraries are function parameters.

The picker files `command.rs`, `dialog.rs`, `view.rs` and `runtime.rs` (under `src/commands/interactive`) come from different revisions of the program.
Each is modelled as written.
So the picker's `Selection` has three variants while the runtime's has four.
The picker takes two callbacks while the runtime passes three.

Where the program's written description and its code disagree, the model follows the code:

- Up and Down in an empty worktree list do nothing. They do not move to the global actions or open the create dialog.
- After a removal the list may have no selection while it still has entries.
- The action panel offers three actions: Open, Remove and PR (GitHub).

## Model

| member | source | states |
|---|---|---|
| EditorSupport.AllListsEachOnce | src/editor/support.rs:12-17 | `ALL` names every supported editor, and none twice |
| EditorSupport.CommandsIdentifyEditors | src/editor/support.rs:19-39 | `matches_command` accepts each editor's own command, and no command matches two different editors |
| EditorSupport.CommandIsLowerLabel | src/editor/support.rs:19-35 | each editor's command is its label in lower case |
| EditorSupport.SupportedEditorCommands | src/editor/support.rs:42-46 | one (command, label) pair per editor, in the order of `ALL` |
| Preference.Name | src/editor/preference.rs:40-45 | `EDITOR` names exactly the Editor variable and `VISUAL` exactly the Visual one |
| Preference.LoadFromConfigLoop | src/editor/preference.rs:110-148 | the loop copying the arguments gives the file's verdict (`LoadFromConfig`) |
| Preference.ConfigRules | src/editor/preference.rs:110-148 | no `editor` entry defers to the environment; a read or parse failure or a blank command is `ConfigInvalid` for this path; otherwise the command and arguments are used as written, tagged with the file |
| Preference.EnvRules | src/editor/preference.rs:150-187 | an unset or empty variable, or one that splits into no words, defers; non-Unicode text or a split error is `EnvInvalid` for that variable; otherwise the first word is the program and the rest its arguments, in order |
| Preference.ResolveLoop | src/editor/preference.rs:74-108 | the loop over the file, then EDITOR, then VISUAL, returns `ResolveEditorPreference` |
| Preference.Precedence | src/editor/preference.rs:74-108 | the file wins when it names an editor and stops the search when invalid; then EDITOR, which also stops the search when invalid; then VISUAL; `NotConfigured` exactly when every source defers |
| Launch.MissingPathNeverSpawns | src/editor/launch.rs:20-30 | a worktree path that no longer exists is `InvalidWorktreePath` and nothing is started |
| Launch.LaunchClassification | src/editor/launch.rs:32-109 | the program is started with the preference's arguments then the path; `Success` exactly when it started and, if waited for, exited successfully; `EditorMissing` exactly when not found; `SpawnError` otherwise |
| Launch.SpawnWaitsAsAsked | src/editor/launch.rs:36-109 | a started program is waited for exactly when the request asks |
| Editors.DescribedAll | src/editor/mod.rs:59-61 | each supported editor described as "Label (`command`)", one per editor, in order |
| Editors.MissingPreferenceRules | src/editor/mod.rs:56-88 | nothing configured is `PreferenceMissing` and its message names every supported editor as "Label (`command`)"; an invalid file or variable is `ConfigurationError` |
| Editors.SupportedListNames | src/editor/mod.rs:58-62 | the joined list names every supported editor |
| Editors.LaunchAttemptRules | src/editor/mod.rs:26-51 | a found preference gives exactly `launch_editor`'s outcome; a missing one starts nothing and reports `PreferenceMissing` or `ConfigurationError` |
| Editors.LaunchWorktreeLogsOnce | src/editor/mod.rs:26-51 | every attempt is logged exactly once, with the final status and message |
| Editors.AttemptWaitsAsAsked | src/editor/mod.rs:26-40 | whatever a resolved preference starts is waited for exactly when asked |
| Editors.LaunchWorktreeWaitsAsAsked | src/editor/mod.rs:20-54 | whatever `launch_worktree` starts is waited for exactly when asked |
| Repository.WorktreesDir | src/repo/mod.rs:52-54 | the worktrees directory is the `.rsworktree` child of the root |
| Repository.EntryIsIgnoreLine | src/repo/mod.rs:102-107 | the entry written is itself a line `gitignore_has_entry` accepts |
| Repository.LinesOfTerminated | src/repo/mod.rs:80-84 | the separating newline added to an unterminated file adds no line |
| Repository.AppendedLines | src/repo/mod.rs:80-92 | after the append the file's lines are the old lines followed by the entry |
| Repository.CreatedHasEntry | src/repo/mod.rs:93-96 | a created file has the entry, on exactly one line |
| Repository.AppendedHasEntryOnce | src/repo/mod.rs:75-92 | appending to a file without the entry leaves exactly one ignore line |
| Repository.EnsureCreates | src/repo/mod.rs:93-96 | a missing file is created as exactly the entry and a newline |
| Repository.EnsureAppends | src/repo/mod.rs:71-92 | a file without the entry keeps its text as a prefix and gains exactly one ignore line |
| Repository.EnsureKeeps | src/repo/mod.rs:71-73 | a file that already has the entry is left as it is |
| Repository.EnsureAddsEntry | src/repo/mod.rs:64-99 | without a failure the file ends up with the entry, once when it had none, and an existing file keeps its old text as a prefix |
| Repository.EnsureIdempotent | src/repo/mod.rs:64-99 | ensuring the entry a second time passes and leaves the file unchanged |
| Repository.AppendOnlyGrows | src/repo/mod.rs:75-92 | whichever write fails, the old text stays a prefix and what was added is a prefix of separator, entry and newline; the append passes exactly when no write fails |
| Repository.Repo.constructor | src/repo/mod.rs:14-16 | the repository with its root and `.gitignore` text |
| Repository.Repo.WriteAll | src/repo/mod.rs:81-92 | one write appends its chunk, or fails with its context and leaves the file as it was |
| Repository.Repo.EnsureGitignoreEntry | src/repo/mod.rs:64-99 | the result and the new file are those of `EnsureGitignore` on the old file |
| Repository.Repo.EnsureWorktreesDir | src/repo/mod.rs:56-62 | the entry is ensured first; its failure, or a failure creating the directory, is the error; otherwise the worktrees directory |
| Cd.ShellCommand | src/commands/cd/mod.rs:63-77 | the shell program chosen is never blank |
| Cd.ShellPrecedence | src/commands/cd/mod.rs:63-77 | a non-blank RSWORKTREE_SHELL wins and is started without arguments; otherwise a non-blank SHELL with "-i"; otherwise "/bin/sh -i"; blank values count as unset |
| Cd.MissingWorktree | src/commands/cd/mod.rs:21-31 | a worktree that does not exist is an error saying so, and nothing is printed or started |
| Cd.PrintOnlyNeverSpawns | src/commands/cd/mod.rs:33-47 | with `--print` no shell is started; the command passes exactly when the worktree exists and resolves, and then prints its canonical path |
| Cd.ShellInWorktree | src/commands/cd/mod.rs:49-59 | without `--print` the chosen shell starts in the canonical directory, and the command passes exactly when the shell exits successfully |
| Create.SanitizeChar | src/commands/create/mod.rs:155-159 | a sanitised character is always allowed, and equals the input exactly when the input was allowed |
| Create.SanitizePointwise | src/commands/create/mod.rs:153-160 | sanitising maps each character on its own, keeping the length |
| Create.SanitizeKeepsAllowed | src/commands/create/mod.rs:153-160 | a name is unchanged by sanitising exactly when all its characters are allowed; sanitising is idempotent |
| Create.SanitizeAppend | src/commands/create/mod.rs:153-160 | sanitising distributes over concatenation |
| Create.TrimMatchesEmptyIff | src/commands/create/mod.rs:166-167 | trimming the dashes leaves nothing exactly when the text is all dashes |
| Create.MiddleShape | src/commands/create/mod.rs:166-171 | the middle is 1 to 48 allowed characters: "worktree" when the sanitised name is all dashes, else the first min(length, 48) sanitised characters |
| Create.MetadataNameShape | src/commands/create/mod.rs:149-174 | "rsworktree-", the middle, '-' and 16 hexadecimal digits that read back as the hash; no character outside the allowed set |
| Create.MetadataNameAllowed | src/commands/create/mod.rs:149-174 | the metadata name holds only allowed characters, so no path separator |
| Create.AllowedNameKept | src/commands/create/mod.rs:153-171 | a name of allowed characters, not all dashes, keeps its first 48 characters unchanged |
| Create.SanitizeWords | src/commands/create/mod.rs:155-159 | the '/' and the spaces between words of allowed characters become dashes, and the words are kept |
| Create.MiddleOfWords | src/commands/create/mod.rs:153-171 | a short name of such words has the whole sanitised name as its middle |
| Create.SanitizeExample | src/commands/create/mod.rs:268-274 | "feat/branch with spaces" gives the middle "feat-branch-with-spaces" |
| Create.SeparatorsOnlyExample | src/commands/create/mod.rs:277-281 | "///" gives the middle "worktree" |
| Create.PrepareBranchRule | src/commands/create/mod.rs:124-147 | an existing branch is reused without changes; a lookup error fails; a missing branch is created from the base (HEAD by default), and this passes exactly when resolving, peeling and creating all pass |
| Create.ExistingPathUntouched | src/commands/create/mod.rs:53-70 | an existing worktree path is `AlreadyExists`, with no change made |
| Create.CreatedAt | src/commands/create/mod.rs:72-91 | on a free path a success ends by adding the worktree under its metadata name on the branch; a branch was created exactly when none existed |
| Create.CreatedWorktree | src/commands/create/mod.rs:47-121 | a created worktree sits at `<worktrees dir>/<name>` on branch `<name>`, added last, and a branch was created exactly when it did not exist |
| Create.ExecuteEntersEitherWay | src/commands/create/mod.rs:28-45 | whether created or already there, `execute` then enters the worktree as `cd` without `--print` does |
| List.ScanStepResult | src/commands/list/mod.rs:65-86 | one entry: an unreadable entry or type stops the walk; otherwise a marked directory is reported, an unmarked one queued, a file skipped |
| List.ScanFails | src/commands/list/mod.rs:65-87 | scanning one directory fails exactly when one of its own entries or types cannot be read |
| List.ScanResult | src/commands/list/mod.rs:65-87 | a scan without such an error appends the marked directories to the results and the unmarked ones to the queue, in listing order |
| List.SplitOne | src/commands/list/mod.rs:70-86 | one entry's worktrees are its own report when marked, or those below it when queued; so are its errors |
| List.SplitEntries | src/commands/list/mod.rs:70-86 | splitting a directory into reported and queued entries loses no worktree and no error |
| List.BfsFindsAll | src/commands/list/mod.rs:64-88 | the walk succeeds exactly when no queued directory has an error below it, and then adds exactly the worktrees below the queue |
| List.FindWorktreesCorrect | src/commands/list/mod.rs:59-92 | `find_worktrees` succeeds exactly when the walk meets no error, and returns, sorted, exactly the git-marked directories reached through unmarked ones, relative to the base |
| List.FindWorktreesLoop | src/commands/list/mod.rs:59-92 | the queue loop with its inner entry loop returns `FindWorktrees` |
| List.FormatWorktreeRoundTrip | src/commands/list/mod.rs:94-99 | a relative path's text split at '/' gives its components back |
| List.EntryLines | src/commands/list/mod.rs:43-52 | one "- " line per worktree, in order |
| List.ListLinesShape | src/commands/list/mod.rs:16-56 | a failed walk is the error; otherwise one header, then "(none)" for no worktree or each worktree's line in order |
| Runtime.PickerEntries | src/commands/interactive/runtime.rs:43-49 | one picker row per found worktree, in order: its display and its full path |
| Runtime.PickerEntryReadsBack | src/commands/interactive/runtime.rs:45-48 | a row's name splits back into the found components, and its path is the worktrees directory joined with exactly those components |
| Runtime.PickerNamesDistinct | src/commands/interactive/runtime.rs:43-49 | distinct worktrees get distinct names in the picker |
| Runtime.LoadBranchesLoop | src/commands/interactive/runtime.rs:181-220 | the `while let` loop over the branch iterator returns `LoadBranches` |
| Runtime.CollectFails | src/commands/interactive/runtime.rs:200-208 | the walk over the branches fails exactly when some item is an error |
| Runtime.CollectResult | src/commands/interactive/runtime.rs:200-210 | a successful walk keeps the set strictly sorted and adds exactly the items' names |
| Runtime.NamesOfMembers | src/commands/interactive/runtime.rs:201-207 | a name is added exactly when some item yields it and it is not empty |
| Runtime.LoadBranchesRules | src/commands/interactive/runtime.rs:181-220 | the branches are strictly sorted and are exactly HEAD's branch and every non-empty local branch name; the default is HEAD's branch, always among them; any read error fails the load |
| Runtime.RemoveAdapterRules | src/commands/interactive/runtime.rs:69-75 | the picker's removal is unforced and quiet, forwards the local-branch choice and never starts a shell |
| Runtime.CreateAdapterRules | src/commands/interactive/runtime.rs:76-85 | creation passes exactly when a new worktree is added; a name already taken is an error naming it and changes nothing; other failures keep their message |
| Runtime.CombineRules | src/commands/interactive/runtime.rs:88-99 | the selection is used only when the picker and the terminal's restoration both succeed; a lone error is passed on; two errors are reported together |
| Runtime.SingleDispatchRules | src/commands/interactive/runtime.rs:101-123 | the repository root, a worktree or a pull request selection runs exactly one command: the root shell, `cd` with a shell, or a pull request pushed first, not a draft, to "origin" |
| Runtime.MergeDispatchRules | src/commands/interactive/runtime.rs:124-143 | the merge flags reach the merge command as chosen; the worktree is removed exactly when asked and the merge succeeded; a failed merge's error is the result |
| Runtime.ConfigureMerge | src/commands/interactive/runtime.rs:130-136 | the merge command starts from its defaults, keeps the local branch when not to be deleted and deletes the remote branch when asked |
| Runtime.CdRepoRootRules | src/commands/interactive/runtime.rs:156-179 | a missing root starts nothing; otherwise the chosen shell starts in the canonical root, or the root as given when it does not resolve, and the result is the shell's success |
| Runtime.RunDispatchesOnlyAfterCleanSession | src/commands/interactive/runtime.rs:40-148 | nothing is run unless the worktrees and branches load, the terminal is set up and the session and its cleanup succeed; then exactly the chosen selection is dispatched |
| ShellQuote.EscapeQuotes | src/commands/pr_github/mod.rs:288 | the escaped text is never shorter, and text without a single quote is unchanged |
| ShellQuote.QuoteArgAsWritten | src/commands/pr_github/mod.rs:281-291 | a value is shown unchanged exactly when all its characters are safe; otherwise it is wrapped in single quotes |
| ShellQuote.QuoteArg | src/commands/pr_github/mod.rs:281-291 | the corrected quoting: agrees with the source for every non-empty value, never yields the empty word, and leaves a value unquoted exactly when it is non-empty and safe |
| ShellQuote.QuotedPartsAsWritten | src/commands/pr_github/mod.rs:247-254 | one quoted part per word, in order, as the source quotes them |
| ShellQuote.QuotedParts | src/commands/pr_github/mod.rs:247-254 | one quoted part per word, in order, under the corrected quoting |
| ShellQuote.ScanEscaped | src/commands/pr_github/mod.rs:288-289 | inside single quotes, the escaped text reads back as the original text, single quotes included |
| ShellQuote.QuotedForm | src/commands/pr_github/mod.rs:281-291 | any value, escaped and put between single quotes, reads back as one word holding exactly that value |
| ShellQuote.QuoteArgReadsBack | src/commands/pr_github/mod.rs:281-291 | every quoted value reads back, under the POSIX shell's quoting rules, as exactly that value |
| ShellQuote.ScanQuotedJoin | src/commands/pr_github/mod.rs:247-254 | quoted words joined by single spaces read back as those words, in order |
| ShellQuote.FormatCommandReadsBack | src/commands/pr_github/mod.rs:247-254 | the displayed command line reads back as the program followed by exactly the arguments that were run |
| ShellQuote.QuoteArgAsWrittenReadsBack | src/commands/pr_github/mod.rs:281-291 | for non-empty values the source's quoting reads back as the value |
| ShellQuote.EmptyArgumentShownAsNothing | src/commands/pr_github/mod.rs:281-291 | as written, a trailing empty argument is displayed as nothing after the last space |
| ShellQuote.EmptyArgumentVanishes | src/commands/pr_github/mod.rs:247-291 | as written, `program flag ""` reads back without its empty argument; with the corrected quoting it reads back whole |
| Runner.Drop | src/commands/pr_github/mod.rs:379-381 | the queue after `n` answered calls gives the answer for each later call |
| Runner.DropDrop | src/commands/pr_github/mod.rs:379-381 | answering `m` calls then `n` leaves the queue of answering `m + n` |
| Runner.StatusText | src/commands/pr_github/mod.rs:226-229 | "termination by signal" exactly when there is no exit code |
| Runner.CommandFailure | src/commands/pr_github/mod.rs:224-239 | the message starts with the quoted command (under the corrected quoting) and its status, and is followed by a newline and the trimmed standard error exactly when that is not empty |
| Runner.CommandFailureNamesCommand | src/commands/pr_github/mod.rs:224-239 | the failure message contains the displayed command line |
| Runner.CommandFailureMatchesSource | src/commands/pr_github/mod.rs:224-254 | when the program and every argument are non-empty, the message is exactly the source's: its own `format_command` line, the status, and the trimmed standard error on a new line when there is one |
| ShellQuote.FormatCommandAgreesWithSource | src/commands/pr_github/mod.rs:247-291 | with no empty word, the corrected command line equals the one the source displays |
| Runner.ScriptedRunner.constructor | src/commands/pr_github/mod.rs:355-358 | a runner with the given prepared responses and no calls yet |
| Runner.ScriptedRunner.Run | src/commands/pr_github/mod.rs:367-382 | the call is recorded at the end of the list and answered by the next prepared response, or by "unexpected command invocation" when none is left |
| Runner.StepOutcome | src/commands/pr_github/mod.rs:125-132 | a step passes exactly when the runner answered and the process succeeded |
| Runner.RunStep | src/commands/pr_github/mod.rs:142-163 | one call is recorded, one response consumed, and the outcome is the step's verdict on that response |
| Runner.CallsOf | src/commands/pr_github/mod.rs:93-103 | the calls of a list of steps, one per step, in order |
| Runner.RunSteps | src/commands/pr_github/mod.rs:93-103 | a run makes at least one call and at most one per step |
| Runner.RunStepsCallsInOrder | src/commands/pr_github/mod.rs:93-103 | the calls made are a prefix of the steps' calls, in order |
| Runner.RunStepsPassIff | src/commands/pr_github/mod.rs:93-103 | a run passes exactly when every step's response succeeds, and then every step was called |
| Runner.RunStepsStopsAtFailure | src/commands/pr_github/mod.rs:93-103 | a failed run stops at its last call: every earlier call succeeded, the last did not, and its error is reported |
| PrGithub.WorktreePath | src/commands/pr_github/mod.rs:106-117 | the worktree path is `<worktrees dir>/<name>` exactly when the directory was prepared and the path exists; a missing one is reported as not existing |
| PrGithub.BranchFrom | src/commands/pr_github/mod.rs:119-140 | the branch is found exactly when `git rev-parse` succeeded with non-blank output, and is that output trimmed |
| PrGithub.AllowsNoninteractiveTrimmed | src/commands/pr_github/mod.rs:256-279 | surrounding whitespace does not change the verdict, and a bare `--` never allows non-interactive mode |
| PrGithub.AnySuffices | src/commands/pr_github/mod.rs:210-213 | one extra argument that allows non-interactive mode is enough |
| PrGithub.AnyWitness | src/commands/pr_github/mod.rs:210-213 | when the check passes there is an argument that allows it |
| PrGithub.AnyIff | src/commands/pr_github/mod.rs:210-216 | the extra arguments pass exactly when one of them allows non-interactive mode |
| PrGithub.FlagArgs | src/commands/pr_github/mod.rs:174-182 | `--draft`, `--fill` and `--web` appear exactly when their options are set, at most three flags |
| PrGithub.ReviewerArgs | src/commands/pr_github/mod.rs:184-187 | two arguments per reviewer |
| PrGithub.ReviewerArgsPairs | src/commands/pr_github/mod.rs:184-187 | each reviewer directly follows its own `--reviewer` flag, in order |
| PrGithub.ReviewerArgsSnoc | src/commands/pr_github/mod.rs:184-187 | one more reviewer adds its flag and name at the end |
| PrGithub.CreateArgsLayout | src/commands/pr_github/mod.rs:170-189 | the `gh pr create` arguments are `pr create --head <branch>`, the flags, each reviewer after its flag, then the extra arguments unchanged |
| PrGithub.CreateArgsHead | src/commands/pr_github/mod.rs:170-172 | the list starts with `pr create --head <branch>` and ends with the extra arguments |
| PrGithub.CreateArgsReviewers | src/commands/pr_github/mod.rs:184-187 | after the flags, each reviewer follows its own `--reviewer` |
| PrGithub.ReviewersBetween | src/commands/pr_github/mod.rs:184-189 | reviewer pairs keep their places between any head and tail |
| PrGithub.MetadataFailureStopsAfterRevParse | src/commands/pr_github/mod.rs:78-91 | without metadata options the command fails after `git rev-parse` alone, with the non-interactive-mode message |
| PrGithub.PrRunOrder | src/commands/pr_github/mod.rs:78-104 | the calls are rev-parse, then push when enabled, then `gh pr create`, stopping at the first failure; the command succeeds exactly when each of them does |
| PrGithub.NoPushStep | src/commands/pr_github/mod.rs:93-103 | with pushing disabled the only step is the `gh` call |
| PrGithub.NoPushWhenDisabled | src/commands/pr_github/mod.rs:93-101 | with pushing disabled at most two calls are made and none after `git rev-parse` is a `git` call |
| PrGithub.DetermineBranch | src/commands/pr_github/mod.rs:119-140 | makes exactly the `git rev-parse --abbrev-ref HEAD` call in the worktree and returns `BranchFrom` of its answer |
| PrGithub.PrGithubCommand.constructor | src/commands/pr_github/mod.rs:54-76 | the command holds the given options and runner |
| PrGithub.PrGithubCommand.PushBranch | src/commands/pr_github/mod.rs:142-163 | makes exactly the `git push -u <remote> <branch>` call and passes exactly when it succeeded |
| PrGithub.PrGithubCommand.BuildCreateArgs | src/commands/pr_github/mod.rs:170-189 | the loop builds exactly `CreateArgs` |
| PrGithub.PrGithubCommand.CreatePullRequest | src/commands/pr_github/mod.rs:165-203 | makes exactly the `gh pr create` call with `CreateArgs` and passes exactly when it succeeded |
| PrGithub.PrGithubCommand.PushAndCreate | src/commands/pr_github/mod.rs:93-103 | the calls and outcome are those of running the push (when enabled) then the pull request, stopping at the first failure |
| PrGithub.PrGithubCommand.ExecuteOnBranch | src/commands/pr_github/mod.rs:91-103 | the calls and outcome are those of `PrRunOnBranch` |
| PrGithub.PrGithubCommand.ExecuteIn | src/commands/pr_github/mod.rs:80-103 | the calls and outcome are those of `PrRunIn` |
| PrGithub.PrGithubCommand.Execute | src/commands/pr_github/mod.rs:78-104 | the calls made and the result are exactly those of `PrRun` |
| Merge.AllCallsInWorktree | src/commands/merge/mod.rs:32-157 | every call of `merge` runs in the worktree, and there are at most three |
| Merge.MergeOutcomeIff | src/commands/merge/mod.rs:45-51 | `merge` passes exactly when no pull request was found or the one found was merged, and the merge always asks `gh` to delete the branch |
| Merge.BranchDeleteFailureNotForgiven | src/commands/merge/mod.rs:134-149 | a `gh pr merge` that failed only at deleting the local branch fails `merge`, although `merge-pr-github` forgives it |
| Merge.MergeCommand.constructor | src/commands/merge/mod.rs:28-30 | the command holds the given name and runner |
| Merge.MergeCommand.MergePullRequest | src/commands/merge/mod.rs:128-157 | makes exactly the `gh pr merge <n> --merge --delete-branch` call in the worktree and passes exactly when it succeeded |
| Merge.MergeCommand.ExecuteIn | src/commands/merge/mod.rs:34-51 | the calls and outcome are those of `MergeRunIn` |
| Merge.MergeCommand.Execute | src/commands/merge/mod.rs:32-52 | the calls made and the result are exactly those of `MergeCommandRun` |
| MergePrGithub.PullRequestFrom | src/commands/merge_pr_github/mod.rs:108-144 | no pull request for blank output; the first listed number when the output is a non-empty list; unreadable output is the parse error; a failed call is never a result |
| MergePrGithub.ReportsIgnoreCase | src/commands/merge_pr_github/mod.rs:245-261 | neither failure check reacts to the case of the text |
| MergePrGithub.RemoteGoneInEitherStream | src/commands/merge_pr_github/mod.rs:254-261 | the "remote ref does not exist" phrase counts in either stream of a failed push |
| MergePrGithub.MergeArgsLayout | src/commands/merge_pr_github/mod.rs:153-161 | the merge call names the pull request by its decimal number, which reads back as that number, and asks for branch deletion exactly when told to |
| MergePrGithub.MergeOutcome | src/commands/merge_pr_github/mod.rs:163-172 | the merge passes exactly when `gh` answered and either succeeded or, with local deletion requested, failed only at deleting the branch |
| MergePrGithub.DeleteRemoteOutcome | src/commands/merge_pr_github/mod.rs:225-241 | deleting the remote branch passes exactly when `git` answered and either succeeded or reported the branch already gone |
| MergePrGithub.NoPullRequestNoMerge | src/commands/merge_pr_github/mod.rs:61-68 | without an open pull request the command passes after rev-parse and `gh pr list` alone |
| MergePrGithub.MergeSequence | src/commands/merge_pr_github/mod.rs:47-197 | when every call goes through the calls are rev-parse in the worktree, the lookup and the merge in the root, `git switch` in the worktree, and the remote deletion in the root only when asked |
| MergePrGithub.FailedMergeStops | src/commands/merge_pr_github/mod.rs:168-172 | a merge failure other than the forgiven branch deletion stops the command before the worktree is switched |
| MergePrGithub.FindPullRequest | src/commands/merge_pr_github/mod.rs:108-144 | makes exactly the `gh pr list` call and returns `PullRequestFrom` of its answer |
| MergePrGithub.MergePrGithubCommand.constructor | src/commands/merge_pr_github/mod.rs:30-37 | a new command deletes the local branch and keeps the remote one |
| MergePrGithub.MergePrGithubCommand.DisableRemoveLocal | src/commands/merge_pr_github/mod.rs:39-41 | only the local-branch setting changes, to off |
| MergePrGithub.MergePrGithubCommand.EnableRemoveRemote | src/commands/merge_pr_github/mod.rs:43-45 | only the remote-branch setting changes, to on |
| MergePrGithub.MergePrGithubCommand.RestoreWorktreeBranch | src/commands/merge_pr_github/mod.rs:199-215 | makes exactly the `git switch <branch>` call in the worktree and passes exactly when it succeeded |
| MergePrGithub.MergePrGithubCommand.DeleteRemoteBranch | src/commands/merge_pr_github/mod.rs:217-242 | makes exactly the `git push origin --delete <branch>` call in the root and gives `DeleteRemoteOutcome` |
| MergePrGithub.MergePrGithubCommand.FinishMerge | src/commands/merge_pr_github/mod.rs:190-196 | the calls and outcome are the switch back, then the remote deletion when enabled, stopping at a failed switch |
| MergePrGithub.MergePrGithubCommand.RunMerge | src/commands/merge_pr_github/mod.rs:153-172 | makes exactly the `gh pr merge` call in the root and gives `MergeOutcome` |
| MergePrGithub.MergePrGithubCommand.MergePullRequest | src/commands/merge_pr_github/mod.rs:146-197 | the calls and outcome are those of `MergeRun` |
| MergePrGithub.MergePrGithubCommand.FindAndMergeOnBranch | src/commands/merge_pr_github/mod.rs:61-69 | the calls and outcome are those of `FindAndMerge` |
| MergePrGithub.MergePrGithubCommand.ExecuteIn | src/commands/merge_pr_github/mod.rs:49-69 | the calls and outcome are those of `MergePrRunIn` |
| MergePrGithub.MergePrGithubCommand.Execute | src/commands/merge_pr_github/mod.rs:47-70 | the calls made and the result are exactly those of `MergePrRun` |
| Remove.NewRemoveCommand | src/commands/rm/mod.rs:35-43 | a new command keeps its name and force flag, is not quiet, keeps the local branch and spawns a root shell |
| Remove.BuildersIndependent | src/commands/rm/mod.rs:45-58 | each builder sets only its own flag, so the builders commute and name and force are untouched |
| Remove.FindInFirst | src/commands/rm/mod.rs:302-333 | the search answers for the first name that points at the target or cannot be opened: that name, or an error; no name exactly when no name does either |
| Remove.FindWorktreeName | src/commands/rm/mod.rs:302-333 | the loop with its early returns gives exactly the search's answer, and a failed listing is an error |
| Remove.ForceDeleteReferenceOutcome | src/commands/rm/mod.rs:290-299 | a reference already gone counts as deleted; only a failed lookup or deletion is an error; the deletion of `refs/heads/<name>` is attempted exactly when the reference was found |
| Remove.DeleteLocalBranchOutcome | src/commands/rm/mod.rs:228-288 | `NotFound` exactly when git reports the branch missing; `Deleted` only for a found branch, and whenever git or the reference fallback deleted it; a failed lookup is an error that deletes nothing; a forced removal never asks git to delete the branch |
| Remove.NothingToRemove | src/commands/rm/mod.rs:60-132 | a missing worktrees directory, path or registration is no error: nothing changes, nothing is repositioned, and the branch is reported not found exactly when its removal was asked for |
| Remove.LocalBranchReportedIffRequested | src/commands/rm/mod.rs:182-186 | a branch status is reported exactly when its removal was asked for |
| Remove.SpawnsAppend | src/commands/rm/mod.rs:207-219 | a shell is started in a sequence of changes exactly when it is started in one of its parts |
| Remove.DeleteLocalBranchNoShell | src/commands/rm/mod.rs:228-288 | deleting the local branch never starts a shell |
| Remove.AfterRemovalRule | src/commands/rm/mod.rs:174-225 | after the removal the command repositions exactly when needed, starts a shell only when repositioning with shells enabled, and then succeeds only when the shell does |
| Remove.RepositionRule | src/commands/rm/mod.rs:60-226 | after an actual removal the command repositions exactly when the current directory was inside the worktree or unreadable; a shell starts only then and with shells enabled, and success requires that shell to succeed |
| Remove.PruneLockedIffForced | src/commands/rm/mod.rs:138-147 | the first change is the prune of the registered worktree, which includes locked worktrees exactly when forced |
| Remove.RemoveHost.constructor | src/commands/rm/mod.rs:60-61 | the system starts with the given answers and no changes made |
| Remove.RemoveHost.Apply | src/commands/rm/mod.rs:145-219 | a change is recorded at the end of the log |
| Remove.RemoveHost.ForceDeleteRef | src/commands/rm/mod.rs:290-299 | the result and the changes are those of `ForceDeleteReference` |
| Remove.RemoveHost.DeleteLocal | src/commands/rm/mod.rs:228-288 | the result and the changes are those of `DeleteLocalBranch` |
| Remove.RemoveHost.MoveToRoot | src/commands/rm/mod.rs:188-220 | the result and the changes are those of `Reposition` |
| Remove.RemoveHost.FinishRemoval | src/commands/rm/mod.rs:174-225 | the result and the changes are those of `AfterRemoval` |
| Remove.RemoveHost.PruneWorktree | src/commands/rm/mod.rs:134-158 | the result and the changes are those of `PruneAndClean` |
| Remove.RemoveHost.RemoveRegistered | src/commands/rm/mod.rs:134-225 | the result and the changes are those of `RemoveFound` |
| Remove.RemoveHost.Execute | src/commands/rm/mod.rs:60-226 | the result and the changes made, in order, are exactly those of `RemoveRun` |
| OpenEditor.Filter | src/commands/open_editor/mod.rs:88-103 | only accepted entries are kept, and no more than there were |
| OpenEditor.FilterComplete | src/commands/open_editor/mod.rs:88-103 | an entry is kept exactly when it is among the entries and accepted |
| OpenEditor.MatchesOf | src/commands/open_editor/mod.rs:88-103 | every match answers to the name, by its whole display, its display's tail after a `/`, or its last component |
| OpenEditor.Displays | src/commands/open_editor/mod.rs:113-117 | one display per match, in order |
| OpenEditor.MatchesComplete | src/commands/open_editor/mod.rs:90-103 | every worktree that answers to the name is among the matches, and only those |
| OpenEditor.FilterLoop | src/commands/open_editor/mod.rs:88-103 | the loop keeps exactly the accepted entries, in order |
| OpenEditor.FilterStep | src/commands/open_editor/mod.rs:100-102 | deciding on one entry moves it, when kept, from the pending part onto the matches |
| OpenEditor.CollectMatches | src/commands/open_editor/mod.rs:88-103 | the loop collects exactly the matches |
| OpenEditor.ResolveByNameLoop | src/commands/open_editor/mod.rs:84-144 | the walk and the loop give exactly `resolve_by_name`'s answer |
| OpenEditor.ByNameNotFound | src/commands/open_editor/mod.rs:105-110 | there are no matches exactly when no worktree answers to the name, and then the lookup fails with "not found" |
| OpenEditor.ByNameAmbiguous | src/commands/open_editor/mod.rs:112-123 | two or more matches are the "ambiguous" error, whose message names every matching worktree |
| OpenEditor.ByNameUnique | src/commands/open_editor/mod.rs:125-143 | a successful lookup found exactly one match and gives its display and canonical path; with one match it succeeds exactly when the path exists and resolves |
| OpenEditor.ByPathShowsListedName | src/commands/open_editor/mod.rs:159-160 | a path inside the worktrees directory is shown as `list` shows it, so opening by path and by name agree on the name |
| OpenEditor.ByPathOutside | src/commands/open_editor/mod.rs:161-165 | outside the worktrees directory the display is the file name, or the whole path when there is none |
| OpenEditor.TargetPrecedence | src/commands/open_editor/mod.rs:66-76 | `--path` wins over a name, and giving neither is an error |
| OpenEditor.ReportRules | src/commands/open_editor/mod.rs:45-63 | the command passes exactly when the launch succeeded or found no preference, otherwise fails with the launch's message |
| OpenEditor.ExecuteStatusMapping | src/commands/open_editor/mod.rs:22-64 | an unresolved target fails before anything is started or logged; otherwise the command passes exactly when the launch succeeded or found no preference |
| OpenEditor.OpenEditorNeverWaits | src/commands/open_editor/mod.rs:24 | the editor is started in the background and never waited for |
| OpenEditor.ExecuteLogsTwice | src/commands/open_editor/mod.rs:24-32 | a resolved attempt is logged twice, identically, under the resolved name |
| OpenEditor.ReportLogsAgain | src/commands/open_editor/mod.rs:26-31 | the command logs the launch's entry a second time, unchanged |
| Interactive.FocusNextPrevInverse | src/commands/interactive/mod.rs:39-55 | Shift-Tab undoes Tab and Tab undoes Shift-Tab |
| Interactive.FocusCycle | src/commands/interactive/mod.rs:40-46 | three presses of Tab visit each of the three panels once and come back |
| Interactive.ActionFromIndex | src/commands/interactive/mod.rs:88-90 | any index names one of the offered actions |
| Interactive.ActionIndex | src/commands/interactive/mod.rs:74 | each action sits at its position in `ALL` |
| Interactive.ActionIndexRoundTrip | src/commands/interactive/mod.rs:74-90 | `from_index` and the position in `ALL` are inverse, up to the modulus |
| Interactive.ActionLabelsDistinct | src/commands/interactive/mod.rs:76-86 | the labels tell the actions apart, and every action needs a selected worktree |
| Interactive.InfoStatus | src/commands/interactive/mod.rs:106-111 | an informational status carrying the given text |
| Interactive.ErrorStatus | src/commands/interactive/mod.rs:113-118 | an error status carrying the given text |
| Interactive.Cycle | src/commands/interactive/command.rs:576 | the wrapped index always lies inside the row |
| Interactive.CycleStep | src/commands/interactive/command.rs:571-589 | one step forward from the last entry wraps to the first, and one step back from the first wraps to the last |
| Interactive.CycleInverse | src/commands/interactive/command.rs:571-589 | moving `delta` steps and then `-delta` steps returns to the start |
| Dialogs.CreateFocusInverse | src/commands/interactive/dialog.rs:127-141 | in the create dialog Shift-Tab undoes Tab, and three Tabs return to the same field |
| Dialogs.BranchOptions | src/commands/interactive/dialog.rs:41-53 | one "branch: <name>" option per branch, in order, with the branch as its value |
| Dialogs.WorktreeOptions | src/commands/interactive/dialog.rs:55-62 | the worktree options are exactly one "worktree: <name>" option per worktree, sorted by label |
| Dialogs.BaseGroupsShape | src/commands/interactive/dialog.rs:39-79 | one or two groups, none empty: branches first, worktrees last, and the lone HEAD option exactly when there are neither |
| Dialogs.Row | src/commands/interactive/dialog.rs:83-85 | the pairs of one group, one per option, in order |
| Dialogs.FlatIndicesExact | src/commands/interactive/dialog.rs:81-86 | the flattened pairs name each option of each group exactly once, in group-then-option order |
| Dialogs.DefaultPosition | src/commands/interactive/dialog.rs:90-99 | the first position whose option has the default branch as its value, or none when no option does |
| Dialogs.DefaultBranchPreselected | src/commands/interactive/dialog.rs:88-103 | when the default branch is among the branches the dialog opens on its option |
| Dialogs.BuildIndices | src/commands/interactive/dialog.rs:81-86 | the nested loops list exactly the flattened pairs |
| Dialogs.FindInitialSelection | src/commands/interactive/dialog.rs:88-103 | the search selects the default branch's option, else the first, and always a listed position |
| Dialogs.BaseAt | src/commands/interactive/dialog.rs:121-125 | an option exactly when the position is listed, and it belongs to the group its pair names |
| Dialogs.CreateDialog.constructor | src/commands/interactive/dialog.rs:34-119 | the dialog opens with an empty name, the name field focused, the default branch's option selected, no error, and a valid selection |
| Dialogs.CreateDialog.SelectedBase | src/commands/interactive/dialog.rs:121-125 | a valid dialog always has a selected base |
| Dialogs.CreateDialog.FocusNext | src/commands/interactive/dialog.rs:127-133 | only the focus changes, to the next field |
| Dialogs.CreateDialog.FocusPrev | src/commands/interactive/dialog.rs:135-141 | only the focus changes, to the previous field |
| Dialogs.CreateDialog.MoveBase | src/commands/interactive/dialog.rs:143-152 | only the selected base moves, wrapping around the options; nothing happens when there are none |
| Dialogs.CreateDialog.View | src/commands/interactive/dialog.rs:166-178 | the view copies every field unchanged |
| Dialogs.ToggleInvolution | src/commands/interactive/dialog.rs:221-230 | in the remove and merge dialogs two focus moves return to the same panel |
| Dialogs.RemoveDialog.constructor | src/commands/interactive/dialog.rs:211-219 | the dialog opens on the options, with the "Remove" button selected and branch removal on |
| Dialogs.RemoveDialog.FocusNext | src/commands/interactive/dialog.rs:221-226 | only the focus changes, to the other panel |
| Dialogs.RemoveDialog.FocusPrev | src/commands/interactive/dialog.rs:228-230 | going back is the same move as going forward |
| Dialogs.RemoveDialog.MoveOption | src/commands/interactive/dialog.rs:232-237 | only the option moves, and with one option it stays on it |
| Dialogs.RemoveDialog.MoveButton | src/commands/interactive/dialog.rs:239-244 | only the button moves, wrapping around the two buttons |
| Dialogs.RemoveDialog.ToggleSelectedOption | src/commands/interactive/dialog.rs:246-250 | branch removal flips exactly when its option is selected, and nothing else changes |
| Dialogs.RemoveDialog.View | src/commands/interactive/dialog.rs:265-274 | the view copies every field unchanged |
| Dialogs.MergeDialog.constructor | src/commands/interactive/dialog.rs:303-313 | the dialog opens on the options, with the "Merge" button selected, local branch removal on and remote branch and worktree removal off |
| Dialogs.MergeDialog.FocusNext | src/commands/interactive/dialog.rs:315-320 | only the focus changes, to the other panel |
| Dialogs.MergeDialog.FocusPrev | src/commands/interactive/dialog.rs:322-324 | going back is the same move as going forward |
| Dialogs.MergeDialog.MoveOption | src/commands/interactive/dialog.rs:326-331 | only the option moves, wrapping around the three options |
| Dialogs.MergeDialog.MoveButton | src/commands/interactive/dialog.rs:333-338 | only the button moves, wrapping around the two buttons |
| Dialogs.MergeDialog.ToggleSelectedOption | src/commands/interactive/dialog.rs:340-347 | exactly the flag of the selected option flips; a position past the third flips nothing |
| Dialogs.MergeDialog.View | src/commands/interactive/dialog.rs:372-383 | the view copies every field unchanged |
| Picker.Clamped | src/commands/interactive/command.rs:594-608 | an empty list has no selection; a selection past the end is pulled back to the last row; one in range is kept |
| Picker.NavKeepsValid | src/commands/interactive/command.rs:166-203 | no arrow, Left/Right or Tab key takes the selection or an action index out of range |
| Picker.ListDown | src/commands/interactive/command.rs:542-554 | in the list, Down selects the next row and wraps to the first; with nothing selected it selects the first row |
| Picker.ListUp | src/commands/interactive/command.rs:515-532 | in the list, Up selects the previous row; from the first row it moves focus to the last global action; with nothing selected it selects the last row |
| Picker.EmptyListKeysIgnored | src/commands/interactive/command.rs:515-554 | Up and Down in an empty list change nothing |
| Picker.ListUpDownInverse | src/commands/interactive/command.rs:515-554 | inside the list, Up undoes Down and Down undoes Up |
| Picker.UpUndoesDown | src/commands/interactive/command.rs:515-554 | Up after Down from a row that is not the last returns to that row |
| Picker.DownUndoesUp | src/commands/interactive/command.rs:515-554 | Down after Up from a row that is not the first returns to that row |
| Picker.ActionStepsInverse | src/commands/interactive/command.rs:573-578 | in the action panel, steps wrap around the three actions and opposite steps cancel |
| Picker.GlobalActionsEdges | src/commands/interactive/command.rs:534-569 | Up stops at the first global action; Down from the last hands focus back to a non-empty list, selecting its first row if none was selected |
| Picker.ListDownRepeated | src/commands/interactive/command.rs:548-553 | k presses of Down land k rows further on, modulo the list length |
| Picker.ListDownFrom | src/commands/interactive/command.rs:548-553 | one more Down after row `x mod n` lands on row `(x+1) mod n` |
| Picker.CurrentEntryOf | src/commands/interactive/command.rs:590-592 | there is a current entry exactly when the selection names a row, and it is that row |
| Picker.PluralizeReadsBack | src/commands/interactive/command.rs:1021-1027 | the text is the decimal digits of the count, which read back as the count, a space, then the singular exactly when the count is one and the plural otherwise |
| Picker.EnterExitsWithListedWorktree | src/commands/interactive/command.rs:205-259 | Enter only exits with a worktree of the list or the repository root, and an exit changes no state |
| Picker.EnterDispatch | src/commands/interactive/command.rs:205-259 | Enter on a list row picks it; Open or PR without a selection reports "No worktree selected."; Remove with a selection opens the confirm dialog; the first global action opens the create dialog and the second picks the root |
| Picker.ConfirmRemovesEntry | src/commands/interactive/command.rs:271-304 | confirming calls the remove callback once with the entry's name; success removes exactly that entry and shows an info dialog; failure keeps the list and shows the error |
| Picker.ConfirmCancelKeepsList | src/commands/interactive/command.rs:305-310 | any other key never calls the callback or changes the list; Esc/n/N close the dialog with "Removal cancelled." |
| Picker.ConfirmKeepsValid | src/commands/interactive/command.rs:261-313 | the confirm dialog keeps every index in range and leaves the branches alone |
| Picker.CheckNewName | src/commands/interactive/command.rs:442-457 | a name is accepted exactly when its trimmed form is non-empty and not already in the list, and the trimmed form is what is used |
| Picker.BlankNameRejected | src/commands/interactive/command.rs:443-447 | a name of only whitespace is refused as empty |
| Picker.ExistingNameRejected | src/commands/interactive/command.rs:449-457 | a trimmed name already in the list is refused as existing |
| Picker.PositionOf | src/commands/interactive/command.rs:483-486 | the first position holding the name, present exactly when the name is listed |
| Picker.AddBranchOnce | src/commands/interactive/command.rs:473-477 | adding the created branch keeps the list sorted without repeats, adds exactly that name, and is idempotent |
| Picker.AfterCreateSelectsNewEntry | src/commands/interactive/command.rs:471-491 | after a creation the list is the old one plus the new entry, sorted by name, the new entry is selected and the branch is listed |
| Picker.SubmitValidatesFirst | src/commands/interactive/command.rs:431-470 | a refused name never reaches the callback; the callback gets the trimmed name; a submission that creates nothing leaves the picker unchanged and returns to the name field with an error |
| Picker.SubmitPassesSelectedBase | src/commands/interactive/command.rs:459-465 | the callback's base is the value of the selected base option |
| Picker.TypeThenBackspace | src/commands/interactive/command.rs:359-371 | Backspace removes the character just typed |
| Picker.CreateFieldKeysInRange | src/commands/interactive/command.rs:377-407 | the base and button selections stay in range; Left and Right stop at the ends of the button row |
| Picker.Callbacks.constructor | src/commands/interactive/command.rs:75-79 | the callbacks start with no calls recorded |
| Picker.Callbacks.OnRemove | src/commands/interactive/command.rs:274 | the remove callback's answer, with the call recorded once |
| Picker.Callbacks.OnCreate | src/commands/interactive/command.rs:465 | the create callback's answer, with the call recorded once |
| Picker.InteractiveCommand.constructor | src/commands/interactive/command.rs:46-73 | the first row is selected unless the list is empty, focus is on the list, branches are sorted without repeats |
| Picker.InteractiveCommand.SyncSelection | src/commands/interactive/command.rs:594-608 | the selection becomes its clamped form and nothing else changes |
| Picker.InteractiveCommand.MoveAction | src/commands/interactive/command.rs:573-578 | the action index moves by the step, wrapping around the actions |
| Picker.InteractiveCommand.MoveGlobalAction | src/commands/interactive/command.rs:580-588 | the global action index moves by the step, wrapping around the global actions |
| Picker.InteractiveCommand.HandleUp | src/commands/interactive/command.rs:515-540 | Up moves the picker as `NavUp` says and keeps it valid |
| Picker.InteractiveCommand.HandleDown | src/commands/interactive/command.rs:542-571 | Down moves the picker as `NavDown` says and keeps it valid |
| Picker.InteractiveCommand.HandleEnter | src/commands/interactive/command.rs:205-259 | Enter does what `EnterOutcome` says, opening a fresh create dialog built from the current branches and worktrees |
| Picker.InteractiveCommand.DropEntry | src/commands/interactive/command.rs:276-288 | the entry leaves the list, the selection is cleared and the list takes focus |
| Picker.InteractiveCommand.HandleConfirm | src/commands/interactive/command.rs:261-313 | a key in the confirm dialog does what `Confirm` says, calling the remove callback as it says |
| Picker.InteractiveCommand.RemoveConfirmed | src/commands/interactive/command.rs:272-302 | a confirmed removal of a listed entry does what `Confirm` says |
| Picker.InteractiveCommand.SubmitCreate | src/commands/interactive/command.rs:431-492 | validation, the callback and the insertion as `Submit` says, with the create callback called at most once |
| Picker.InteractiveCommand.InsertCreated | src/commands/interactive/command.rs:471-491 | the picker becomes `AfterCreate` of the old state, keeping it valid |
| Picker.InteractiveCommand.AddCreatedBranch | src/commands/interactive/command.rs:473-477 | the branches become `AddBranch` of the old ones and nothing else changes |
| Picker.InteractiveCommand.AddCreatedWorktree | src/commands/interactive/command.rs:479-482 | the entry joins the list, sorted again by name |
| Picker.InteractiveCommand.PerformCreateSubmission | src/commands/interactive/command.rs:494-513 | the dialog is taken out and put back only when nothing was created |
| Picker.InteractiveCommand.EditCreateField | src/commands/interactive/command.rs:358-408 | a key edits only the focused field of the create dialog |
| Picker.InteractiveCommand.HandleCreateKey | src/commands/interactive/command.rs:315-429 | Esc cancels and clears the name, Tab/BackTab move between fields, Enter on Create submits and closes on success, Enter on Cancel closes |
| Picker.InteractiveCommand.ProcessEvent | src/commands/interactive/command.rs:118-203 | an open dialog captures every key and the loop continues; non-key events change nothing; an exit only names a listed worktree or the root |
| Picker.InteractiveCommand.HandleDialogKey | src/commands/interactive/command.rs:129-156 | a key goes to the open dialog only; Enter closes an info dialog |
| Picker.InteractiveCommand.HandlePanelKey | src/commands/interactive/command.rs:158-203 | Esc and q exit with nothing; arrows, j/k, Tab and BackTab navigate; Enter dispatches; no callback is called |
| Picker.InteractiveCommand.EventLoop | src/commands/interactive/command.rs:93-116 | events are processed until one exits, whose selection names a listed worktree, or until the event source fails |
| Picker.InteractiveCommand.Snapshot | src/commands/interactive/command.rs:614-646 | the renderer gets every name in order, the current entry's details, and a confirm dialog only while its index names a row |
| Picker.EventQueue.constructor | src/commands/interactive/tests.rs:12-18 | the scripted event source holds the given events |
| Picker.EventQueue.Next | src/commands/interactive/tests.rs:20-26 | events come out in order, then an error |
| Render.ListItems | src/commands/interactive/view.rs:103-108 | the list shows the names in order, or the single row "(no worktrees)" when there are none |
| Render.StatusText | src/commands/interactive/view.rs:215-219 | the status line shows the current message, or the key hint when there is none |
| Render.RenderActionItems | src/commands/interactive/view.rs:138-148 | one "[label]" row per action, in order, each dimmed exactly when there are no worktrees |
| Render.ActionMarksSignalHiddenItems | src/commands/interactive/view.rs:175-180 | a scroll mark is drawn only when rows are visible and items are hidden on its side; with neither mark every action is in view |
| Render.ActionPanelUnscrolledHasNoMarks | src/commands/interactive/view.rs:119-180 | the action panel is sized to its actions plus its border, so unscrolled it draws no mark |
| Render.GlobalActionLines | src/commands/interactive/view.rs:329-340 | one "[label]" row per global action, the selected one highlighted exactly while the panel has focus |
| Render.RenderGlobalActions | src/commands/interactive/view.rs:329-340 | the rows built one by one are the global-action lines |
| Render.Checkbox | src/commands/interactive/view.rs:254 | a three-character box whose middle is `x` exactly when checked |
| Render.CheckboxShowsState | src/commands/interactive/view.rs:254 | two boxes look alike exactly when their states agree |
| Render.OptionLines | src/commands/interactive/view.rs:250-272 | one row per option with its box and label, then a blank line and the key hint |
| Render.RenderOptions | src/commands/interactive/view.rs:252-272 | the rows built one by one are the option lines |
| Render.OptionHighlightRule | src/commands/interactive/view.rs:253-267 | an option row is highlighted exactly when the options have focus and it is selected; at most one row is lit and the hint rows never are |
| Render.MergeOptionsShowFlags | src/commands/interactive/view.rs:512-537 | each of the merge dialog's three boxes shows its own flag, and the highlight sits on the selected option |
| Render.ButtonSpans | src/commands/interactive/view.rs:281-297 | k buttons take 2k-1 spans, separators included |
| Render.RenderButtons | src/commands/interactive/view.rs:281-297 | the spans built one by one are the button row |
| Render.ButtonRowLayout | src/commands/interactive/view.rs:281-297 | buttons and plain separators alternate; button i is lit exactly when the row has focus and i is selected |
| Render.ButtonAt | src/commands/interactive/view.rs:288-296 | button i is span 2i, lit exactly when the row has focus and i is selected |
| Render.SeparatorAt | src/commands/interactive/view.rs:284-286 | the separator before button i is span 2i-1 and is plain |
| Render.RemoveButtonsHighlight | src/commands/interactive/view.rs:281-297 | the remove dialog's row is "[ Cancel ]", three spaces, "[ Remove ]", each lit only while the buttons have focus and it is selected |
| Render.CreateFooter | src/commands/interactive/view.rs:458-482 | the error and a blank line when there is one, then the button row |
| Render.NameLine | src/commands/interactive/view.rs:374-382 | the name field shows the typed text, or "<enter name>" while it is empty |
| Render.CreateWindowBounds | src/commands/interactive/view.rs:386-396 | the visible window lies inside the lines and holds at most the content height; the marks say exactly whether lines are hidden above and below |
| Render.PairPosition | src/commands/interactive/view.rs:419-423 | the first position of the pair, present exactly when the pair is listed |
| Render.WindowLines | src/commands/interactive/view.rs:406-436 | the lines drawn for the window are the window's lines, in order |
| Render.RenderBaseLines | src/commands/interactive/view.rs:386-444 | the base list is drawn as the top mark, the window, then the bottom mark |
| Render.RenderWindow | src/commands/interactive/view.rs:406-436 | the lines built one by one are the window's lines |
| Render.WindowLinesExtend | src/commands/interactive/view.rs:406-436 | the window one line longer is the window plus that line |
| Render.BaseLinesFit | src/commands/interactive/view.rs:386-444 | the drawn list is the marks plus the window, and with room for both marks it never needs more rows than are available |
| Render.BaseLinesWhole | src/commands/interactive/view.rs:392-444 | unscrolled, with room for every line, the list is drawn whole and without marks |
| Render.OptionLitIffSelected | src/commands/interactive/view.rs:414-430 | an option line is lit exactly when its pair is the one at the selected position |
| Render.CenteredBands | src/commands/interactive/view.rs:581-601 | a pop-up is centred: equal margins on both sides of the given width |
| Render.PopupsLeaveMargins | src/commands/interactive/view.rs:226-490 | every pop-up leaves a margin of at least 15 percent on each side of both axes |
| Order.SortBy | src/commands/interactive/command.rs:482 | `sort_by` on a string key gives a sorted permutation of its input |
| Order.SortDedup | src/commands/interactive/command.rs:56-57 | `sort` then `dedup` gives a strictly sorted list with exactly the input's elements |
| Order.StrictlySortedUnique | src/commands/interactive/runtime.rs:187-210 | two strictly sorted lists with the same elements are equal, so the ordered set of branch names is determined by its members |
| Order.SortDedupIdempotent | src/commands/interactive/command.rs:475-476 | sorting and de-duplicating an already strictly sorted list changes nothing |
| Order.SortPaths | src/commands/list/mod.rs:90 | sorting the found paths gives a permutation ordered component by component |
| Numbers.HexPadded | src/commands/create/mod.rs:173 | `{:016x}` gives exactly the width asked, in hexadecimal digits |
| Numbers.HexRoundTrip | src/commands/create/mod.rs:173 | the padded hexadecimal text reads back as the number |
| Numbers.Decimal | src/commands/merge_pr_github/mod.rs:156 | a number's decimal text is one or more digits |
| Numbers.DecimalRoundTrip | src/commands/merge_pr_github/mod.rs:156 | the decimal text reads back as the number |
| Numbers.IntToString | src/commands/pr_github/mod.rs:332 | an exit code's text starts with '-' exactly when the code is negative |
| Numbers.SaturatingSub | src/commands/interactive/command.rs:523 | `saturating_sub` is the difference when it is positive, and never less than it |
| Paths.Components | src/commands/list/mod.rs:95 | every piece of a path's text between separators is a normal component |
| Paths.StripPrefix | src/commands/open_editor/mod.rs:159 | `strip_prefix` succeeds exactly when the base's components start the path, and joining the remainder back gives the path |
| Paths.StripJoinRoundTrip | src/commands/open_editor/mod.rs:159 | joining a relative path onto a base and stripping the base gives it back |
| Paths.FormatComponents | src/commands/list/mod.rs:94-99 | for a relative path, the components joined by '/' are its display |
| Text.Trim | src/editor/preference.rs:131 | `trim` neither starts nor ends with whitespace and is no longer than its input |
| Text.TrimEmptyIffBlank | src/editor/preference.rs:131 | `trim` gives the empty string exactly for an all-whitespace string |
| Text.ToLower | src/commands/merge_pr_github/mod.rs:250 | lower-casing keeps the length and lowers each character on its own |
| Text.ToLowerIdempotent | src/commands/merge_pr_github/mod.rs:259 | lower-casing twice is lower-casing once |
| Text.JoinContains | src/editor/mod.rs:59-62 | each part of a joined list appears in the joined text |
| Text.LinesAppendLine | src/repo/mod.rs:102-107 | a complete line added after text that ends a line is its last line, and the earlier lines are unchanged |

## Left out

- Terminal I/O is not modelled:
  - raw mode, the alternate screen, hiding and showing the cursor, and drawing frames;
  - the terminal library's `ListState`, styles, borders and layout splitting.
  The renderer is modelled as text spans with a highlight flag, and a failed draw is not modelled.
- Printing to standard output and standard error is left out. That covers coloured output, `rm`'s quiet mode, `list`'s printed lines and the telemetry log. The editor launch log is kept as a sequence of `LogEntry` values.
- The real process runner (`SystemCommandRunner`) is replaced by the scripted runner the tests use. Spawned shells and editors are recorded as effects together with their answer.
- Some library results are parameters:
  - `serde_json` parsing of `gh pr list` output and of the preferences file;
  - `shell_words::split` of `$EDITOR` and `$VISUAL`;
  - `DefaultHasher`;
  - `fs::canonicalize`;
  - `Repo::discover`.
- The git library calls behind the picker's details panel are left out: `build_detail_data`, `describe_head`, `describe_commit`, `describe_repository_state` and `build_tracking_line`. They are display-only; only their `pluralize` helper is modelled.
- File names that are not Unicode are not modelled. Strings are sequences of Unicode characters, and paths are lists of string components.
- `logical_pwd` in `rm` is not modelled. Its `/private` stripping only applies on macOS.
- Sorting in place is not modelled. `Vec::sort`, `sort_by` and `dedup` are functions on sequences (`Order.SortBy`, `Order.SortDedup`, `Order.SortPaths`) that the methods assign back to the field.
- Integer widths are not modelled:
  - counts and indices are unbounded `nat`s where the code uses `usize`;
  - the hash is bounded by 2^64;
  - pull-request numbers are naturals.
  No operation of the core comes near the `usize` bound.
- Text.ToLower: lower-cases ASCII letters only, where Rust's `str::to_lowercase` is Unicode-aware. The phrases it is compared with are ASCII, so the tolerated-failure rules are unaffected for ASCII output.
- Runner.CommandFailure: builds its message on the corrected `ShellQuote.FormatCommand`, so an empty argument shows as `''` where the program's message shows nothing (the row under "## Findings"). This reaches `pr-github` with `--remote ""` or an empty reviewer or extra argument. With no empty word the two messages are equal (`Runner.CommandFailureMatchesSource`).
- Order.SortBy: does not state that `sort_by` is stable. Every caller sorts by a name that is unique in its list, so no two keys are equal.
- `Paths.FromString` drops empty components, so a path written with repeated or trailing `/` (such as `a//b`) is displayed normalised as `a/b`. Rust's `Path::display` shows the text as it was joined.
- `str::lines` also drops a `\r` before each `\n`; the model's `Lines` keeps it in the piece. Every caller trims the pieces, which removes it.
- Picker.Callbacks.OnRemove: the injected callbacks are stateful closures in the program. Here each answer is a fixed function of the arguments, and the calls are recorded.
- Picker.InteractiveCommand.EventLoop: states how the loop ends (an error once the scripted events run out, or an exit naming a listed worktree or the root). Each event's effect is stated by `ProcessEvent` instead. The event source is the tests' scripted queue, not the terminal.
- Picker.InteractiveCommand.SubmitCreate: requires that no dialog is open, because `perform_create_submission` takes the dialog out of the picker before calling `submit_create`.
- Picker.InteractiveCommand.HandleEnter: the "Create worktree" global action opens a dialog built by `Dialogs.CreateDialog.constructor`, which is stated through its field values. The rest of the picker is stated by `EnterOutcome`.
- Runtime.RunDispatchesOnlyAfterCleanSession: the picker session's result and the commands the runtime dispatches are inputs (`session`, `run`). Those commands are stated in their own modules.
- The runtime passes a third callback that launches the editor with `wait = true`, and calls `launch_worktree` with four arguments. `src/editor/mod.rs` takes three arguments. The model gives `Editors.LaunchWorktree` a `wait` parameter so both callers can be stated; `open-editor` passes `false`.
- `open_editor`'s handling of an error from `launch_worktree` (`src/commands/open_editor/mod.rs:34-42`) is not modelled, because that branch cannot be reached: `resolve_editor_preference` always returns `Ok`.
- The create dialog's fallback for an empty `base_indices` (`src/commands/interactive/dialog.rs:105-108`) is not modelled, because that case cannot happen: every group has at least one option. The constructor proves that the first pair is always present.
- Terminal events are reduced to what the picker distinguishes. The key codes it does not handle are one `OtherKey` code. Every event that is not a key is one `NonKey` event, covering resize, mouse, focus and paste.
- The directory creation done by `Repo::ensure_worktrees_dir` and by `create` is a recorded effect with an outcome. The file system's state is not modelled.

## Findings

| source | as written | input that shows it | evidently intended | confidence | as-written member | corrected member |
|---|---|---|---|---|---|---|
| src/commands/pr_github/mod.rs:281-291 | `quote_arg` returns the empty argument unchanged, since every character of "" is in the safe set. The displayed command then shows nothing where the argument was. | the argument vector `gh`, `--body`, `""` is displayed as ``gh --body `` with a trailing space, which a POSIX shell reads as `gh --body`, one argument fewer | the empty argument is shown as `''`, so the displayed command reads back as the vector that ran | not executed | ShellQuote.EmptyArgumentVanishes | ShellQuote.FormatCommandReadsBack |
