# create-vite-template-js, modelled in Dafny

`create-vite-template-js` is a command-line scaffolder. One `run` procedure
does all the work. It chooses one of two template repositories, asks for a
project name and resolves it to a target directory. If that directory
already has entries, it asks whether to cancel, clear it (keeping `.git`)
or keep the files. Then it clones the template into the directory and
prints the commands to start the project.

This project models that procedure. The prompts, the file system at the
target path and the result of the clone are inputs. Exiting the process is a
returned outcome. The modules are:

- `Wrappers`: `Option`, for a prompt answer that may be missing because the
  prompt was aborted.
- `Text`: JavaScript's `String.prototype.trim`, using the ECMAScript
  whitespace and line-terminator code points.
- `Template`: the two repository constants, and the choice between them that
  the `--git` and `--vanilla` flags and the template prompt make.
- `Target`: validation of the name, the `"."` sentinel, the target directory
  and the name under which the download is announced. `path.resolve` and
  `path.basename` are function parameters that the model does not interpret.
- `Disk`: the target directory as a class whose `children` map goes from
  entry names to opaque subtrees. `List` models `readdirSync`, `Remove`
  models `rmSync` and `Clear` models the in-place "clear" loop.
- `Scaffold`: the outcome and trace datatypes, the exit codes, the final
  instructions, the reference course of a run (`Expected`, built on
  `ConflictStep`), and the imperative `HandleConflict` and `Run` methods,
  which are proved against those functions.
- `RunProperties`: lemmas over `Expected`. They cover which prompts are
  shown, when the run cancels, crashes or fails, which entries survive, and
  two worked scenarios.

Some of `run`'s behaviour is easy to misread; the model follows the code:

- The target is `path.resolve(cwd, name)` of the name as typed, without
  trimming. Only the comparison with `"."` uses the trimmed name.
- If both `--git` and `--vanilla` are given, the prompt is not shown and
  `--git` wins. The prompt runs only when neither flag is given.
- The code does not catch file-system errors. A target that exists but is
  not a directory makes `readdirSync` throw inside the async `run`. The
  promise that `run()` returns (index.js:123) is then rejected, nothing
  handles that rejection, and the run ends (`Crashed`). The same happens
  when the name prompt is aborted, because `name.trim()` is then called on
  `undefined`.
- An aborted template prompt leaves `useAdvancedGit` undefined, which counts
  as false, so the vanilla template is used. An aborted conflict prompt
  behaves like "keep".

## Model

| member | source | states |
|---|---|---|
| Text.SkipForward | index.js:53 | the scan stops at the first non-whitespace position at or after its start (or at the end), and everything it skipped is whitespace |
| Text.SkipBackward | index.js:53 | the backward scan stops just after the last non-whitespace character of the range (or at its start), and everything it skipped is whitespace |
| Text.Trim | index.js:53 | `trim` gives the infix of the input that starts at its first non-whitespace character; everything before and after it is whitespace; it has no whitespace at either end; it is empty exactly when the input is all whitespace |
| Text.TrimTight | index.js:56 | a name with no whitespace at either end trims to itself |
| Template.UseAdvancedGit | index.js:25-44 | `useAdvancedGit` is true whenever `--git` is given and false for `--vanilla` alone; with neither flag it is true exactly when the prompt answered true, so an aborted prompt counts as false |
| Template.RepoFor | index.js:63-65 | the repository is one of the two constants: the git one exactly when `useAdvancedGit` holds, the vanilla one exactly when it does not |
| Template.AnswerIgnoredWhenForced | index.js:27-28 | when a flag is given, the template prompt's answer has no effect |
| Template.PromptDecides | index.js:36-42 | each prompt choice picks its own template, and an aborted prompt picks the vanilla one |
| Target.NameAccepted | index.js:53 | a name passes validation exactly when it contains a non-whitespace character |
| Target.TrimIsDotIff | index.js:56 | `name.trim() === '.'` holds exactly when the name is one `.` with only whitespace around it |
| Target.IsDot | index.js:56-57 | the sentinel test holds exactly for a `.` padded only with whitespace |
| Target.DotIsAccepted | index.js:53-56 | the `"."` sentinel always passes validation |
| Target.TargetDir | index.js:56 | the target is `cwd` for a `.` padded only with whitespace; for every other name it is `resolve(cwd, name)` of the name as typed, whitespace included |
| Target.VisibleName | index.js:57 | the announced name is the base name of the target for a padded `.`; for every other name it is the name as typed |
| Target.PaddedDotIsCwd | index.js:56 | `" . "` is the sentinel, so its target is `cwd` |
| Target.PaddedNameResolvedUntrimmed | index.js:56 | `" demo"` is resolved with its leading space, not as `"demo"` |
| Target.BlankNameRefused | index.js:53 | a name of blanks, tabs and line feeds fails validation |
| Disk.Cleared | index.js:84-89 | after clearing, the children are exactly `{.git}` if `.git` was there and none otherwise, and `.git` keeps its subtree |
| Disk.ClearKeepsOnlyGit | index.js:84-89 | the children `a.txt`, `sub` and `.git` clear down to `.git` alone |
| Disk.Directory.List | index.js:67 | the listing holds every child's name exactly once and nothing else |
| Disk.Directory.Remove | index.js:88 | the named child and its subtree are gone and nothing else changes; a missing name is no error |
| Disk.Directory.Clear | index.js:84-89 | the loop over the listing leaves exactly `Cleared` of the old children |
| Scaffold.ExitCode | index.js:79-109 | the exit status is 0 for cancellation and success, and 1 for a failed clone and for a crash, which is an unhandled rejection of `run()` |
| Scaffold.Instructions | index.js:114-119 | `cd <name>` (untrimmed) is printed exactly when the name is not a padded `.`, and then first; `npm install` and `npm run start` are always the last two lines |
| Scaffold.ConflictStep | index.js:67-94 | the conflict prompt is asked exactly for a non-empty directory; the run stops exactly when the target is not a directory (a crash) or the answer is "cancel" (a cancellation); it clears exactly when asked and the answer is "clear" |
| Scaffold.Expected | index.js:22-120 | in the reference run, the directory is cleared only after the conflict prompt and is always followed by a fetch; a fetch is attempted exactly when the run neither crashed nor was cancelled, and the download is announced exactly when it is attempted |
| Scaffold.HandleConflict | index.js:67-94 | the step-3 result is `ConflictStep` of what was at the target, and the directory afterwards is cleared only when that step says so, otherwise unchanged |
| Scaffold.Run | index.js:22-120 | the run's trace is `Expected` of its inputs and of the target before the run, and the target afterwards is `Afterwards` of its old children |
| RunProperties.PromptSequence | index.js:27-68 | the prompts shown are: the template prompt if no flag is given, then the name prompt, then the conflict prompt if the target is non-empty |
| RunProperties.PromptsShown | index.js:27-48 | the template prompt is shown exactly when neither flag is given, the name prompt always, and no prompt twice |
| RunProperties.ConflictPromptIff | index.js:67-68 | the conflict prompt is shown exactly when the target exists and has at least one entry |
| RunProperties.NoConflictNoRemoval | index.js:67-94 | an absent or empty target raises no prompt, loses nothing, and the run goes on to the fetch |
| RunProperties.CancelExitsCleanly | index.js:79-82 | the run is cancelled exactly on "cancel" for a non-empty target; it then exits 0 with no fetch and nothing removed |
| RunProperties.ClearKeepsGitOnly | index.js:84-91 | the target is cleared exactly on "clear" for a non-empty target; then only `.git` survives, untouched; any other run leaves it as it was |
| RunProperties.OtherAnswersKeep | index.js:79-92 | "keep" or an aborted conflict prompt leaves the directory identical and goes on to the fetch |
| RunProperties.FetchRequested | index.js:96-104 | a clone is attempted exactly when the run was neither cancelled nor crashed; it gets the selected repository and the resolved target, and the download is announced under the visible name |
| RunProperties.CloneDecidesExit | index.js:103-119 | a failed clone exits 1 with its message and no instructions; a successful one exits 0 with the instructions for the name |
| RunProperties.CrashIff | index.js:56-67 | the run crashes exactly when the name prompt was aborted or the target is not a directory, and then nothing is fetched or removed |
| RunProperties.UnaskedAnswersIgnored | index.js:27-44 | the answer to a prompt that is not shown does not change the run |
| RunProperties.FreshDirectoryScenario | index.js:56-104 | name `demo` in `/home/u` with nothing there: no conflict prompt, and the clone goes to `resolve("/home/u", "demo")` |
| RunProperties.ClearCurrentDirectoryScenario | index.js:56-119 | name `.` in a directory holding only `index.html`, answered "clear": the prompt is shown, the directory ends up empty, the clone goes to `cwd`, and no `cd` line is printed |

## Left out

- Console output: the banner (`showLogo`), ANSI colours and the other progress messages. Only three printed items are recorded: the name the download is announced under (index.js:96, `Trace.announced`), the clone failure's message (index.js:107, `FetchFailed`), and the final command lines (`Instructions`).
- The `prompts` library: rendering, and the re-prompt loop that runs while a name fails validation. Each answer is a parameter. The name prompt only returns names that pass validation, but `Run` does not need that guarantee and does not require it.
- `minimist` argument parsing: `--git` and `--vanilla` arrive as the two booleans `argv.git === true` and `argv.vanilla === true`.
- `degit` and its network clone: the clone is an opaque success or failure. The model says nothing about the files it writes.
- `path.resolve` and `path.basename`: these are uninterpreted function parameters, so there is no normalisation of absolute names, `..` or separators.
- `rmSync` in detail (permissions, races, the effect of `force`): removing a child removes its whole subtree and cannot fail.
- File-system errors other than a target that is not a directory, such as a failing `existsSync`, `readdirSync` or `rmSync`.
- The order of `readdirSync`: `List` returns the names in an unspecified order. The clear loop's result does not depend on it.
- `async`/`await` and `process.exit`: exiting is the returned `Outcome`. A crash is a rejection of the promise `run()` returns, which nothing handles. Its exit status of 1 is the default of Node from version 15 on, not something the program sets.
- UTF-16: JavaScript strings are sequences of UTF-16 code units, and Dafny's `char` is a Unicode scalar value. Trimming, validation and the sentinel test give the same results either way, but a name holding a lone surrogate cannot be represented.
