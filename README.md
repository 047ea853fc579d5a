# claude-code-updater: the cleanup tool and the launcher, in Dafny

This project models the two pieces of `claude-code-updater` that make decisions.

**The complete-cleanup tool** (`CompleteCleanup` in `scripts/cleanup.js`) undoes an installation in four steps:
- it removes the wrapper's binaries from a fixed table of candidate paths, two of which are version-manager globs;
- it strips the wrapper's aliases out of the shell configuration files, and out of the PowerShell profiles on Windows;
- it removes the configuration directory, but only with explicit consent;
- it then checks what remains.

An exception escaping any step diverts the run to the manual instructions.

**The launcher** (`ClaudeUpdaterCLI` in `bin/claude-code-updater.js`):
- optionally asks the update service whether an update is due and applies it;
- locates the real `claude` entry point through `npm root -g` and the package manifest;
- spawns the entry point under `node` with the caller's arguments;
- exits with the child's status.

The project is laid out as follows:
- The filesystem is a map from path to node, either a file with its text or a directory with its listing.
- Two sets of paths stand for the operating system's refusals: paths that cannot be read and paths that cannot be written.
- `Fs.FileSystem` is the live filesystem. It is a class whose single mutable field is that map, and its methods mirror `existsSync`, `readFileSync`, `readdirSync`, `unlinkSync`, `writeFileSync` and `rmSync`.
- The steps of the cleanup are methods of module `Cleanup`, with the source's loops and their invariants.
- Each method is proved to leave exactly the filesystem a specification function describes: `Binaries.RemoveAll`, `Aliases.RemoveAliasesFrom` and `UserData.RemoveUserDataFrom`.
- Lemmas in `Binaries`, `Aliases`, `UserData`, `Verification` and `Cleanup` prove the properties of those functions: what may be touched, what must be gone, no residue, and idempotence of each step and of the whole run.
- The launcher runs over an environment of fixed answers: the update service, `npm root -g`, the manifest lookup and the child's outcome. Its methods return the exit status and the trace of capabilities they invoked, and lemmas about that trace state the skip gate, the single update and the spawned command line.

The JavaScript string operations the code depends on are modelled as follows:
- `split('\n')` always yields at least one line.
- `split('*')[0]` is the text before the first `*`.
- `replace('*', v)` replaces only the first `*`. It expands the replacement patterns in the directory entry `v`: `$$` becomes `$`, `$&` the matched `*`, `` $` `` the text before the `*` and `$'` the text after it. Any other `$` stays as written.
- `includes` is substring search, and the empty string occurs everywhere.
- `code || 0` maps both `null` and `0` to `0`.

`path.join` is concatenation with `/`.

Behaviour the model keeps as the code has it:
- **Resolution route:** the launcher finds the entry point only through the global npm root and the package manifest. When that fails, the run ends with status 1.
- **Glob abandonment:** in a glob candidate, one `try` surrounds the whole loop over version directories. A failing unlink therefore abandons the remaining versions of that pattern, though never the later candidates.
- **Uncaught alias-check read:** the alias check reads the configuration files outside any `try`. An unreadable file makes the exception escape `verifyCleanup`, and `cleanup` then prints the manual instructions even though every removal step ran.
- **Verdict not used:** `cleanup` announces success without looking at the verdict `verifyCleanup` returns; `Cleanup.RunCleanup` reports the verdict anyway.
- **Fish not checked:** the alias check reads `.bashrc`, `.bash_profile` and `.zshrc`. It does not read the fish configuration that the removal step also rewrites.
- **npm check:** it reports "removed" exactly when `npm list -g` fails, whatever the reason for the failure.

## Model

| member | source | states |
|---|---|---|
| Cleanup.RemoveBinaries | scripts/cleanup.js:59-102 | the candidate loop leaves exactly `Binaries.RemoveAll` of the old filesystem over the six-entry candidate table |
| Cleanup.RemoveGlob | scripts/cleanup.js:75-91 | the glob branch (one `try` around listing and loop) leaves exactly `Binaries.GlobStep`; the inner loop with its abandon flag matches `Binaries.ExpandEntries`, each entry put in place of the `*` with its `$` patterns expanded as `replace` does |
| Cleanup.RemoveAliases | scripts/cleanup.js:105-161 | the alias loops leave exactly `Aliases.RemoveAliasesFrom`: the POSIX/fish line filter per file, then on `win32` the PowerShell loop that stops at the first error |
| Cleanup.RemoveUserData | scripts/cleanup.js:163-187 | the consent-gated removal leaves the filesystem and reports the outcome of `UserData.RemoveUserDataFrom` |
| Cleanup.CheckBinaries | scripts/cleanup.js:206-228 | the binary check reports clean exactly when neither checked path shows a residue (a glob through the `find` output, a literal through `existsSync`) |
| Cleanup.CheckAliases | scripts/cleanup.js:231-247 | the alias check throws exactly when `Verification.ScanAliases` does, and otherwise reports its verdict |
| Cleanup.VerifyCleanup | scripts/cleanup.js:189-260 | the folded `allClean` is true exactly when all three checks pass; an error escaping the alias check escapes the verification |
| Cleanup.RunCleanup | scripts/cleanup.js:19-46 | the run leaves the filesystem `CleanupTree` describes; it ends in the manual fallback exactly when the final alias check throws, otherwise with the verification verdict |
| Cleanup.CleanupPassesAliasCheck | scripts/cleanup.js:115-136 | whenever the files the check reads were absent or readable and writable files, the alias check passes after a run, whatever the other steps did |
| Cleanup.CleanupRemovesLiterals | scripts/cleanup.js:92-100 | every literal candidate that was absent or an unlinkable file before the run is absent after it, whatever happened to the other candidates |
| Cleanup.CleanupVerdictClean | scripts/cleanup.js:193-259 | with npm reporting the package gone, `find` silent, `/usr/local/bin/claude` absent or removable and the checked files accessible, the verdict after a run is "all clean" |
| Cleanup.CleanupIdempotent | scripts/cleanup.js:19-46 | with a home directory without `*` and an idempotent PowerShell substitution, a second run changes nothing |
| Cleanup.BinariesSettledAfterRun | scripts/cleanup.js:59-102 | for a home directory without `*`: after a run the binary loop finds nothing more to remove, although later steps rewrote files and removed the configuration directory |
| Cleanup.AliasesSettledAfterRun | scripts/cleanup.js:105-161 | after a run the alias loops leave the filesystem unchanged, given an idempotent PowerShell substitution, whether or not the user-data step then removed the configuration directory |
| Cleanup.CandidatesSheltered | scripts/cleanup.js:62-72 | for a home directory without `*`: removing only paths inside the configuration directory takes away neither glob directory nor any glob expansion |
| Cleanup.NvmOutsideConfig | scripts/cleanup.js:64-65 | for a home directory without `*`: the directory before the `*` of an nvm pattern, and every expansion of it, lies outside `~/.claude-code-updater` |
| Cleanup.SweptFilesOutsideConfig | scripts/cleanup.js:108-113 | none of the shell files or PowerShell profiles lies inside the configuration directory |
| Cleanup.InConfigShape | scripts/cleanup.js:166 | a path under the home directory is inside the configuration directory only if its name starts with `.claude-code-updater` |
| Cleanup.UserDataResembles | scripts/cleanup.js:173-179 | the user-data step only removes paths, and changes no content |
| Binaries.RemovesOnlyTargets | scripts/cleanup.js:74-101 | the removal loop only deletes existing, removable files, each a literal candidate or a glob's expansion by an entry of its listed directory; everything else is unchanged |
| Binaries.ExpandShrinks | scripts/cleanup.js:81-87 | the inner loop removes only removable files, each an expansion of the pattern by a listed entry |
| Binaries.LiteralRemoved | scripts/cleanup.js:92-100 | a literal candidate that exists and can be unlinked is gone after the loop |
| Binaries.GlobExpansionsRemoved | scripts/cleanup.js:77-87 | for a listable glob directory none of whose existing expansions fails to unlink, every expansion is gone after the loop |
| Binaries.ExpandRemovesAll | scripts/cleanup.js:81-87 | with no failing unlink, the inner loop runs through every entry and removes every existing expansion |
| Binaries.ExpandAppend | scripts/cleanup.js:77-91 | an error in the inner loop abandons only the remaining entries of that pattern: the loop over `a + b` is the loop over `b` from where `a` left, unless `a` was abandoned |
| Binaries.RemoveAllAppend | scripts/cleanup.js:74-101 | every candidate is visited whatever happened to earlier ones: the loop over `a + b` is the loop over `b` from where `a` left |
| Binaries.AbsentStaysAbsent | scripts/cleanup.js:74-101 | the removal loop never creates a path |
| Binaries.RemoveAllIdempotent | scripts/cleanup.js:59-102 | a second binary removal removes nothing more |
| Binaries.RemoveAllStaysSettled | scripts/cleanup.js:59-102 | a settled removal loop stays settled on a tree with no new paths, the same files and directories, and the glob directories and expansions still in place |
| Aliases.KeptLinesExactly | scripts/cleanup.js:119-126 | a line survives the filter exactly when it is a line of the content without the package name and without the alias definition |
| Aliases.MarkerSubsumed | scripts/cleanup.js:123-125 | the marker pattern is implied by the package-name pattern, so the filter is the two-pattern test |
| Aliases.ScrubWritesIffDropped | scripts/cleanup.js:128-129 | the file is rewritten exactly when some line was dropped, with the kept lines joined by newlines |
| Aliases.ScrubNeededIffResidue | scripts/cleanup.js:122-129 | a rewrite happens exactly when the content contains the package name or the alias definition |
| Aliases.ScrubNoResidue | scripts/cleanup.js:122-129 | the rewritten content contains neither the package name nor the alias definition |
| Aliases.ScrubRereads | scripts/cleanup.js:119-129 | when some line survives the filter, splitting the rewritten content gives back exactly the kept lines; when none survives, the file is rewritten empty |
| Aliases.ScrubIdempotent | scripts/cleanup.js:122-129 | filtering rewritten content drops nothing, and a rewrite always changes the content |
| Aliases.PosixStepEffect | scripts/cleanup.js:115-135 | one shell file: absent or unreadable files are skipped, a file with a dropped line becomes the filtered text when writable, anything else is untouched |
| Aliases.StepLocal | scripts/cleanup.js:115-156 | what a step does to its file does not depend on any other path |
| Aliases.SweepKeepsPaths | scripts/cleanup.js:115-160 | the alias loops create and remove no path |
| Aliases.SweepKeepsOthers | scripts/cleanup.js:115-160 | the alias loops leave every path outside their file list as it was |
| Aliases.PosixSweepScrubs | scripts/cleanup.js:115-136 | after the POSIX/fish loop every listed file that was accessible holds neither pattern |
| Aliases.SweepSettles | scripts/cleanup.js:115-156 | after a loop, running it again would change nothing; for PowerShell, given an idempotent substitution |
| Aliases.SettledAfterOtherSweep | scripts/cleanup.js:139-160 | the PowerShell loop, touching only the profiles, leaves a settled POSIX loop settled |
| Aliases.SettledTransfer | scripts/cleanup.js:115-156 | a settled loop stays settled on any tree agreeing at its files |
| Aliases.RemoveAliasesIdempotent | scripts/cleanup.js:105-161 | a second `removeAliases` leaves the filesystem unchanged, given an idempotent PowerShell substitution |
| UserData.UserDataGate | scripts/cleanup.js:166-186 | the configuration directory and all below it go exactly when it exists, a consent flag is present and the removal is allowed. In every other case the filesystem is unchanged and the outcome says why. Nothing outside the directory is touched. |
| UserData.UserDataIdempotent | scripts/cleanup.js:166-186 | a second user-data step changes nothing |
| Verification.NpmCheck | scripts/cleanup.js:195-203 | the npm check reports clean exactly when `npm list -g` fails |
| Verification.ScanCleanIff | scripts/cleanup.js:231-247 | the alias check passes exactly when every checked file is absent or readable without the package name and the alias |
| Verification.ScanNeverThrows | scripts/cleanup.js:237-239 | the alias check cannot throw when every checked file is absent or readable |
| Scenarios.AliasScenario | scripts/cleanup.js:119-129 | the PATH export, marker, alias, EDITOR export file is rewritten to the two exports in order |
| Scenarios.GlobScenario | scripts/cleanup.js:77-87 | with versions `18.0.0` and `20.1.0` and a binary only under the second, exactly that file is removed and the missing first one abandons nothing |
| Strings.Split | scripts/cleanup.js:119 | `split('\n')` never yields an empty list |
| Strings.JoinSplit | scripts/cleanup.js:119-129 | joining the lines of a text by newlines gives the text back |
| Strings.SplitJoin | scripts/cleanup.js:119-129 | splitting the join of newline-free lines gives the lines back |
| Strings.ContainsIffSomeLine | scripts/cleanup.js:123-124 | a newline-free pattern occurs in a text exactly when it occurs in one of its lines |
| Strings.StarShape | scripts/cleanup.js:78-82 | the prefix before the first `*` is followed by that `*`; `replace` keeps the prefix and the text after the `*`, with the expanded entry between them |
| Strings.PlainStarShape | scripts/cleanup.js:78-82 | an entry without `$` goes in place of the first `*` exactly as listed |
| Strings.DollarPatterns | scripts/cleanup.js:82 | `replace('*', v)` turns `$$` into `$`, `$&` into the `*`, `` $` `` and `$'` into the text before and after the `*`, and leaves `$1` as written |
| Strings.ExpansionKeepsPrefix | scripts/cleanup.js:78-82 | every expansion of a pattern begins with the directory that was listed for it |
| Strings.NoStarShape | scripts/cleanup.js:78-82 | without a `*` the prefix is the whole path and `replace` changes nothing |
| Seqs.FilterMembers | scripts/cleanup.js:122-126 | an element survives `filter` exactly when it was present and passes the test |
| Seqs.FilterAppend | scripts/cleanup.js:122-126 | `filter` keeps relative order: it distributes over concatenation |
| Seqs.FilterCount | bin/claude-code-updater.js:25 | a kept value occurs after `filter` as often as before, a dropped value not at all |
| Fs.FileSystem.UnlinkSync | scripts/cleanup.js:84 | `unlinkSync` succeeds exactly on an existing, writable regular file and then removes only that path |
| Fs.FileSystem.WriteFileSync | scripts/cleanup.js:129 | `writeFileSync` replaces the file's text when allowed and otherwise changes nothing |
| Fs.FileSystem.RmSync | scripts/cleanup.js:175 | `rmSync` removes the whole subtree when allowed and otherwise changes nothing |
| Launcher.Run | bin/claude-code-updater.js:17-31 | the run's trace and exit status are `RunTrace` and `RunExit`: the update unless skipped, then the launch; a rejection exits 1 |
| Launcher.CheckAndUpdate | bin/claude-code-updater.js:33-50 | the check is always asked; the update is invoked exactly when the check answers true; every failure is absorbed |
| Launcher.LaunchClaude | bin/claude-code-updater.js:52-99 | the npm root is always asked. `node` is spawned exactly on a resolved entry point. The launch exits with `code \|\| 0` exactly when the entry point resolves and the child closes; otherwise it rejects. |
| Launcher.ForwardedArgsExactly | bin/claude-code-updater.js:25 | no `--skip-update` is forwarded, every other argument is forwarded as often as it occurs, and without the flag the arguments pass unchanged |
| Launcher.ForwardedArgsInOrder | bin/claude-code-updater.js:25 | forwarding keeps the arguments' relative order |
| Launcher.SkipGate | bin/claude-code-updater.js:20-22 | with `--skip-update` anywhere in argv neither update capability is invoked; without it the check comes first |
| Launcher.UpdateAtMostOnce | bin/claude-code-updater.js:37-41 | `performUpdate` is invoked at most once, and exactly when the check ran and answered true |
| Launcher.LaunchAlwaysAttempted | bin/claude-code-updater.js:17-31 | whatever the update service did, the launch is attempted |
| Launcher.ResolveClaudeIff | bin/claude-code-updater.js:61-75 | the entry point resolves exactly when the npm root is known, the manifest loads and names `bin.claude`; it is the root joined with `@anthropic-ai/claude-code` and that name |
| Launcher.SpawnExactly | bin/claude-code-updater.js:77 | a spawn happens exactly when the entry point resolves; it is the last event and runs `node` on the entry point followed by the forwarded arguments |
| Launcher.ExitCode | bin/claude-code-updater.js:91-93 | `code \|\| 0`: a null or zero code gives 0, any other code is passed through |
| Launcher.ExitStatus | bin/claude-code-updater.js:27-30 | a failed resolution or a spawn error exits 1; otherwise the status is 0 exactly for a null or zero child code |

## Left out

- Console output: the chalk, ora and console messages, the help text and the literal manual instructions are display only. `manualCleanup` is modelled as the `ManualFallback` outcome.
- `npmUninstall`: it is modelled as a no-op, as if npm failed. Its failures are caught. A successful `npm uninstall -g claude-code-updater` removes the package's bin links before `removeBinaries` runs. Those links include `/usr/local/bin/claude-code-updater`, the nvm `*/bin/claude-code-updater` and the `.cmd` shim, all of them candidates of the table.
- Subprocesses: `npm list -g`, `npm root -g` and the shell `find` of the binary check are inputs (oracle answers), and the output of `npm root -g` is taken as already trimmed.
- PowerShell substitution: the two regular-expression replacements are an abstract function `scrub`. Only the guard on the package name and the loop's error handling are modelled. The settledness and idempotence results for `win32` assume `scrub` is idempotent, and the code's own pair of replacements is not. A profile holding `function cfunction claude`, a newline, `laude y`, a newline and `claude-code-updater` becomes `function claude y`, a newline and `claude-code-updater` on the first run. On the second run it still contains the package name, so the loop rewrites it again, to `claude-code-updater`.
- Aliases.RemoveAliasesIdempotent: it promises an unchanged filesystem, not that no file is written. On `win32` a profile that still contains `claude-code-updater` after the substitution, such as one holding only that text without a newline, is written again on every run. The lemma's premise of an idempotent substitution does not hold for the code's real regular expressions, as described in the line above.
- Path handling: `os.homedir()` and `os.platform()` are parameters, and `path.join` is concatenation with `/` without normalisation.
- Dangling links: `existsSync` is taken as true for every present node, files and directories alike.
- Directory listings: they do not change when a file below them is unlinked. The only listing read is that of `~/.nvm/versions/node/`. Every path unlinked below it is an expansion, the expanded (non-empty) entry followed by `/bin/...`, so it lies at least two levels down. No entry of a listing is therefore ever removed, in the first run or in a second one.
- `rmSync`: a refused removal changes nothing. A partial recursive removal is not modelled.
- Whitespace: `trim()` of the `find` output recognises ASCII whitespace only, not Unicode space characters.
- Process control: signal forwarding, `process.exit`, the promise plumbing and the `unhandledRejection` handler are left out. The exit status is returned instead. A `close` event after an `error` event is not modelled.
- Manifest values: a `bin.claude` entry that is not a string is not modelled; a string-valued map stands for the manifest's `bin`.
- `lib/updater` and `lib/logger` are opaque collaborators: the update check and update are answers in the environment, and logging is dropped.
- Cleanup.AliasesSettledAfterRun: it promises an unchanged filesystem, not that no file is written. On `win32` a profile that still contains `claude-code-updater` after the substitution is written again on every run. Its premise of an idempotent substitution does not hold for the code's real regular expressions, as described under the PowerShell substitution above.
- Cleanup.CleanupIdempotent: it requires a home directory without `*`. A `*` in the home path would make the candidate table's globs expand at a different position.
- Cleanup.BinariesSettledAfterRun: it requires a home directory without `*`, for the same reason as `Cleanup.CleanupIdempotent`.
- Cleanup.CandidatesSheltered: it requires a home directory without `*`, for the same reason as `Cleanup.CleanupIdempotent`.
- Cleanup.NvmOutsideConfig: it requires a home directory without `*`, for the same reason as `Cleanup.CleanupIdempotent`.
- Termination of the oracles: every outside answer is assumed to arrive. These are `checkForUpdate`, `performUpdate`, `npm root -g`, `npm list -g`, `find` and the child process. A call that never settles is not modelled, so "whatever the update service did" in `Launcher.LaunchAlwaysAttempted` covers only calls that resolve or reject.
- Text encoding: reading and writing with `utf8` is taken as the identity on text. Decoding of malformed bytes and the re-encoding on a rewrite are not modelled.
- Command-line entry (scripts/cleanup.js:285-309): with `--help` or `-h` among the arguments the script prints its usage and runs no cleanup at all. The model starts at `cleanup()`.
