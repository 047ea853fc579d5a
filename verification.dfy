/**
 * Post-cleanup verification (`CompleteCleanup.verifyCleanup`, scripts/cleanup.js):
 * three independent checks whose statuses are folded into one verdict.  The
 * subprocess queries (`npm list -g`, the shell `find`) are oracle results.
 */
module Verification {
  import opened Wrappers
  import opened Strings
  import opened Fs
  import opened Aliases
  import Binaries

  datatype CheckResult = CheckResult(name: string, status: bool, message: string)

  /** What the shell `find` query did: printed some output, or threw. */
  datatype FindOutcome = Printed(output: string) | Threw

  /** `output.trim()` is empty: the output consists of whitespace only. */
  predicate Blank(s: string)
  {
    forall i :: 0 <= i < |s| ==> s[i] in {' ', '\t', '\n', '\r', '\U{0B}', '\U{0C}'}
  }

  /** Check 1: clean exactly when `npm list -g claude-code-updater` throws. */
  function NpmCheck(npmListSucceeds: bool): (r: CheckResult)
    ensures r.status <==> !npmListSucceeds
  {
    if npmListSucceeds then CheckResult("npm package", false, "Still installed")
    else CheckResult("npm package", true, "Removed")
  }

  /** The paths the binary check looks at: the nvm tree (through `find`) and one literal. */
  function CheckedBinaries(home: Path): seq<Path>
  {
    [PathJoin(home, ".nvm/versions/node/*/bin/claude"), "/usr/local/bin/claude"]
  }

  /** The files the alias check reads (the fish configuration is not among them). */
  function CheckedShellFiles(home: Path): seq<Path>
  {
    [PathJoin(home, ".bashrc"), PathJoin(home, ".bash_profile"), PathJoin(home, ".zshrc")]
  }

  /** Check 2 on one path: a glob asks `find` under the directory before the '*'. */
  predicate BinaryResidue(t: Tree, find: Path -> FindOutcome, b: Path)
  {
    if Binaries.IsGlob(b) then
      match find(PrefixBeforeStar(b))
      case Printed(output) => !Blank(output)
      case Threw => false
    else b in t
  }

  predicate BinariesClean(t: Tree, find: Path -> FindOutcome, home: Path)
  {
    forall i :: 0 <= i < |CheckedBinaries(home)| ==> !BinaryResidue(t, find, CheckedBinaries(home)[i])
  }

  /** A file the alias check passes: absent, or readable without the package name or alias. */
  predicate AliasFree(t: Tree, perms: Perms, f: Path)
  {
    f !in t ||
    (ReadFile(t, perms, f).Ok? &&
     !Contains(ReadFile(t, perms, f).value, UpdaterName) &&
     !Contains(ReadFile(t, perms, f).value, AliasDef))
  }

  /**
   * Check 3, file by file: Ok(false) at the first file mentioning the package or
   * the alias; a read error is NOT caught and escapes the whole verification.
   */
  function ScanAliases(t: Tree, perms: Perms, files: seq<Path>): Result<bool, Errno>
    decreases |files|
  {
    if files == [] then Ok(true)
    else if files[0] !in t then ScanAliases(t, perms, files[1..])
    else match ReadFile(t, perms, files[0])
      case Err(e) => Err(e)
      case Ok(c) =>
        if Contains(c, UpdaterName) || Contains(c, AliasDef) then Ok(false)
        else ScanAliases(t, perms, files[1..])
  }

  /** The alias check passes exactly when every file it reads is alias-free. */
  lemma {:induction false} ScanCleanIff(t: Tree, perms: Perms, files: seq<Path>)
    ensures ScanAliases(t, perms, files) == Ok(true) <==>
      forall i :: 0 <= i < |files| ==> AliasFree(t, perms, files[i])
    decreases |files|
  {
    if files != [] {
      ScanCleanIff(t, perms, files[1..]);
      if forall i :: 0 <= i < |files| ==> AliasFree(t, perms, files[i]) {
        forall i | 0 <= i < |files[1..]| ensures AliasFree(t, perms, files[1..][i]) {
          assert files[1..][i] == files[i + 1];
        }
      } else if AliasFree(t, perms, files[0]) {
        var i :| 0 <= i < |files| && !AliasFree(t, perms, files[i]);
        assert files[1..][i - 1] == files[i];
      }
    }
  }

  /** The check cannot throw when every file it reads is absent or a readable file. */
  lemma {:induction false} ScanNeverThrows(t: Tree, perms: Perms, files: seq<Path>)
    requires forall i :: 0 <= i < |files| ==> ReadFile(t, perms, files[i]).Ok? || files[i] !in t
    ensures ScanAliases(t, perms, files).Ok?
    decreases |files|
  {
    if files != [] {
      forall i | 0 <= i < |files[1..]| ensures ReadFile(t, perms, files[1..][i]).Ok? || files[1..][i] !in t {
        assert files[1..][i] == files[i + 1];
      }
      ScanNeverThrows(t, perms, files[1..]);
    }
  }

  /** The aggregated verdict: true exactly when all three checks report clean. */
  predicate AllClean(t: Tree, perms: Perms, home: Path, npmListSucceeds: bool, find: Path -> FindOutcome)
    requires ScanAliases(t, perms, CheckedShellFiles(home)).Ok?
  {
    NpmCheck(npmListSucceeds).status && BinariesClean(t, find, home)
    && ScanAliases(t, perms, CheckedShellFiles(home)).value
  }
}
