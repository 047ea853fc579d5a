/**
 * The cleanup tool's steps (`CompleteCleanup`, scripts/cleanup.js) as methods
 * that change the live filesystem in place, each proved to leave exactly the
 * filesystem its specification function describes, and the run as a whole.
 */
module Cleanup {
  import opened Wrappers
  import opened Seqs
  import opened Strings
  import opened Fs
  import opened Binaries
  import opened Aliases
  import opened UserData
  import opened Verification

  /** `removeBinaries`: literal candidates and glob candidates, every failure caught. */
  method RemoveBinaries(fs: FileSystem, home: Path)
    modifies fs
    ensures fs.tree == RemoveAll(old(fs.tree), fs.perms, PossiblePaths(home))
  {
    var candidates := PossiblePaths(home);
    for i := 0 to |candidates|
      invariant RemoveAll(old(fs.tree), fs.perms, candidates) == RemoveAll(fs.tree, fs.perms, candidates[i..])
    {
      var binaryPath := candidates[i];
      if IsGlob(binaryPath) {
        RemoveGlob(fs, binaryPath);
      } else if fs.ExistsSync(binaryPath) {
        var _ := fs.UnlinkSync(binaryPath);
      }
    }
  }

  /**
   * The glob branch of `removeBinaries`: one `try` around the listing and the
   * whole inner loop, so the first failing unlink abandons the remaining entries.
   */
  method RemoveGlob(fs: FileSystem, binaryPath: Path)
    modifies fs
    ensures fs.tree == GlobStep(old(fs.tree), fs.perms, binaryPath)
  {
    var basePath := PrefixBeforeStar(binaryPath);
    if !fs.ExistsSync(basePath) {
      return;
    }
    var listing := fs.ReaddirSync(basePath);
    if listing.Err? {
      return;
    }
    var versions := listing.value;
    var j := 0;
    var abandoned := false;
    while j < |versions| && !abandoned
      invariant 0 <= j <= |versions|
      invariant ExpandEntries(old(fs.tree), fs.perms, binaryPath, versions) ==
        if abandoned then Expansion(fs.tree, true)
        else ExpandEntries(fs.tree, fs.perms, binaryPath, versions[j..])
      decreases |versions| - j + (if abandoned then 0 else 1)
    {
      var fullPath := ReplaceFirstStar(binaryPath, versions[j]);
      if fs.ExistsSync(fullPath) {
        var err := fs.UnlinkSync(fullPath);
        abandoned := err.Some?;
      }
      if !abandoned {
        j := j + 1;
      }
    }
  }

  /** `removeAliases`: the POSIX/fish line filter, then the PowerShell profiles on Windows. */
  method RemoveAliases(fs: FileSystem, home: Path, platform: string, scrub: string -> string)
    modifies fs
    ensures fs.tree == RemoveAliasesFrom(old(fs.tree), fs.perms, home, platform, scrub)
  {
    var shellFiles := ShellFiles(home);
    for i := 0 to |shellFiles|
      invariant Sweep(old(fs.tree), fs.perms, Posix, shellFiles) == Sweep(fs.tree, fs.perms, Posix, shellFiles[i..])
    {
      var shellFile := shellFiles[i];
      if fs.ExistsSync(shellFile) {
        var read := fs.ReadFileSync(shellFile);
        if read.Ok? {
          var lines := Split(read.value);
          var filteredLines := Filter(KeepLine, lines);
          if |filteredLines| != |lines| {
            var _ := fs.WriteFileSync(shellFile, Join(filteredLines));
          }
        }
      }
    }
    if platform == "win32" {
      var profilePaths := ProfilePaths(home);
      ghost var start := fs.tree;
      var i := 0;
      var failed := false;
      while i < |profilePaths| && !failed
        invariant 0 <= i <= |profilePaths|
        invariant Sweep(start, fs.perms, PowerShell(scrub), profilePaths) ==
          if failed then fs.tree else Sweep(fs.tree, fs.perms, PowerShell(scrub), profilePaths[i..])
        decreases |profilePaths| - i + (if failed then 0 else 1)
      {
        var profilePath := profilePaths[i];
        if fs.ExistsSync(profilePath) {
          var read := fs.ReadFileSync(profilePath);
          if read.Err? {
            failed := true;
          } else if Contains(read.value, UpdaterName) {
            var err := fs.WriteFileSync(profilePath, scrub(read.value));
            failed := err.Some?;
          }
        }
        if !failed {
          i := i + 1;
        }
      }
    }
  }

  /** `removeUserData`: the consent-gated removal of the configuration directory. */
  method RemoveUserData(fs: FileSystem, home: Path, argv: seq<string>) returns (outcome: Outcome)
    modifies fs
    ensures RemoveUserDataFrom(old(fs.tree), fs.perms, home, argv) == Step(fs.tree, outcome)
  {
    var configDir := ConfigDir(home);
    if !fs.ExistsSync(configDir) {
      return NotFound;
    }
    var shouldRemove := "--clean" in argv || "--purge" in argv || "--force" in argv;
    if !shouldRemove {
      return Preserved;
    }
    var err := fs.RmSync(configDir);
    outcome := if err.None? then Removed else RemoveFailed(err.value);
  }

  /** The binary check: stops at the first path with a residue. */
  method CheckBinaries(fs: FileSystem, home: Path, find: Path -> FindOutcome) returns (r: CheckResult)
    ensures r.name == "binary files"
    ensures r.status <==> BinariesClean(fs.tree, find, home)
  {
    var binaries := CheckedBinaries(home);
    for i := 0 to |binaries|
      invariant forall j :: 0 <= j < i ==> !BinaryResidue(fs.tree, find, binaries[j])
    {
      var binary := binaries[i];
      if IsGlob(binary) {
        var output := find(PrefixBeforeStar(binary));
        if output.Printed? && !Blank(output.output) {
          return CheckResult("binary files", false, "Some binaries still exist");
        }
      } else if fs.ExistsSync(binary) {
        return CheckResult("binary files", false, "Some binaries still exist");
      }
    }
    return CheckResult("binary files", true, "All removed");
  }

  /** The alias check: stops at the first file with a residue; a read error escapes. */
  method CheckAliases(fs: FileSystem, home: Path) returns (r: Result<CheckResult, Errno>)
    ensures r.Err? <==> ScanAliases(fs.tree, fs.perms, CheckedShellFiles(home)).Err?
    ensures r.Ok? ==>
      r.value.name == "shell aliases" &&
      r.value.status == ScanAliases(fs.tree, fs.perms, CheckedShellFiles(home)).value
  {
    var shellFiles := CheckedShellFiles(home);
    for i := 0 to |shellFiles|
      invariant ScanAliases(fs.tree, fs.perms, shellFiles) == ScanAliases(fs.tree, fs.perms, shellFiles[i..])
    {
      var shellFile := shellFiles[i];
      if fs.ExistsSync(shellFile) {
        var read := fs.ReadFileSync(shellFile);
        if read.Err? {
          return Err(read.error);
        }
        if Contains(read.value, UpdaterName) || Contains(read.value, AliasDef) {
          return Ok(CheckResult("shell aliases", false, "Some aliases still exist"));
        }
      }
    }
    return Ok(CheckResult("shell aliases", true, "All removed"));
  }

  /**
   * `verifyCleanup`: the three checks in order, folded into `allClean`; an
   * error escaping a check escapes the verification as well.
   */
  method VerifyCleanup(fs: FileSystem, home: Path, npmListSucceeds: bool, find: Path -> FindOutcome)
    returns (r: Result<bool, Errno>)
    ensures r.Err? <==> ScanAliases(fs.tree, fs.perms, CheckedShellFiles(home)).Err?
    ensures r.Ok? ==> (r.value <==> AllClean(fs.tree, fs.perms, home, npmListSucceeds, find))
  {
    var allClean := true;
    var i := 0;
    while i < 3
      invariant 0 <= i <= 3
      invariant i > 2 ==> ScanAliases(fs.tree, fs.perms, CheckedShellFiles(home)).Ok?
      invariant allClean <==>
        && (i > 0 ==> NpmCheck(npmListSucceeds).status)
        && (i > 1 ==> BinariesClean(fs.tree, find, home))
        && (i > 2 ==> ScanAliases(fs.tree, fs.perms, CheckedShellFiles(home)) == Ok(true))
    {
      var result;
      if i == 0 {
        result := NpmCheck(npmListSucceeds);
      } else if i == 1 {
        result := CheckBinaries(fs, home, find);
      } else {
        var aliases := CheckAliases(fs, home);
        if aliases.Err? {
          return Err(aliases.error);
        }
        result := aliases.value;
      }
      if !result.status {
        allClean := false;
      }
      i := i + 1;
    }
    return Ok(allClean);
  }

  /** How a cleanup run ends: the verification's verdict, or the manual instructions. */
  datatype CleanupOutcome = Completed(allClean: bool) | ManualFallback

  /** The filesystem a whole run leaves behind: binaries, then aliases, then user data. */
  function CleanupTree(t: Tree, perms: Perms, home: Path, platform: string, argv: seq<string>,
                       scrub: string -> string): Tree
  {
    var t1 := RemoveAll(t, perms, PossiblePaths(home));
    var t2 := RemoveAliasesFrom(t1, perms, home, platform, scrub);
    RemoveUserDataFrom(t2, perms, home, argv).tree
  }

  /**
   * `cleanup`: the steps in order; an error escaping any of them diverts to the
   * manual instructions.  The npm uninstall before the steps is an effect on the
   * package manager only and is absorbed whatever it does.
   */
  method RunCleanup(fs: FileSystem, home: Path, platform: string, argv: seq<string>,
                    scrub: string -> string, npmListSucceeds: bool, find: Path -> FindOutcome)
    returns (outcome: CleanupOutcome)
    modifies fs
    ensures fs.tree == CleanupTree(old(fs.tree), fs.perms, home, platform, argv, scrub)
    ensures outcome == ManualFallback <==> ScanAliases(fs.tree, fs.perms, CheckedShellFiles(home)).Err?
    ensures outcome.Completed? ==> (outcome.allClean <==> AllClean(fs.tree, fs.perms, home, npmListSucceeds, find))
  {
    RemoveBinaries(fs, home);
    RemoveAliases(fs, home, platform, scrub);
    var _ := RemoveUserData(fs, home, argv);
    var verdict := VerifyCleanup(fs, home, npmListSucceeds, find);
    if verdict.Err? {
      return ManualFallback;
    }
    return Completed(verdict.value);
  }
  // ---------------------------------------------------------------- the run end to end

  /** What the removal steps leave at a path: gone, or the node it had before. */
  ghost predicate KeptOrGone(x: Tree, y: Tree, f: Path)
  {
    f in y ==> f in x && y[f] == x[f]
  }

  /** The user-data step removes paths and changes no content. */
  lemma UserDataKeepsOrRemoves(t: Tree, perms: Perms, home: Path, argv: seq<string>, f: Path)
    ensures KeptOrGone(t, RemoveUserDataFrom(t, perms, home, argv).tree, f)
  {
    UserDataGate(t, perms, home, argv);
  }

  lemma CheckedAreShellFiles(home: Path)
    ensures forall k :: 0 <= k < |CheckedShellFiles(home)| ==>
      CheckedShellFiles(home)[k] in ShellFiles(home) && CheckedShellFiles(home)[k] !in ProfilePaths(home)
  {
    ProfilesAreNotShellFiles(home);
  }

  /**
   * The alias filter leaves nothing for the alias check to find: when each file
   * the check reads is absent or a readable, writable file before the run, the
   * check passes after it, whatever the binary and user-data steps did.
   */
  lemma CleanupPassesAliasCheck(t: Tree, perms: Perms, home: Path, platform: string, argv: seq<string>,
                                scrub: string -> string)
    requires forall k :: 0 <= k < |CheckedShellFiles(home)| ==> Rewritable(t, perms, CheckedShellFiles(home)[k])
    ensures ScanAliases(CleanupTree(t, perms, home, platform, argv, scrub), perms, CheckedShellFiles(home)) == Ok(true)
  {
    var files := CheckedShellFiles(home);
    var t1 := RemoveAll(t, perms, PossiblePaths(home));
    var t2 := Sweep(t1, perms, Posix, ShellFiles(home));
    var t3 := RemoveAliasesFrom(t1, perms, home, platform, scrub);
    var t4 := CleanupTree(t, perms, home, platform, argv, scrub);
    RemovesOnlyTargets(t, perms, PossiblePaths(home));
    CheckedAreShellFiles(home);
    forall k | 0 <= k < |files| ensures AliasFree(t4, perms, files[k]) {
      var f := files[k];
      assert Rewritable(t1, perms, f);
      PosixSweepScrubs(t1, perms, ShellFiles(home), f);
      assert Scrubbed(t3, perms, f) by {
        if platform == "win32" {
          SweepKeepsOthers(t2, perms, PowerShell(scrub), ProfilePaths(home), f);
        }
      }
      UserDataKeepsOrRemoves(t3, perms, home, argv, f);
      if f in t4 {
        assert ReadFile(t4, perms, f) == Ok(t3[f].content);
      }
    }
    ScanCleanIff(t4, perms, files);
  }

  /**
   * Failure containment end to end: every literal candidate that was absent or
   * an unlinkable file before the run is absent after it, whatever happened to
   * the other candidates.
   */
  lemma CleanupRemovesLiterals(t: Tree, perms: Perms, home: Path, platform: string, argv: seq<string>,
                               scrub: string -> string, i: nat)
    requires i < |PossiblePaths(home)| && !IsGlob(PossiblePaths(home)[i])
    requires var c := PossiblePaths(home)[i]; c !in t || Removable(t, perms, c)
    ensures PossiblePaths(home)[i] !in CleanupTree(t, perms, home, platform, argv, scrub)
  {
    var cs := PossiblePaths(home);
    var t1 := RemoveAll(t, perms, cs);
    if cs[i] in t {
      LiteralRemoved(t, perms, cs, i);
    } else {
      AbsentStaysAbsent(t, perms, cs, cs[i]);
    }
    var t2 := Sweep(t1, perms, Posix, ShellFiles(home));
    SweepKeepsPaths(t1, perms, Posix, ShellFiles(home));
    SweepKeepsPaths(t2, perms, PowerShell(scrub), ProfilePaths(home));
    UserDataGate(RemoveAliasesFrom(t1, perms, home, platform, scrub), perms, home, argv);
  }

  /**
   * The verdict after a run is "all clean" when the npm query fails, the shell
   * `find` reports nothing, `/usr/local/bin/claude` was absent or unlinkable and
   * the files the alias check reads were absent or accessible; so `cleanup`
   * then ends with the success message rather than the manual instructions.
   */
  lemma CleanupVerdictClean(t: Tree, perms: Perms, home: Path, platform: string, argv: seq<string>,
                            scrub: string -> string, npmListSucceeds: bool, find: Path -> FindOutcome)
    requires !npmListSucceeds
    requires match find(PrefixBeforeStar(CheckedBinaries(home)[0]))
      case Printed(output) => Blank(output)
      case Threw => true
    requires "/usr/local/bin/claude" !in t || Removable(t, perms, "/usr/local/bin/claude")
    requires forall k :: 0 <= k < |CheckedShellFiles(home)| ==> Rewritable(t, perms, CheckedShellFiles(home)[k])
    ensures var t' := CleanupTree(t, perms, home, platform, argv, scrub);
      ScanAliases(t', perms, CheckedShellFiles(home)) == Ok(true) &&
      AllClean(t', perms, home, npmListSucceeds, find)
  {
    var t' := CleanupTree(t, perms, home, platform, argv, scrub);
    CleanupPassesAliasCheck(t, perms, home, platform, argv, scrub);
    assert PossiblePaths(home)[2] == "/usr/local/bin/claude";
    CleanupRemovesLiterals(t, perms, home, platform, argv, scrub, 2);
    assert !BinaryResidue(t', find, CheckedBinaries(home)[1]);
    assert Binaries.IsGlob(CheckedBinaries(home)[0]);
  }
  // ---------------------------------------------------------------- a second run changes nothing

  /** A path below the home directory is in the configuration directory only if its name says so. */
  lemma InConfigShape(home: Path, w: string)
    ensures InSubtree(PathJoin(home, w), ConfigDir(home)) ==> StartsWith(w, ".claude-code-updater")
  {
    var q := PathJoin(home, w);
    var dir := ConfigDir(home);
    if InSubtree(q, dir) {
      assert q[..|dir|] == dir by {
        if q != dir {
          assert q[..|dir|] == q[..|dir + "/"|][..|dir|];
        }
      }
      assert w == q[|home| + 1..];
      assert w[..20] == q[..|dir|][|home| + 1..];
    }
  }

  /** None of the files the alias loops rewrite lies in the configuration directory. */
  lemma SweptFilesOutsideConfig(home: Path)
    ensures forall k :: 0 <= k < |ShellFiles(home)| ==> !InSubtree(ShellFiles(home)[k], ConfigDir(home))
    ensures forall k :: 0 <= k < |ProfilePaths(home)| ==> !InSubtree(ProfilePaths(home)[k], ConfigDir(home))
  {
    var name := ".claude-code-updater";
    InConfigShape(home, ".bashrc");
    InConfigShape(home, ".bash_profile");
    InConfigShape(home, ".zshrc");
    var fish := ".config/fish/config.fish";
    var ps := "Documents/PowerShell/profile.ps1";
    var wps := "Documents/WindowsPowerShell/profile.ps1";
    assert fish[2] == 'o' && name[2] == 'l';
    assert ps[0] == 'D' && wps[0] == 'D' && name[0] == '.';
    DiffersAt(fish, name, 2);
    DiffersAt(ps, name, 0);
    DiffersAt(wps, name, 0);
    InConfigShape(home, fish);
    InConfigShape(home, ps);
    InConfigShape(home, wps);
  }

  /**
   * With a wildcard-free home directory, neither a glob candidate under `~/.n`
   * nor any of its expansions lies in the configuration directory.
   */
  lemma NvmOutsideConfig(home: Path, w: string, v: string)
    requires '*' !in home
    requires |w| >= 2 && w[0] == '.' && w[1] == 'n'
    ensures var c := PathJoin(home, w);
      && !InSubtree(PrefixBeforeStar(c), ConfigDir(home))
      && !InSubtree(ReplaceFirstStar(c, v), ConfigDir(home))
  {
    var name := ".claude-code-updater";
    var r := w[2..];
    var c := PathJoin(home, w);
    assert w == ".n" + r;
    assert c == (home + "/.n") + r;
    StarAfterHead(home + "/.n", r);
    var w1 := ".n" + PrefixBeforeStar(r);
    var b := PrefixBeforeStar(c);
    assert b == PathJoin(home, w1);
    // the expansion starts with `b`, so it too is `home` joined with a name starting ".n"
    var e := ReplaceFirstStar(c, v);
    ExpansionKeepsPrefix(c, v);
    var w2 := e[|home| + 1..];
    assert e[..|home| + 1] == b[..|home| + 1] == home + "/";
    assert e == PathJoin(home, w2) by { assert e == e[..|home| + 1] + w2; }
    assert w2[0] == b[|home| + 1] == '.' && w2[1] == b[|home| + 2] == 'n';
    assert name[1] == 'c';
    DiffersAt(w1, name, 1);
    DiffersAt(w2, name, 1);
    InConfigShape(home, w1);
    InConfigShape(home, w2);
  }

  /** Removing only paths in the configuration directory shelters a glob candidate under `~/.n`. */
  lemma GlobSheltered(b: Tree, x: Tree, home: Path, w: string)
    requires '*' !in home
    requires |w| >= 2 && w[0] == '.' && w[1] == 'n'
    requires forall q :: q in b && !InSubtree(q, ConfigDir(home)) ==> q in x
    ensures Sheltered(x, b, PathJoin(home, w))
  {
    var c := PathJoin(home, w);
    NvmOutsideConfig(home, w, "");
    forall v | ReplaceFirstStar(c, v) in b ensures ReplaceFirstStar(c, v) in x {
      NvmOutsideConfig(home, w, v);
    }
  }

  /** The user-data step only removes: what is left resembles what was there. */
  lemma UserDataResembles(a: Tree, perms: Perms, home: Path, argv: seq<string>)
    ensures var x := RemoveUserDataFrom(a, perms, home, argv).tree;
      forall q :: q in x ==> q in a && x[q] == a[q]
    ensures Resembles(RemoveUserDataFrom(a, perms, home, argv).tree, a)
  {
    var x := RemoveUserDataFrom(a, perms, home, argv).tree;
    forall q | q in x ensures q in a && x[q] == a[q] {
      UserDataKeepsOrRemoves(a, perms, home, argv, q);
    }
  }

  /** With a wildcard-free home directory only the first two candidates are globs. */
  lemma LiteralCandidates(home: Path)
    requires '*' !in home
    ensures forall i :: 2 <= i < |PossiblePaths(home)| ==> !IsGlob(PossiblePaths(home)[i])
  {
  }

  /** Removing only paths in the configuration directory shelters every binary candidate. */
  lemma CandidatesSheltered(b: Tree, x: Tree, home: Path)
    requires '*' !in home
    requires forall q :: q in b && !InSubtree(q, ConfigDir(home)) ==> q in x
    ensures forall i :: 0 <= i < |PossiblePaths(home)| ==> Sheltered(x, b, PossiblePaths(home)[i])
  {
    var cs := PossiblePaths(home);
    forall i | 0 <= i < |cs| ensures Sheltered(x, b, cs[i]) {
      if i == 0 {
        GlobSheltered(b, x, home, ".nvm/versions/node/*/bin/claude");
      } else if i == 1 {
        GlobSheltered(b, x, home, ".nvm/versions/node/*/bin/claude-code-updater");
      } else {
        LiteralCandidates(home);
      }
    }
  }

  /** After a run the binary loop finds nothing more to remove. */
  lemma BinariesSettledAfterRun(t: Tree, perms: Perms, home: Path, platform: string, argv: seq<string>,
                                scrub: string -> string)
    requires '*' !in home
    ensures var once := CleanupTree(t, perms, home, platform, argv, scrub);
      RemoveAll(once, perms, PossiblePaths(home)) == once
  {
    var cs := PossiblePaths(home);
    var b := RemoveAll(t, perms, cs);
    var a := RemoveAliasesFrom(b, perms, home, platform, scrub);
    var x := RemoveUserDataFrom(a, perms, home, argv).tree;
    UserDataGate(a, perms, home, argv);
    RemoveAllIdempotent(t, perms, cs);
    RemoveAliasesResembles(b, perms, home, platform, scrub);
    UserDataResembles(a, perms, home, argv);
    ResemblesTrans(x, a, b);
    CandidatesSheltered(b, x, home);
    RemoveAllStaysSettled(b, x, perms, cs);
  }

  /** After a run the alias loops find nothing more to rewrite. */
  lemma AliasesSettledAfterRun(t: Tree, perms: Perms, home: Path, platform: string, argv: seq<string>,
                               scrub: string -> string)
    requires platform == "win32" ==> Idempotent(scrub)
    ensures var once := CleanupTree(t, perms, home, platform, argv, scrub);
      RemoveAliasesFrom(once, perms, home, platform, scrub) == once
  {
    var b := RemoveAll(t, perms, PossiblePaths(home));
    var a := RemoveAliasesFrom(b, perms, home, platform, scrub);
    var x := RemoveUserDataFrom(a, perms, home, argv).tree;
    UserDataGate(a, perms, home, argv);
    RemoveAliasesSettles(b, perms, home, platform, scrub);
    SweptFilesOutsideConfig(home);
    SettledTransfer(a, x, perms, Posix, ShellFiles(home));
    SettledNoop(x, perms, Posix, ShellFiles(home));
    if platform == "win32" {
      SettledTransfer(a, x, perms, PowerShell(scrub), ProfilePaths(home));
      SettledNoop(x, perms, PowerShell(scrub), ProfilePaths(home));
    }
  }

  /**
   * Idempotence of the whole run: a second cleanup of the filesystem the first
   * one left changes nothing, provided the home directory has no '*' in it and
   * the PowerShell substitution is itself idempotent.
   */
  lemma CleanupIdempotent(t: Tree, perms: Perms, home: Path, platform: string, argv: seq<string>,
                          scrub: string -> string)
    requires '*' !in home
    requires platform == "win32" ==> Idempotent(scrub)
    ensures var once := CleanupTree(t, perms, home, platform, argv, scrub);
      CleanupTree(once, perms, home, platform, argv, scrub) == once
  {
    var a := RemoveAliasesFrom(RemoveAll(t, perms, PossiblePaths(home)), perms, home, platform, scrub);
    BinariesSettledAfterRun(t, perms, home, platform, argv, scrub);
    AliasesSettledAfterRun(t, perms, home, platform, argv, scrub);
    UserDataIdempotent(a, perms, home, argv);
  }
}
