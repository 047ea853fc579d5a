/**
 * Alias removal (`CompleteCleanup.removeAliases`, scripts/cleanup.js).  POSIX and
 * fish configuration files are filtered line by line; on Windows the PowerShell
 * profiles are rewritten by a pattern substitution, kept abstract here as a
 * function `scrub` from text to text.
 */
module Aliases {
  import opened Wrappers
  import opened Seqs
  import opened Strings
  import opened Fs

  const UpdaterName: string := "claude-code-updater"
  const AliasDef: string := "alias claude="
  const Marker: string := "# Added by claude-code-updater"

  /** The filter's predicate: the line mentions neither the package, the alias, nor the marker. */
  predicate KeepLine(line: string)
  {
    !Contains(line, UpdaterName) && !Contains(line, AliasDef) && !Contains(line, Marker)
  }

  /** The lines of `content` that survive the filter, in order. */
  function KeptLines(content: string): seq<string>
  {
    Filter(KeepLine, Split(content))
  }

  /** New text for a POSIX/fish file, or None when no line was dropped and nothing is written. */
  function ScrubPosix(content: string): Option<string>
  {
    var lines := Split(content);
    var kept := Filter(KeepLine, lines);
    if |kept| != |lines| then Some(Join(kept)) else None
  }

  // ---------------------------------------------------------------- the line filter

  /** The marker test is redundant: the marker contains the package name. */
  lemma MarkerSubsumed(line: string)
    ensures Contains(line, Marker) ==> Contains(line, UpdaterName)
    ensures KeepLine(line) <==> !Contains(line, UpdaterName) && !Contains(line, AliasDef)
  {
    assert Marker == "# Added by " + UpdaterName;
    if Contains(line, Marker) {
      ContainsPatternSuffix(line, "# Added by ", UpdaterName);
    }
  }

  /** Kept lines are exactly the lines holding neither the package name nor the alias, in order. */
  lemma KeptLinesExactly(content: string, line: string)
    ensures line in KeptLines(content) <==>
      line in Split(content) && !Contains(line, UpdaterName) && !Contains(line, AliasDef)
  {
    FilterMembers(KeepLine, Split(content), line);
    MarkerSubsumed(line);
  }

  /** Write rule: the file is rewritten exactly when some line was dropped. */
  lemma ScrubWritesIffDropped(content: string)
    ensures ScrubPosix(content).Some? <==>
      exists i :: 0 <= i < |Split(content)| && !KeepLine(Split(content)[i])
  {
    var lines := Split(content);
    FilterLength(KeepLine, lines);
    assert ScrubPosix(content).Some? <==> |Filter(KeepLine, lines)| != |lines|;
    if |Filter(KeepLine, lines)| != |lines| {
      assert !(forall i :: 0 <= i < |lines| ==> KeepLine(lines[i]));
      var i :| 0 <= i < |lines| && !KeepLine(lines[i]);
      assert ScrubPosix(content).Some?;
      assert exists i :: 0 <= i < |Split(content)| && !KeepLine(Split(content)[i]);
    } else {
      assert forall i :: 0 <= i < |lines| ==> KeepLine(lines[i]);
    }
  }

  /**
   * When anything survives, reading the rewritten file back gives exactly the
   * kept lines; when nothing does, the file is rewritten empty.
   */
  lemma ScrubRereads(content: string)
    requires ScrubPosix(content).Some?
    ensures KeptLines(content) != [] ==> Split(ScrubPosix(content).value) == KeptLines(content)
    ensures KeptLines(content) == [] ==> ScrubPosix(content).value == ""
  {
    var kept := KeptLines(content);
    if kept != [] {
      SplitNoNewline(content);
      forall i | 0 <= i < |kept| ensures '\n' !in kept[i] {
        FilterMembers(KeepLine, Split(content), kept[i]);
      }
      SplitJoin(kept);
    }
  }

  /** No residue: the rewritten text contains neither the package name nor the alias. */
  lemma ScrubNoResidue(content: string)
    requires ScrubPosix(content).Some?
    ensures !Contains(ScrubPosix(content).value, UpdaterName)
    ensures !Contains(ScrubPosix(content).value, AliasDef)
  {
    var kept := KeptLines(content);
    FilterAllKept(KeepLine, Split(content));
    JoinAvoids(kept, UpdaterName);
    JoinAvoids(kept, AliasDef);
  }

  /** The line filter fires exactly when the text mentions the package or the alias. */
  lemma ScrubNeededIffResidue(content: string)
    ensures ScrubPosix(content).Some? <==> Contains(content, UpdaterName) || Contains(content, AliasDef)
  {
    ScrubWritesIffDropped(content);
    ContainsIffSomeLine(content, UpdaterName);
    ContainsIffSomeLine(content, AliasDef);
    forall i | 0 <= i < |Split(content)| ensures !KeepLine(Split(content)[i]) <==>
      Contains(Split(content)[i], UpdaterName) || Contains(Split(content)[i], AliasDef)
    {
      MarkerSubsumed(Split(content)[i]);
    }
  }

  /** Idempotence: filtering already-filtered text drops nothing, so no second write. */
  lemma ScrubIdempotent(content: string)
    requires ScrubPosix(content).Some?
    ensures ScrubPosix(ScrubPosix(content).value) == None
    ensures ScrubPosix(content).value != content
  {
    ScrubNoResidue(content);
    ScrubNeededIffResidue(ScrubPosix(content).value);
    ScrubNeededIffResidue(content);
  }

  // ---------------------------------------------------------------- one file, one dialect

  /**
   * POSIX/fish files are filtered and every error is caught per file; PowerShell
   * profiles are rewritten with `scrub` when they mention the package, and an
   * error there escapes the loop over profiles.
   */
  datatype Dialect = Posix | PowerShell(scrub: string -> string)

  /** One iteration of a loop over configuration files; None when an error escapes the loop. */
  function FileStep(t: Tree, perms: Perms, d: Dialect, f: Path): Option<Tree>
  {
    if f !in t then Some(t)
    else match ReadFile(t, perms, f)
      case Err(_) => if d.Posix? then Some(t) else None
      case Ok(c) =>
        match d
        case Posix =>
          (match ScrubPosix(c)
           case None => Some(t)
           case Some(r) => match WriteFile(t, perms, f, r)
             case Ok(t') => Some(t')
             case Err(_) => Some(t))
        case PowerShell(scrub) =>
          if !Contains(c, UpdaterName) then Some(t)
          else match WriteFile(t, perms, f, scrub(c))
            case Ok(t') => Some(t')
            case Err(_) => None
  }

  /** A loop over configuration files, stopping where an error escapes. */
  function Sweep(t: Tree, perms: Perms, d: Dialect, files: seq<Path>): Tree
    decreases |files|
  {
    if files == [] then t
    else match FileStep(t, perms, d, files[0])
      case None => t
      case Some(t') => Sweep(t', perms, d, files[1..])
  }

  function ShellFiles(home: Path): seq<Path>
  {
    [ PathJoin(home, ".bashrc"), PathJoin(home, ".bash_profile"),
      PathJoin(home, ".zshrc"), PathJoin(home, ".config/fish/config.fish") ]
  }

  function ProfilePaths(home: Path): seq<Path>
  {
    [ PathJoin(home, "Documents/PowerShell/profile.ps1"),
      PathJoin(home, "Documents/WindowsPowerShell/profile.ps1") ]
  }

  /** The filesystem `removeAliases` leaves behind. */
  function RemoveAliasesFrom(t: Tree, perms: Perms, home: Path, platform: string, scrub: string -> string): Tree
  {
    var t1 := Sweep(t, perms, Posix, ShellFiles(home));
    if platform == "win32" then Sweep(t1, perms, PowerShell(scrub), ProfilePaths(home)) else t1
  }

  /** The POSIX step on one file: rewritten with the filtered text exactly when a line was dropped. */
  lemma PosixStepEffect(t: Tree, perms: Perms, f: Path)
    ensures FileStep(t, perms, Posix, f).Some?
    ensures var t' := FileStep(t, perms, Posix, f).value;
      if ReadFile(t, perms, f).Ok? && ScrubPosix(ReadFile(t, perms, f).value).Some? && f !in perms.noWrite
      then t' == t[f := File(ScrubPosix(ReadFile(t, perms, f).value).value)] && t' != t
      else t' == t
  {
    if ReadFile(t, perms, f).Ok? && ScrubPosix(ReadFile(t, perms, f).value).Some? && f !in perms.noWrite {
      var c := ReadFile(t, perms, f).value;
      ScrubIdempotent(c);
      assert t[f := File(ScrubPosix(c).value)][f] != t[f];
    }
  }

  // ---------------------------------------------------------------- idempotence of the loops

  ghost predicate Idempotent(scrub: string -> string)
  {
    forall c :: scrub(scrub(c)) == scrub(c)
  }

  ghost predicate FixedAt(t: Tree, perms: Perms, d: Dialect, f: Path)
  {
    FileStep(t, perms, d, f) == Some(t)
  }

  /** Re-running the loop over `files` would change nothing. */
  ghost predicate Settled(t: Tree, perms: Perms, d: Dialect, files: seq<Path>)
    decreases |files|
  {
    || files == []
    || FileStep(t, perms, d, files[0]) == None
    || (FixedAt(t, perms, d, files[0]) && Settled(t, perms, d, files[1..]))
  }

  /** A step writes at most its own file, and only a file that already exists. */
  lemma StepShape(t: Tree, perms: Perms, d: Dialect, f: Path)
    requires FileStep(t, perms, d, f).Some?
    ensures var t' := FileStep(t, perms, d, f).value;
      t' == t || (f in t && f in t' && t' == t[f := t'[f]])
  {
  }

  /** A step on `f` is insensitive to what happens at another path `g`. */
  lemma StepLocal(t: Tree, perms: Perms, d: Dialect, f: Path, g: Path, v: Node)
    requires g != f
    ensures FileStep(t[g := v], perms, d, f) ==
      match FileStep(t, perms, d, f)
      case None => None
      case Some(t') => Some(t'[g := v])
  {
    var u := t[g := v];
    assert (f in u) == (f in t);
    if f in t {
      assert u[f] == t[f];
      assert ReadFile(u, perms, f) == ReadFile(t, perms, f);
      forall c: string ensures WriteFile(u, perms, f, c) ==
        (match WriteFile(t, perms, f, c) case Ok(t') => Ok(t'[g := v]) case Err(e) => Err(e))
      {
        if WriteFile(t, perms, f, c).Ok? {
          assert u[f := File(c)] == t[f := File(c)][g := v];
        }
      }
    }
  }

  lemma StepFixes(t: Tree, perms: Perms, d: Dialect, f: Path)
    requires d.PowerShell? ==> Idempotent(d.scrub)
    requires FileStep(t, perms, d, f).Some?
    ensures FixedAt(FileStep(t, perms, d, f).value, perms, d, f)
  {
    var t' := FileStep(t, perms, d, f).value;
    if t' != t {
      var c := ReadFile(t, perms, f).value;
      match d
      case Posix =>
        ScrubIdempotent(c);
      case PowerShell(scrub) =>
        assert t'[f] == File(scrub(c));
        assert scrub(scrub(c)) == scrub(c);
        assert t'[f := File(scrub(scrub(c)))] == t';
    }
  }

  lemma FixedAfterOtherStep(t: Tree, perms: Perms, d: Dialect, f: Path, d': Dialect, g: Path)
    requires FixedAt(t, perms, d, f) && g != f && FileStep(t, perms, d', g).Some?
    ensures FixedAt(FileStep(t, perms, d', g).value, perms, d, f)
  {
    var t' := FileStep(t, perms, d', g).value;
    StepShape(t, perms, d', g);
    if t' != t {
      StepLocal(t, perms, d, f, g, t'[g]);
    }
  }

  lemma {:induction false} FixedAfterSweep(t: Tree, perms: Perms, d: Dialect, f: Path, files: seq<Path>)
    requires FixedAt(t, perms, d, f)
    ensures FixedAt(Sweep(t, perms, d, files), perms, d, f)
    decreases |files|
  {
    if files != [] && FileStep(t, perms, d, files[0]).Some? {
      if files[0] != f {
        FixedAfterOtherStep(t, perms, d, f, d, files[0]);
      }
      FixedAfterSweep(FileStep(t, perms, d, files[0]).value, perms, d, f, files[1..]);
    }
  }

  lemma {:induction false} SettledNoop(t: Tree, perms: Perms, d: Dialect, files: seq<Path>)
    requires Settled(t, perms, d, files)
    ensures Sweep(t, perms, d, files) == t
    decreases |files|
  {
    if files != [] && FileStep(t, perms, d, files[0]) != None {
      SettledNoop(t, perms, d, files[1..]);
    }
  }

  lemma {:induction false} SweepSettles(t: Tree, perms: Perms, d: Dialect, files: seq<Path>)
    requires d.PowerShell? ==> Idempotent(d.scrub)
    ensures Settled(Sweep(t, perms, d, files), perms, d, files)
    decreases |files|
  {
    if files != [] && FileStep(t, perms, d, files[0]).Some? {
      var t1 := FileStep(t, perms, d, files[0]).value;
      StepFixes(t, perms, d, files[0]);
      FixedAfterSweep(t1, perms, d, files[0], files[1..]);
      SweepSettles(t1, perms, d, files[1..]);
    }
  }

  lemma {:induction false} SettledAfterOtherStep(t: Tree, perms: Perms, d: Dialect, files: seq<Path>, d': Dialect, g: Path)
    requires Settled(t, perms, d, files) && g !in files && FileStep(t, perms, d', g).Some?
    ensures Settled(FileStep(t, perms, d', g).value, perms, d, files)
    decreases |files|
  {
    if files != [] {
      var t' := FileStep(t, perms, d', g).value;
      StepShape(t, perms, d', g);
      if t' != t {
        StepLocal(t, perms, d, files[0], g, t'[g]);
      }
      if FileStep(t, perms, d, files[0]) != None {
        SettledAfterOtherStep(t, perms, d, files[1..], d', g);
      }
    }
  }

  lemma {:induction false} SettledAfterOtherSweep(t: Tree, perms: Perms, d: Dialect, files: seq<Path>, d': Dialect, gs: seq<Path>)
    requires Settled(t, perms, d, files)
    requires forall k :: 0 <= k < |gs| ==> gs[k] !in files
    ensures Settled(Sweep(t, perms, d', gs), perms, d, files)
    decreases |gs|
  {
    if gs != [] && FileStep(t, perms, d', gs[0]).Some? {
      SettledAfterOtherStep(t, perms, d, files, d', gs[0]);
      SettledAfterOtherSweep(FileStep(t, perms, d', gs[0]).value, perms, d, files, d', gs[1..]);
    }
  }

  lemma ProfilesAreNotShellFiles(home: Path)
    ensures forall k :: 0 <= k < |ProfilePaths(home)| ==> ProfilePaths(home)[k] !in ShellFiles(home)
  {
  }

  /**
   * Running `removeAliases` a second time changes nothing, provided the
   * PowerShell substitution is itself idempotent.
   */
  lemma RemoveAliasesIdempotent(t: Tree, perms: Perms, home: Path, platform: string, scrub: string -> string)
    requires platform == "win32" ==> Idempotent(scrub)
    ensures var once := RemoveAliasesFrom(t, perms, home, platform, scrub);
      RemoveAliasesFrom(once, perms, home, platform, scrub) == once
  {
    var t1 := Sweep(t, perms, Posix, ShellFiles(home));
    SweepSettles(t, perms, Posix, ShellFiles(home));
    if platform == "win32" {
      var t2 := Sweep(t1, perms, PowerShell(scrub), ProfilePaths(home));
      ProfilesAreNotShellFiles(home);
      SettledAfterOtherSweep(t1, perms, Posix, ShellFiles(home), PowerShell(scrub), ProfilePaths(home));
      SettledNoop(t2, perms, Posix, ShellFiles(home));
      SweepSettles(t1, perms, PowerShell(scrub), ProfilePaths(home));
      SettledNoop(t2, perms, PowerShell(scrub), ProfilePaths(home));
    } else {
      SettledNoop(t1, perms, Posix, ShellFiles(home));
    }
  }
  // ---------------------------------------------------------------- what a sweep leaves behind

  /** A sweep creates no file and removes none: the set of paths is unchanged. */
  lemma {:induction false} SweepKeepsPaths(t: Tree, perms: Perms, d: Dialect, files: seq<Path>)
    ensures Sweep(t, perms, d, files).Keys == t.Keys
    decreases |files|
  {
    if files != [] && FileStep(t, perms, d, files[0]).Some? {
      StepShape(t, perms, d, files[0]);
      SweepKeepsPaths(FileStep(t, perms, d, files[0]).value, perms, d, files[1..]);
    }
  }

  /** A sweep leaves every path outside its file list exactly as it was. */
  lemma {:induction false} SweepKeepsOthers(t: Tree, perms: Perms, d: Dialect, files: seq<Path>, f: Path)
    requires f !in files
    ensures var t' := Sweep(t, perms, d, files);
      (f in t' <==> f in t) && (f in t ==> t'[f] == t[f])
    decreases |files|
  {
    if files != [] && FileStep(t, perms, d, files[0]).Some? {
      StepShape(t, perms, d, files[0]);
      SweepKeepsOthers(FileStep(t, perms, d, files[0]).value, perms, d, files[1..], f);
    }
  }

  /** The POSIX step can read and, if need be, rewrite `f`: it is absent or a plain accessible file. */
  predicate Rewritable(t: Tree, perms: Perms, f: Path)
  {
    f !in t || (t[f].File? && f !in perms.noRead && f !in perms.noWrite)
  }

  /** `f` is rewritable and holds neither the package name nor the alias definition. */
  predicate Scrubbed(t: Tree, perms: Perms, f: Path)
  {
    Rewritable(t, perms, f) &&
    (f in t ==> !Contains(t[f].content, UpdaterName) && !Contains(t[f].content, AliasDef))
  }

  /** The POSIX step on a rewritable file leaves it scrubbed. */
  lemma PosixStepScrubs(t: Tree, perms: Perms, f: Path)
    requires Rewritable(t, perms, f)
    ensures Scrubbed(FileStep(t, perms, Posix, f).value, perms, f)
  {
    PosixStepEffect(t, perms, f);
    if f in t {
      var c := t[f].content;
      assert ReadFile(t, perms, f) == Ok(c);
      ScrubNeededIffResidue(c);
      if ScrubPosix(c).Some? {
        ScrubNoResidue(c);
      }
    }
  }

  /** A POSIX step on any file keeps a rewritable file rewritable and a scrubbed file scrubbed. */
  lemma PosixStepKeeps(t: Tree, perms: Perms, f: Path, g: Path)
    requires Rewritable(t, perms, f)
    ensures var t' := FileStep(t, perms, Posix, g).value;
      Rewritable(t', perms, f) && (Scrubbed(t, perms, f) ==> Scrubbed(t', perms, f))
  {
    var t' := FileStep(t, perms, Posix, g).value;
    if g == f {
      PosixStepScrubs(t, perms, f);
      if Scrubbed(t, perms, f) && f in t {
        ScrubNeededIffResidue(t[f].content);
        assert ReadFile(t, perms, f) == Ok(t[f].content);
      }
    } else {
      StepShape(t, perms, Posix, g);
    }
  }

  /** The POSIX sweep keeps rewritable files rewritable and scrubbed files scrubbed. */
  lemma {:induction false} PosixSweepKeeps(t: Tree, perms: Perms, files: seq<Path>, f: Path)
    requires Rewritable(t, perms, f)
    ensures var t' := Sweep(t, perms, Posix, files);
      Rewritable(t', perms, f) && (Scrubbed(t, perms, f) ==> Scrubbed(t', perms, f))
    decreases |files|
  {
    if files != [] {
      PosixStepKeeps(t, perms, f, files[0]);
      PosixSweepKeeps(FileStep(t, perms, Posix, files[0]).value, perms, files[1..], f);
    }
  }

  /** Every rewritable file on the POSIX list is scrubbed once the sweep is over. */
  lemma {:induction false} PosixSweepScrubs(t: Tree, perms: Perms, files: seq<Path>, f: Path)
    requires f in files && Rewritable(t, perms, f)
    ensures Scrubbed(Sweep(t, perms, Posix, files), perms, f)
    decreases |files|
  {
    var t1 := FileStep(t, perms, Posix, files[0]).value;
    if files[0] == f {
      PosixStepScrubs(t, perms, f);
      PosixSweepKeeps(t1, perms, files[1..], f);
    } else {
      PosixStepKeeps(t, perms, f, files[0]);
      PosixSweepScrubs(t1, perms, files[1..], f);
    }
  }
  // ---------------------------------------------------------------- settled trees after other changes

  /** A sweep rewrites files only: it creates and removes nothing and leaves directories alone. */
  lemma {:induction false} SweepResembles(t: Tree, perms: Perms, d: Dialect, files: seq<Path>)
    ensures Resembles(Sweep(t, perms, d, files), t)
    decreases |files|
  {
    if files != [] && FileStep(t, perms, d, files[0]).Some? {
      var t1 := FileStep(t, perms, d, files[0]).value;
      StepShape(t, perms, d, files[0]);
      assert Resembles(t1, t);
      SweepResembles(t1, perms, d, files[1..]);
      ResemblesTrans(Sweep(t1, perms, d, files[1..]), t1, t);
    }
  }

  /** What a step does at `f` depends only on the node at `f`. */
  lemma StepAgrees(a: Tree, x: Tree, perms: Perms, d: Dialect, f: Path)
    requires AgreeAt(a, x, f)
    ensures FileStep(a, perms, d, f).None? <==> FileStep(x, perms, d, f).None?
    ensures FixedAt(a, perms, d, f) ==> FixedAt(x, perms, d, f)
  {
    assert ReadFile(a, perms, f) == ReadFile(x, perms, f);
    forall c: string
      ensures WriteFile(x, perms, f, c).Ok? == WriteFile(a, perms, f, c).Ok?
      ensures WriteFile(a, perms, f, c) == Ok(a) ==> WriteFile(x, perms, f, c) == Ok(x)
    {
      if WriteFile(a, perms, f, c) == Ok(a) {
        assert a[f := File(c)][f] == File(c);
        assert x[f := File(c)] == x;
      }
    }
  }

  /** Settledness of a sweep carries over to any tree agreeing at its files. */
  lemma {:induction false} SettledTransfer(a: Tree, x: Tree, perms: Perms, d: Dialect, files: seq<Path>)
    requires Settled(a, perms, d, files)
    requires forall k :: 0 <= k < |files| ==> AgreeAt(a, x, files[k])
    ensures Settled(x, perms, d, files)
    decreases |files|
  {
    if files != [] {
      StepAgrees(a, x, perms, d, files[0]);
      if FileStep(a, perms, d, files[0]).Some? {
        forall k | 0 <= k < |files[1..]| ensures AgreeAt(a, x, files[1..][k]) {
          assert files[1..][k] == files[k + 1];
        }
        SettledTransfer(a, x, perms, d, files[1..]);
      }
    }
  }

  /** After `removeAliases`, both of its loops are settled. */
  lemma RemoveAliasesSettles(t: Tree, perms: Perms, home: Path, platform: string, scrub: string -> string)
    requires platform == "win32" ==> Idempotent(scrub)
    ensures var once := RemoveAliasesFrom(t, perms, home, platform, scrub);
      && Settled(once, perms, Posix, ShellFiles(home))
      && (platform == "win32" ==> Settled(once, perms, PowerShell(scrub), ProfilePaths(home)))
  {
    var t1 := Sweep(t, perms, Posix, ShellFiles(home));
    SweepSettles(t, perms, Posix, ShellFiles(home));
    if platform == "win32" {
      ProfilesAreNotShellFiles(home);
      SettledAfterOtherSweep(t1, perms, Posix, ShellFiles(home), PowerShell(scrub), ProfilePaths(home));
      SweepSettles(t1, perms, PowerShell(scrub), ProfilePaths(home));
    }
  }
  /** `removeAliases` rewrites files only and keeps the set of paths. */
  lemma RemoveAliasesResembles(t: Tree, perms: Perms, home: Path, platform: string, scrub: string -> string)
    ensures var once := RemoveAliasesFrom(t, perms, home, platform, scrub);
      Resembles(once, t) && once.Keys == t.Keys
  {
    var t1 := Sweep(t, perms, Posix, ShellFiles(home));
    SweepResembles(t, perms, Posix, ShellFiles(home));
    SweepKeepsPaths(t, perms, Posix, ShellFiles(home));
    if platform == "win32" {
      SweepResembles(t1, perms, PowerShell(scrub), ProfilePaths(home));
      SweepKeepsPaths(t1, perms, PowerShell(scrub), ProfilePaths(home));
      ResemblesTrans(Sweep(t1, perms, PowerShell(scrub), ProfilePaths(home)), t1, t);
    }
  }
}
