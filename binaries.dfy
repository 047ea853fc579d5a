/**
 * Binary removal (`CompleteCleanup.removeBinaries`, scripts/cleanup.js): a fixed
 * table of candidate paths, some literal and some with a '*' standing for a
 * Node version directory.  These functions give the filesystem the loop leaves
 * behind; the lemmas say which paths it may touch and which it must remove.
 */
module Binaries {
  import opened Wrappers
  import opened Strings
  import opened Fs

  /** The candidate table, in the order the loop visits it. */
  function PossiblePaths(home: Path): seq<Path>
  {
    [ PathJoin(home, ".nvm/versions/node/*/bin/claude"),
      PathJoin(home, ".nvm/versions/node/*/bin/claude-code-updater"),
      "/usr/local/bin/claude",
      "/usr/local/bin/claude-code-updater",
      PathJoin(home, "AppData/Roaming/npm/claude.cmd"),
      PathJoin(home, "AppData/Roaming/npm/claude-code-updater.cmd") ]
  }

  /** `binaryPath.includes('*')`. */
  predicate IsGlob(c: Path)
  {
    '*' in c
  }

  /** Where the expansion of one pattern ended, and whether an error cut it short. */
  datatype Expansion = Expansion(tree: Tree, abandoned: bool)

  /** The inner loop over the listed versions; a failing unlink abandons the rest. */
  function ExpandEntries(t: Tree, perms: Perms, pattern: Path, entries: seq<string>): Expansion
    decreases |entries|
  {
    if entries == [] then Expansion(t, false)
    else
      var p := ReplaceFirstStar(pattern, entries[0]);
      if p !in t then ExpandEntries(t, perms, pattern, entries[1..])
      else match Unlink(t, perms, p)
        case Ok(t') => ExpandEntries(t', perms, pattern, entries[1..])
        case Err(_) => Expansion(t, true)
  }

  /** A glob candidate: list the directory before the first '*' and expand each entry. */
  function GlobStep(t: Tree, perms: Perms, pattern: Path): Tree
  {
    var base := PrefixBeforeStar(pattern);
    if base !in t then t
    else match ReadDir(t, perms, base)
      case Err(_) => t
      case Ok(entries) => ExpandEntries(t, perms, pattern, entries).tree
  }

  /** A literal candidate: unlink it if it exists; a failure is reported and skipped. */
  function LiteralStep(t: Tree, perms: Perms, p: Path): Tree
  {
    if p !in t then t
    else match Unlink(t, perms, p)
      case Ok(t') => t'
      case Err(_) => t
  }

  function CandidateStep(t: Tree, perms: Perms, c: Path): Tree
  {
    if IsGlob(c) then GlobStep(t, perms, c) else LiteralStep(t, perms, c)
  }

  /** The whole loop: every candidate is visited, whatever happened to earlier ones. */
  function RemoveAll(t: Tree, perms: Perms, cs: seq<Path>): Tree
    decreases |cs|
  {
    if cs == [] then t else RemoveAll(CandidateStep(t, perms, cs[0]), perms, cs[1..])
  }

  // ---------------------------------------------------------------- what may be touched

  /** `x` is `y` with some removable files taken away and nothing else changed. */
  ghost predicate Shrunk(x: Tree, y: Tree, perms: Perms)
  {
    && x.Keys <= y.Keys
    && (forall q :: q in x ==> x[q] == y[q])
    && (forall q :: q in y && q !in x ==> Removable(y, perms, q))
  }

  /** `p` is `pattern` with its first '*' replaced by an entry of the listed directory. */
  ghost predicate ExpansionOf(t: Tree, pattern: Path, p: Path)
  {
    var base := PrefixBeforeStar(pattern);
    && base in t && t[base].Dir?
    && exists k :: 0 <= k < |t[base].entries| && p == ReplaceFirstStar(pattern, t[base].entries[k])
  }

  ghost predicate TargetOf(t: Tree, c: Path, p: Path)
  {
    if IsGlob(c) then ExpansionOf(t, c, p) else p == c
  }

  ghost predicate IsTarget(t: Tree, cs: seq<Path>, p: Path)
  {
    exists i :: 0 <= i < |cs| && TargetOf(t, cs[i], p)
  }

  lemma ShrunkTrans(x: Tree, y: Tree, z: Tree, perms: Perms)
    requires Shrunk(x, y, perms) && Shrunk(y, z, perms)
    ensures Shrunk(x, z, perms)
  {
    forall q | q in z && q !in x ensures Removable(z, perms, q) {
      if q in y { assert y[q] == z[q]; }
    }
  }

  /** The inner loop removes only removable files, and only expansions of the pattern. */
  lemma {:induction false} ExpandShrinks(t: Tree, perms: Perms, pattern: Path, entries: seq<string>)
    ensures Shrunk(ExpandEntries(t, perms, pattern, entries).tree, t, perms)
    ensures forall p :: p in t && p !in ExpandEntries(t, perms, pattern, entries).tree ==>
      exists k :: 0 <= k < |entries| && p == ReplaceFirstStar(pattern, entries[k])
  {
    if entries != [] {
      var p := ReplaceFirstStar(pattern, entries[0]);
      if p !in t {
        ExpandShrinks(t, perms, pattern, entries[1..]);
        forall q | q in t && q !in ExpandEntries(t, perms, pattern, entries).tree
          ensures exists k :: 0 <= k < |entries| && q == ReplaceFirstStar(pattern, entries[k])
        {
          var k :| 0 <= k < |entries[1..]| && q == ReplaceFirstStar(pattern, entries[1..][k]);
          assert entries[1..][k] == entries[k + 1];
        }
      } else if Unlink(t, perms, p).Ok? {
        var t' := t - {p};
        ExpandShrinks(t', perms, pattern, entries[1..]);
        ShrunkTrans(ExpandEntries(t', perms, pattern, entries[1..]).tree, t', t, perms);
        forall q | q in t && q !in ExpandEntries(t, perms, pattern, entries).tree
          ensures exists k :: 0 <= k < |entries| && q == ReplaceFirstStar(pattern, entries[k])
        {
          if q != p {
            var k :| 0 <= k < |entries[1..]| && q == ReplaceFirstStar(pattern, entries[1..][k]);
            assert entries[1..][k] == entries[k + 1];
          }
        }
      }
    }
  }

  lemma StepShrinks(t: Tree, perms: Perms, c: Path)
    ensures Shrunk(CandidateStep(t, perms, c), t, perms)
    ensures forall p :: p in t && p !in CandidateStep(t, perms, c) ==> TargetOf(t, c, p)
  {
    if IsGlob(c) {
      var base := PrefixBeforeStar(c);
      if base in t && ReadDir(t, perms, base).Ok? {
        ExpandShrinks(t, perms, c, t[base].entries);
      }
    }
  }

  /**
   * Nothing outside the candidate table and the expansions of its glob patterns
   * is removed, nothing is added or modified, and only removable files go.
   */
  lemma {:induction false} RemovesOnlyTargets(t: Tree, perms: Perms, cs: seq<Path>)
    ensures Shrunk(RemoveAll(t, perms, cs), t, perms)
    ensures forall p :: p in t && p !in RemoveAll(t, perms, cs) ==> IsTarget(t, cs, p)
  {
    if cs != [] {
      var t1 := CandidateStep(t, perms, cs[0]);
      StepShrinks(t, perms, cs[0]);
      RemovesOnlyTargets(t1, perms, cs[1..]);
      ShrunkTrans(RemoveAll(t1, perms, cs[1..]), t1, t, perms);
      forall p | p in t && p !in RemoveAll(t, perms, cs) ensures IsTarget(t, cs, p) {
        if p !in t1 {
          assert TargetOf(t, cs[0], p);
        } else {
          var i :| 0 <= i < |cs[1..]| && TargetOf(t1, cs[1..][i], p);
          assert cs[1..][i] == cs[i + 1];
          if IsGlob(cs[i + 1]) {
            var base := PrefixBeforeStar(cs[i + 1]);
            assert t1[base] == t[base];
          }
          assert TargetOf(t, cs[i + 1], p);
        }
      }
    }
  }

  // ---------------------------------------------------------------- what must be removed

  /** Absent paths stay absent: the loop never creates anything. */
  lemma AbsentStaysAbsent(t: Tree, perms: Perms, cs: seq<Path>, p: Path)
    requires p !in t
    ensures p !in RemoveAll(t, perms, cs)
  {
    RemovesOnlyTargets(t, perms, cs);
  }

  /** A literal candidate that is an existing, removable file is gone afterwards. */
  lemma {:induction false} LiteralRemoved(t: Tree, perms: Perms, cs: seq<Path>, i: nat)
    requires i < |cs| && !IsGlob(cs[i]) && Removable(t, perms, cs[i])
    ensures cs[i] !in RemoveAll(t, perms, cs)
  {
    var t1 := CandidateStep(t, perms, cs[0]);
    StepShrinks(t, perms, cs[0]);
    if i == 0 {
      AbsentStaysAbsent(t1, perms, cs[1..], cs[0]);
    } else if cs[i] !in t1 {
      AbsentStaysAbsent(t1, perms, cs[1..], cs[i]);
    } else {
      assert cs[1..][i - 1] == cs[i];
      LiteralRemoved(t1, perms, cs[1..], i - 1);
    }
  }

  /** With no failing expansion, the inner loop runs to the end and removes every expansion. */
  lemma {:induction false} ExpandRemovesAll(t: Tree, perms: Perms, pattern: Path, entries: seq<string>)
    requires forall k :: 0 <= k < |entries| && ReplaceFirstStar(pattern, entries[k]) in t ==>
      Removable(t, perms, ReplaceFirstStar(pattern, entries[k]))
    ensures !ExpandEntries(t, perms, pattern, entries).abandoned
    ensures forall k :: 0 <= k < |entries| ==>
      ReplaceFirstStar(pattern, entries[k]) !in ExpandEntries(t, perms, pattern, entries).tree
  {
    if entries != [] {
      var p := ReplaceFirstStar(pattern, entries[0]);
      var t' := if p in t then t - {p} else t;
      forall k | 0 <= k < |entries[1..]| && ReplaceFirstStar(pattern, entries[1..][k]) in t'
        ensures Removable(t', perms, ReplaceFirstStar(pattern, entries[1..][k]))
      {
        assert entries[1..][k] == entries[k + 1];
      }
      ExpandRemovesAll(t', perms, pattern, entries[1..]);
      ExpandShrinks(t', perms, pattern, entries[1..]);
      forall k | 0 <= k < |entries|
        ensures ReplaceFirstStar(pattern, entries[k]) !in ExpandEntries(t, perms, pattern, entries).tree
      {
        if k > 0 { assert entries[1..][k - 1] == entries[k]; }
      }
    }
  }

  /**
   * For a glob candidate whose directory can be listed and none of whose
   * expansions fails to unlink, every expansion that exists is removed.
   */
  lemma {:induction false} GlobExpansionsRemoved(t: Tree, perms: Perms, cs: seq<Path>, i: nat)
    requires i < |cs| && IsGlob(cs[i])
    requires ReadDir(t, perms, PrefixBeforeStar(cs[i])).Ok?
    requires var es := ReadDir(t, perms, PrefixBeforeStar(cs[i])).value;
      forall k :: 0 <= k < |es| && ReplaceFirstStar(cs[i], es[k]) in t ==>
        Removable(t, perms, ReplaceFirstStar(cs[i], es[k]))
    ensures var es := ReadDir(t, perms, PrefixBeforeStar(cs[i])).value;
      forall k :: 0 <= k < |es| ==> ReplaceFirstStar(cs[i], es[k]) !in RemoveAll(t, perms, cs)
  {
    var base := PrefixBeforeStar(cs[i]);
    var es := ReadDir(t, perms, base).value;
    var t1 := CandidateStep(t, perms, cs[0]);
    StepShrinks(t, perms, cs[0]);
    if i == 0 {
      ExpandRemovesAll(t, perms, cs[0], es);
      forall k | 0 <= k < |es| ensures ReplaceFirstStar(cs[i], es[k]) !in RemoveAll(t, perms, cs) {
        AbsentStaysAbsent(t1, perms, cs[1..], ReplaceFirstStar(cs[i], es[k]));
      }
    } else {
      assert cs[1..][i - 1] == cs[i];
      assert t1[base] == t[base];
      forall k | 0 <= k < |es| && ReplaceFirstStar(cs[i], es[k]) in t1
        ensures Removable(t1, perms, ReplaceFirstStar(cs[i], es[k]))
      {
        assert t1[ReplaceFirstStar(cs[i], es[k])] == t[ReplaceFirstStar(cs[i], es[k])];
      }
      GlobExpansionsRemoved(t1, perms, cs[1..], i - 1);
    }
  }

  // ---------------------------------------------------------------- failure containment

  /**
   * The inner loop over `a + b`: the entries of `b` are processed only when
   * nothing in `a` failed; after a failure the remaining entries are abandoned.
   */
  lemma {:induction false} ExpandAppend(t: Tree, perms: Perms, pattern: Path, a: seq<string>, b: seq<string>)
    ensures ExpandEntries(t, perms, pattern, a + b) ==
      var e := ExpandEntries(t, perms, pattern, a);
      if e.abandoned then e else ExpandEntries(e.tree, perms, pattern, b)
  {
    if a == [] {
      assert a + b == b;
    } else {
      assert (a + b)[0] == a[0] && (a + b)[1..] == a[1..] + b;
      var p := ReplaceFirstStar(pattern, a[0]);
      if p !in t {
        ExpandAppend(t, perms, pattern, a[1..], b);
      } else if Unlink(t, perms, p).Ok? {
        ExpandAppend(Unlink(t, perms, p).value, perms, pattern, a[1..], b);
      }
    }
  }

  /** The outer loop over `a + b`: `b` is processed from wherever `a` left the filesystem. */
  lemma {:induction false} RemoveAllAppend(t: Tree, perms: Perms, a: seq<Path>, b: seq<Path>)
    ensures RemoveAll(t, perms, a + b) == RemoveAll(RemoveAll(t, perms, a), perms, b)
    decreases |a|
  {
    if a == [] {
      assert a + b == b;
    } else {
      assert (a + b)[0] == a[0] && (a + b)[1..] == a[1..] + b;
      RemoveAllAppend(CandidateStep(t, perms, a[0]), perms, a[1..], b);
    }
  }

  // ---------------------------------------------------------------- idempotence

  /** Re-running the inner loop on any shrunk result of it changes nothing. */
  lemma {:induction false} ExpandSettles(n: Tree, perms: Perms, pattern: Path, entries: seq<string>, x: Tree)
    requires Shrunk(x, ExpandEntries(n, perms, pattern, entries).tree, perms)
    ensures ExpandEntries(x, perms, pattern, entries).tree == x
  {
    if entries != [] {
      var p := ReplaceFirstStar(pattern, entries[0]);
      if p !in n {
        ExpandShrinks(n, perms, pattern, entries[1..]);
        ExpandSettles(n, perms, pattern, entries[1..], x);
      } else if Unlink(n, perms, p).Ok? {
        var n' := n - {p};
        ExpandShrinks(n', perms, pattern, entries[1..]);
        ExpandSettles(n', perms, pattern, entries[1..], x);
      } else {
        assert p in x && x[p] == n[p];
      }
    }
  }

  lemma StepSettles(n: Tree, perms: Perms, c: Path, x: Tree)
    requires Shrunk(x, CandidateStep(n, perms, c), perms)
    ensures CandidateStep(x, perms, c) == x
  {
    if IsGlob(c) {
      var base := PrefixBeforeStar(c);
      if base in n && ReadDir(n, perms, base).Ok? {
        var es := n[base].entries;
        ExpandShrinks(n, perms, c, es);
        var m := ExpandEntries(n, perms, c, es).tree;
        assert base in m && m[base] == n[base];
        assert base in x && x[base] == n[base];
        ExpandSettles(n, perms, c, es, x);
      } else if base in x {
        assert x[base] == n[base];
      }
    } else if c in x {
      assert x[c] == n[c];
    }
  }

  /** Running the removal loop a second time removes nothing more. */
  lemma {:induction false} RemoveAllIdempotent(t: Tree, perms: Perms, cs: seq<Path>)
    ensures RemoveAll(RemoveAll(t, perms, cs), perms, cs) == RemoveAll(t, perms, cs)
    decreases |cs|
  {
    if cs != [] {
      var t1 := CandidateStep(t, perms, cs[0]);
      var y := RemoveAll(t1, perms, cs[1..]);
      RemovesOnlyTargets(t1, perms, cs[1..]);
      StepSettles(t, perms, cs[0], y);
      RemoveAllIdempotent(t1, perms, cs[1..]);
    }
  }
  // ---------------------------------------------------------------- settled trees after other changes

  /** The glob's directory and its expansions that `b` has are still present in `x`. */
  ghost predicate Sheltered(x: Tree, b: Tree, c: Path)
  {
    IsGlob(c) ==>
      && (PrefixBeforeStar(c) in b ==> PrefixBeforeStar(c) in x)
      && forall v :: ReplaceFirstStar(c, v) in b ==> ReplaceFirstStar(c, v) in x
  }

  /** A loop that removed nothing leaves every one of its steps with nothing to remove. */
  lemma {:induction false} SettledSteps(b: Tree, perms: Perms, cs: seq<Path>)
    requires RemoveAll(b, perms, cs) == b
    ensures forall i :: 0 <= i < |cs| ==> CandidateStep(b, perms, cs[i]) == b
    decreases |cs|
  {
    if cs != [] {
      var b1 := CandidateStep(b, perms, cs[0]);
      StepShrinks(b, perms, cs[0]);
      RemovesOnlyTargets(b1, perms, cs[1..]);
      assert b1 == b;
      SettledSteps(b, perms, cs[1..]);
      forall i | 1 <= i < |cs| ensures CandidateStep(b, perms, cs[i]) == b {
        assert cs[1..][i - 1] == cs[i];
      }
    }
  }

  lemma {:induction false} ExpandStaysSettled(b: Tree, x: Tree, perms: Perms, c: Path, es: seq<string>)
    requires ExpandEntries(b, perms, c, es).tree == b
    requires Resembles(x, b)
    requires forall v :: ReplaceFirstStar(c, v) in b ==> ReplaceFirstStar(c, v) in x
    ensures ExpandEntries(x, perms, c, es).tree == x
    decreases |es|
  {
    if es != [] {
      var p := ReplaceFirstStar(c, es[0]);
      if p !in b {
        ExpandStaysSettled(b, x, perms, c, es[1..]);
      } else if Unlink(b, perms, p).Ok? {
        ExpandShrinks(b - {p}, perms, c, es[1..]);
      }
    }
  }

  /** A step with nothing to remove in `b` has nothing to remove in a tree resembling `b`. */
  lemma StepStaysSettled(b: Tree, x: Tree, perms: Perms, c: Path)
    requires CandidateStep(b, perms, c) == b
    requires Resembles(x, b) && Sheltered(x, b, c)
    ensures CandidateStep(x, perms, c) == x
  {
    if IsGlob(c) {
      var base := PrefixBeforeStar(c);
      if base in b && ReadDir(b, perms, base).Ok? {
        ExpandStaysSettled(b, x, perms, c, b[base].entries);
      }
    } else if c in b {
      assert Unlink(b, perms, c).Err?;
    }
  }

  /**
   * Once the removal loop has nothing left to remove, further changes that only
   * rewrite files or remove paths other than its directories and expansions give
   * it nothing to remove either.
   */
  lemma {:induction false} RemoveAllStaysSettled(b: Tree, x: Tree, perms: Perms, cs: seq<Path>)
    requires RemoveAll(b, perms, cs) == b
    requires Resembles(x, b) && forall i :: 0 <= i < |cs| ==> Sheltered(x, b, cs[i])
    ensures RemoveAll(x, perms, cs) == x
    decreases |cs|
  {
    if cs != [] {
      SettledSteps(b, perms, cs);
      StepStaysSettled(b, x, perms, cs[0]);
      forall i | 0 <= i < |cs[1..]| ensures Sheltered(x, b, cs[1..][i]) {
        assert cs[1..][i] == cs[i + 1];
      }
      RemoveAllStaysSettled(b, x, perms, cs[1..]);
    }
  }
}
