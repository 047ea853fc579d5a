/**
 * User-data removal (`CompleteCleanup.removeUserData`, scripts/cleanup.js): the
 * configuration directory under the home directory is removed only with the
 * user's explicit consent on the command line.
 */
module UserData {
  import opened Strings
  import opened Fs

  function ConfigDir(home: Path): Path
  {
    PathJoin(home, ".claude-code-updater")
  }

  /** `--clean`, `--purge` or `--force` anywhere in `process.argv`. */
  predicate ConsentGiven(argv: seq<string>)
  {
    "--clean" in argv || "--purge" in argv || "--force" in argv
  }

  /** What the step reports. */
  datatype Outcome = NotFound | Preserved | Removed | RemoveFailed(error: Errno)

  datatype Step = Step(tree: Tree, outcome: Outcome)

  function RemoveUserDataFrom(t: Tree, perms: Perms, home: Path, argv: seq<string>): Step
  {
    var dir := ConfigDir(home);
    if dir !in t then Step(t, NotFound)
    else if !ConsentGiven(argv) then Step(t, Preserved)
    else match RemoveTree(t, perms, dir)
      case Ok(t') => Step(t', Removed)
      case Err(e) => Step(t, RemoveFailed(e))
  }

  /**
   * The consent gate: the directory and everything below it go exactly when it
   * exists, a consent flag is present and the system allows the removal; in
   * every other case the filesystem is unchanged.  Nothing outside the
   * directory is ever touched.
   */
  lemma UserDataGate(t: Tree, perms: Perms, home: Path, argv: seq<string>)
    ensures var r := RemoveUserDataFrom(t, perms, home, argv);
      var dir := ConfigDir(home);
      && (r.outcome == NotFound <==> dir !in t)
      && (r.outcome == Preserved <==> dir in t && !ConsentGiven(argv))
      && (r.outcome == Removed <==> dir in t && ConsentGiven(argv) && dir !in perms.noWrite)
      && (r.outcome != Removed ==> r.tree == t)
      && (r.outcome == Removed ==> r.tree != t && forall q :: q in r.tree ==> !InSubtree(q, dir))
      && (forall q :: q in t && !InSubtree(q, dir) ==> q in r.tree && r.tree[q] == t[q])
      && r.tree.Keys <= t.Keys
  {
    var dir := ConfigDir(home);
    var r := RemoveUserDataFrom(t, perms, home, argv);
    if r.outcome == Removed {
      assert InSubtree(dir, dir) && dir !in r.tree;
    }
  }

  /** A second run finds nothing more to remove. */
  lemma UserDataIdempotent(t: Tree, perms: Perms, home: Path, argv: seq<string>)
    ensures var once := RemoveUserDataFrom(t, perms, home, argv).tree;
      RemoveUserDataFrom(once, perms, home, argv).tree == once
  {
    var dir := ConfigDir(home);
    if dir in t && ConsentGiven(argv) && dir !in perms.noWrite {
      assert InSubtree(dir, dir);
    }
  }
}
