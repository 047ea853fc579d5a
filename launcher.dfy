/**
 * The wrapper command (`ClaudeUpdaterCLI`, bin/claude-code-updater.js): an
 * optional update check, then a launch of the real `claude` program with the
 * caller's arguments.  The update service, the npm query, the package manifest
 * and the child process are an environment of fixed answers; the methods
 * record, as a trace of events, which of them they ask and what they spawn.
 */
module Launcher {
  import opened Wrappers
  import opened Seqs
  import opened Strings

  const SkipFlag := "--skip-update"

  /** The package manifest at a path: absent, present but not loadable, or loaded with its `bin` table. */
  datatype ManifestLookup = Missing | Unloadable | Loaded(bin: Option<map<string, string>>)

  /** How the child process ends: an `error` event with its code, or `close` with its exit code (null after a signal). */
  datatype ChildOutcome = SpawnError(code: string) | Closed(exitCode: Option<int>)

  /**
   * The answers the outside world gives.  Whether `performUpdate` succeeds is not
   * recorded: `checkAndUpdate` catches its rejection and goes on the same way.
   */
  datatype Environment = Environment(
    argv: seq<string>,                   // process.argv, the runtime and script paths included
    updateCheck: Result<bool, string>,   // what checkForUpdate resolves to, or why it rejects
    npmRoot: Result<string, string>,     // the trimmed output of `npm root -g`, or its failure
    manifestAt: string -> ManifestLookup,
    child: ChildOutcome)

  /** The capabilities the wrapper invokes, in the order it invokes them. */
  datatype Event =
    | CheckForUpdate
    | PerformUpdate
    | QueryNpmRoot
    | LookupManifest(path: string)
    | Spawn(command: string, args: seq<string>)

  // ---------------------------------------------------------------- arguments

  /** `process.argv.slice(2)`: empty when there are fewer than two elements. */
  function UserArgs(argv: seq<string>): seq<string>
  {
    if |argv| >= 2 then argv[2..] else []
  }

  function NotSkipFlag(a: string): bool
  {
    a != SkipFlag
  }

  /** The arguments handed on to `claude`. */
  function ForwardedArgs(argv: seq<string>): seq<string>
  {
    Filter(NotSkipFlag, UserArgs(argv))
  }

  /**
   * The forwarded arguments are the user's arguments with every `--skip-update`
   * removed: no flag survives, every other argument survives as often as it
   * occurred, and without the flag nothing changes at all.
   */
  lemma ForwardedArgsExactly(argv: seq<string>)
    ensures SkipFlag !in ForwardedArgs(argv)
    ensures forall a :: a != SkipFlag ==> multiset(ForwardedArgs(argv))[a] == multiset(UserArgs(argv))[a]
    ensures SkipFlag !in UserArgs(argv) ==> ForwardedArgs(argv) == UserArgs(argv)
  {
    FilterMembers(NotSkipFlag, UserArgs(argv), SkipFlag);
    forall a | a != SkipFlag
      ensures multiset(ForwardedArgs(argv))[a] == multiset(UserArgs(argv))[a]
    {
      FilterCount(NotSkipFlag, UserArgs(argv), a);
    }
    if SkipFlag !in UserArgs(argv) {
      FilterKeepsAll(NotSkipFlag, UserArgs(argv));
    }
  }

  /** Order is kept: the arguments of a split command line are forwarded part by part. */
  lemma ForwardedArgsInOrder(argv: seq<string>, a: seq<string>, b: seq<string>)
    requires UserArgs(argv) == a + b
    ensures ForwardedArgs(argv) == Filter(NotSkipFlag, a) + Filter(NotSkipFlag, b)
  {
    FilterAppend(NotSkipFlag, a, b);
  }

  // ---------------------------------------------------------------- resolution and exit

  function PackageDir(root: string): string
  {
    PathJoin(PathJoin(root, "@anthropic-ai"), "claude-code")
  }

  function ManifestPath(root: string): string
  {
    PathJoin(PackageDir(root), "package.json")
  }

  /** Where `launchClaude` finds the `claude` entry point, or the rejection it raises. */
  function ResolveClaude(env: Environment): Result<string, string>
  {
    match env.npmRoot
    case Err(_) => Err("Claude Code not found")
    case Ok(root) =>
      match env.manifestAt(ManifestPath(root))
      case Loaded(Some(bin)) =>
        if "claude" in bin then Ok(PathJoin(PackageDir(root), bin["claude"]))
        else Err("Claude Code not found")
      case _ => Err("Claude Code not found")
  }

  /** The entry point is found exactly when every lookup on the way succeeds. */
  lemma ResolveClaudeIff(env: Environment)
    ensures ResolveClaude(env).Ok? <==>
      && env.npmRoot.Ok?
      && env.manifestAt(ManifestPath(env.npmRoot.value)).Loaded?
      && env.manifestAt(ManifestPath(env.npmRoot.value)).bin.Some?
      && "claude" in env.manifestAt(ManifestPath(env.npmRoot.value)).bin.value
    ensures ResolveClaude(env).Ok? ==>
      var root := env.npmRoot.value;
      ResolveClaude(env).value ==
        root + "/@anthropic-ai/claude-code/" + env.manifestAt(ManifestPath(root)).bin.value["claude"]
  {
  }

  /** `code || 0`: a null or zero code exits 0, any other code is passed through. */
  function ExitCode(code: Option<int>): (r: int)
    ensures r == 0 <==> code == None || code == Some(0)
    ensures r != 0 ==> code == Some(r)
  {
    match code
    case None => 0
    case Some(c) => if c == 0 then 0 else c
  }

  // ---------------------------------------------------------------- the run as a trace

  /** The events of `checkAndUpdate`: the check, and the update only when one is needed. */
  function UpdateTrace(env: Environment): seq<Event>
  {
    [CheckForUpdate] + if env.updateCheck == Ok(true) then [PerformUpdate] else []
  }

  /** The events of `launchClaude`. */
  function LaunchTrace(args: seq<string>, env: Environment): seq<Event>
  {
    [QueryNpmRoot] +
    match env.npmRoot
    case Err(_) => []
    case Ok(root) =>
      [LookupManifest(ManifestPath(root))] +
      match ResolveClaude(env)
      case Ok(claudePath) => [Spawn("node", [claudePath] + args)]
      case Err(_) => []
  }

  function RunTrace(env: Environment): seq<Event>
  {
    (if SkipFlag in env.argv then [] else UpdateTrace(env)) + LaunchTrace(ForwardedArgs(env.argv), env)
  }

  /** The exit status of the wrapper: the child's, or 1 when the launch rejects. */
  function RunExit(env: Environment): int
  {
    if ResolveClaude(env).Ok? && env.child.Closed? then ExitCode(env.child.exitCode) else 1
  }

  /** `checkAndUpdate`: every failure of the update service is caught and reported. */
  method CheckAndUpdate(env: Environment) returns (trace: seq<Event>)
    ensures trace == UpdateTrace(env)
  {
    trace := [CheckForUpdate];
    match env.updateCheck
    case Err(_) =>
      return;
    case Ok(needsUpdate) =>
      if needsUpdate {
        trace := trace + [PerformUpdate];
        // a rejection of performUpdate is caught here as well
      }
  }

  /**
   * `launchClaude`: resolves the entry point and spawns it under `node`; the
   * promise either never settles (the child's `close` exits the process) or
   * rejects, when the lookup fails or the spawn raises an `error` event.
   */
  method LaunchClaude(args: seq<string>, env: Environment) returns (exit: Result<int, string>, trace: seq<Event>)
    ensures trace == LaunchTrace(args, env)
    ensures exit.Ok? <==> ResolveClaude(env).Ok? && env.child.Closed?
    ensures exit.Ok? ==> exit.value == ExitCode(env.child.exitCode)
  {
    trace := [QueryNpmRoot];
    if env.npmRoot.Err? {
      return Err("Claude Code not found"), trace;
    }
    var claudePackagePath := PackageDir(env.npmRoot.value);
    var packageJsonPath := PathJoin(claudePackagePath, "package.json");
    trace := trace + [LookupManifest(packageJsonPath)];
    var manifest := env.manifestAt(packageJsonPath);
    if !manifest.Loaded? || manifest.bin.None? || "claude" !in manifest.bin.value {
      return Err("Claude Code not found"), trace;
    }
    var claudePath := PathJoin(claudePackagePath, manifest.bin.value["claude"]);
    trace := trace + [Spawn("node", [claudePath] + args)];
    match env.child
    case SpawnError(code) =>
      exit := Err(if code == "ENOENT" then "Claude Code not installed" else code);
    case Closed(code) =>
      exit := Ok(ExitCode(code));
  }

  /** `run`: the update unless skipped, then the launch; a rejection exits 1. */
  method Run(env: Environment) returns (exitCode: int, trace: seq<Event>)
    ensures trace == RunTrace(env)
    ensures exitCode == RunExit(env)
  {
    trace := [];
    if SkipFlag !in env.argv {
      trace := CheckAndUpdate(env);
    }
    var args := Filter(NotSkipFlag, UserArgs(env.argv));
    var launched, launchTrace := LaunchClaude(args, env);
    trace := trace + launchTrace;
    exitCode := if launched.Ok? then launched.value else 1;
  }

  // ---------------------------------------------------------------- properties of a run

  /** With `--skip-update` anywhere in argv the update service is never asked. */
  lemma SkipGate(env: Environment)
    ensures SkipFlag in env.argv ==> CheckForUpdate !in RunTrace(env) && PerformUpdate !in RunTrace(env)
    ensures SkipFlag !in env.argv ==> RunTrace(env)[0] == CheckForUpdate
  {
  }

  /** `performUpdate` runs at most once, and exactly when the check was asked and answered true. */
  lemma UpdateAtMostOnce(env: Environment)
    ensures multiset(RunTrace(env))[PerformUpdate] <= 1
    ensures PerformUpdate in RunTrace(env) <==> SkipFlag !in env.argv && env.updateCheck == Ok(true)
  {
    var u := if SkipFlag in env.argv then [] else UpdateTrace(env);
    var l := LaunchTrace(ForwardedArgs(env.argv), env);
    assert RunTrace(env) == u + l;
    assert multiset(RunTrace(env)) == multiset(u) + multiset(l);
    assert PerformUpdate !in l;
  }

  /** Whatever the update service does, the launch is attempted: npm is always asked for its root. */
  lemma LaunchAlwaysAttempted(env: Environment)
    ensures QueryNpmRoot in RunTrace(env)
  {
    var u := if SkipFlag in env.argv then [] else UpdateTrace(env);
    assert RunTrace(env)[|u|] == QueryNpmRoot;
  }

  /**
   * A spawn happens exactly when the entry point resolves, it is the one last
   * event, and it runs `node` on the entry point with the forwarded arguments.
   */
  lemma SpawnExactly(env: Environment)
    ensures (exists e :: e in RunTrace(env) && e.Spawn?) <==> ResolveClaude(env).Ok?
    ensures ResolveClaude(env).Ok? ==>
      RunTrace(env)[|RunTrace(env)| - 1] == Spawn("node", [ResolveClaude(env).value] + ForwardedArgs(env.argv))
  {
    var u := if SkipFlag in env.argv then [] else UpdateTrace(env);
    var l := LaunchTrace(ForwardedArgs(env.argv), env);
    assert RunTrace(env) == u + l;
    assert forall e :: e in u ==> !e.Spawn?;
    if ResolveClaude(env).Ok? {
      var e := Spawn("node", [ResolveClaude(env).value] + ForwardedArgs(env.argv));
      assert l[|l| - 1] == e;
      assert RunTrace(env)[|RunTrace(env)| - 1] == e;
    } else {
      assert forall e :: e in l ==> !e.Spawn?;
    }
  }

  /** The exit status: 1 whenever the launch rejects, otherwise the child's code with null and 0 as 0. */
  lemma ExitStatus(env: Environment)
    ensures ResolveClaude(env).Err? ==> RunExit(env) == 1
    ensures env.child.SpawnError? ==> RunExit(env) == 1
    ensures ResolveClaude(env).Ok? && env.child.Closed? ==>
      (RunExit(env) == 0 <==> env.child.exitCode in {None, Some(0)})
  {
  }
}
