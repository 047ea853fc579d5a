/** The two worked scenarios of the cleanup tool, stated over the model. */
module Scenarios {
  import opened Wrappers
  import opened Seqs
  import opened Strings
  import opened Fs
  import opened Binaries
  import opened Aliases

  const ExportPath := "export PATH=..."
  const MarkerLine := "# Added by claude-code-updater"
  const AliasLine := "alias claude=\"node x.js\""
  const ExportEditor := "export EDITOR=vim"

  /** A line with neither a 'c' nor an 'a' in it cannot hold any of the three patterns. */
  lemma KeptWithout(line: string)
    requires 'c' !in line && 'a' !in line
    ensures KeepLine(line)
  {
    ContainsNeedsHead(line, UpdaterName);
    ContainsNeedsHead(line, AliasDef);
    MarkerSubsumed(line);
  }

  lemma MarkerLineDropped()
    ensures !KeepLine(MarkerLine)
  {
    assert StartsWith(MarkerLine[11..], UpdaterName);
    ContainsDrop(MarkerLine, 11, UpdaterName);
  }

  lemma AliasLineDropped()
    ensures !KeepLine(AliasLine)
  {
    assert StartsWith(AliasLine, AliasDef);
  }

  lemma ScenarioLines()
    ensures Split(Join([ExportPath, MarkerLine, AliasLine, ExportEditor])) == [ExportPath, MarkerLine, AliasLine, ExportEditor]
  {
    SplitJoin([ExportPath, MarkerLine, AliasLine, ExportEditor]);
  }

  lemma ScenarioFilterLast()
    ensures Filter(KeepLine, [ExportEditor]) == [ExportEditor]
  {
    KeptWithout(ExportEditor);
  }

  lemma ScenarioFilterAlias()
    ensures Filter(KeepLine, [AliasLine, ExportEditor]) == [ExportEditor]
  {
    AliasLineDropped();
    ScenarioFilterLast();
    assert [AliasLine, ExportEditor][1..] == [ExportEditor];
  }

  lemma ScenarioFilterMarker()
    ensures Filter(KeepLine, [MarkerLine, AliasLine, ExportEditor]) == [ExportEditor]
  {
    MarkerLineDropped();
    ScenarioFilterAlias();
    assert [MarkerLine, AliasLine, ExportEditor][1..] == [AliasLine, ExportEditor];
  }

  lemma ScenarioFilter()
    ensures Filter(KeepLine, [ExportPath, MarkerLine, AliasLine, ExportEditor]) == [ExportPath, ExportEditor]
  {
    KeptWithout(ExportPath);
    ScenarioFilterMarker();
    assert [ExportPath, MarkerLine, AliasLine, ExportEditor][1..] == [MarkerLine, AliasLine, ExportEditor];
  }

  /**
   * A configuration file with a PATH export, the install marker, the alias and
   * an EDITOR export is rewritten to the two exports, in their order.
   */
  lemma AliasScenario()
    ensures ScrubPosix(Join([ExportPath, MarkerLine, AliasLine, ExportEditor])) ==
      Some(Join([ExportPath, ExportEditor]))
  {
    ScenarioLines();
    ScenarioFilter();
  }
  const NvmNode := ".nvm/versions/node/"

  /** Both glob operations on the nvm pattern below a wildcard-free home directory, for an entry without `$`. */
  lemma NvmPattern(home: Path, v: string)
    requires '*' !in home && '$' !in v
    ensures PrefixBeforeStar(PossiblePaths(home)[0]) == PathJoin(home, NvmNode)
    ensures ReplaceFirstStar(PossiblePaths(home)[0], v) == PathJoin(home, NvmNode + v + "/bin/claude")
  {
    var h := home + "/" + NvmNode;
    var c := PossiblePaths(home)[0];
    assert '*' !in NvmNode;
    assert NvmNode + "*/bin/claude" == ".nvm/versions/node/*/bin/claude";
    assert c == h + "*/bin/claude";
    StarAfterHead(h, "*/bin/claude");
    assert PrefixBeforeStar("*/bin/claude") == [];
    assert PrefixBeforeStar(c) == h;
    assert c[|h|] == '*';
    PlainStarShape(c, v);
    assert c[|h| + 1..] == "/bin/claude";
  }

  /**
   * Of two version directories, only the second has a `claude` binary: the glob
   * step removes exactly that file, and the missing first one raises nothing.
   */
  lemma GlobScenario(home: Path, t: Tree, perms: Perms)
    requires '*' !in home
    requires var base := PathJoin(home, NvmNode);
      base in t && t[base] == Dir(["18.0.0", "20.1.0"]) && base !in perms.noRead
    requires PathJoin(home, NvmNode + "18.0.0" + "/bin/claude") !in t
    requires var p := PathJoin(home, NvmNode + "20.1.0" + "/bin/claude");
      p in t && t[p].File? && p !in perms.noWrite
    ensures var c := PossiblePaths(home)[0];
      var p := PathJoin(home, NvmNode + "20.1.0" + "/bin/claude");
      && !ExpandEntries(t, perms, c, ["18.0.0", "20.1.0"]).abandoned
      && GlobStep(t, perms, c) == t - {p}
  {
    var c := PossiblePaths(home)[0];
    var es := ["18.0.0", "20.1.0"];
    NvmPattern(home, "18.0.0");
    NvmPattern(home, "20.1.0");
    assert es[1..] == ["20.1.0"];
    assert es[1..][1..] == [];
  }
}
