/** The repository matcher: directories' rules are loaded once, on demand or during a walk. */
module RepositoryRules {
  import opened Wrappers
  import opened Report
  import opened Paths
  import opened IgnoreRules
  import opened IgnoreLayers
  import opened ScanSelection
  import opened SourceEvidence

  /** Builds the index of a rule list. */
  method IndexRules(rules: seq<IgnoreRule>) returns (indexed: RuleSet)
    ensures indexed.Valid() && indexed.rules == rules
  {
    hide RuleSet.Valid;
    var list := new RuleList();
    for i := 0 to |rules|
      invariant fresh(list) && list.rules.Valid() && list.rules.rules == rules[..i]
    {
      list.Push(rules[i]);
    }
    indexed := list.rules;
  }

  /** The evidence of a directory's own rule files. */
  ghost predicate OwnSources(fs: FileSystem, options: Options, directory: string, names: seq<string>, sources: seq<IgnoreSource>) {
    forall s :: s in sources <==>
      exists name | name in names ::
        && Join(directory, name) in fs.files
        && s == IgnoreSource(KindOf(name), Join(directory, name), fs.files[Join(directory, name)].content)
  }

  /** The first loop of `build_child_rules`: reads the rule files. */
  method ReadRuleFiles(fs: FileSystem, options: Options, directory: string)
    returns (rulesBySource: seq<seq<IgnoreRule>>, evidence: seq<IgnoreSource>)
    ensures |rulesBySource| == SOURCE_COUNT
    ensures forall i | 0 <= i < SOURCE_COUNT :: rulesBySource[i] == RulesAt(fs, options, directory, options.ignoreFiles, i)
    ensures OwnSources(fs, options, directory, options.ignoreFiles, evidence)
  {
    hide OwnSources;
    var names := options.ignoreFiles;
    rulesBySource := seq(SOURCE_COUNT, _ => []);
    evidence := [];
    NoOwnSources(fs, options, directory);
    for k := 0 to |names|
      invariant |rulesBySource| == SOURCE_COUNT
      invariant forall i | 0 <= i < SOURCE_COUNT :: rulesBySource[i] == RulesAt(fs, options, directory, names[..k], i)
      invariant OwnSources(fs, options, directory, names[..k], evidence)
    {
      var name := names[k];
      var path := Join(directory, name);
      assert names[..k + 1] == names[..k] + [name] && names[..k + 1][..k] == names[..k];
      OneMoreFile(fs, options, directory, names[..k], name, evidence);
      if path in fs.files {
        var source := SourceOf(name);
        rulesBySource := rulesBySource[source := rulesBySource[source] + options.parse(fs.files[path].content)];
        evidence := evidence + [IgnoreSource(KindOf(name), path, fs.files[path].content)];
      }
    }
    assert names[..|names|] == names;
  }

  lemma NoOwnSources(fs: FileSystem, options: Options, directory: string)
    ensures OwnSources(fs, options, directory, options.ignoreFiles[..0], [])
  {
  }

  lemma OneMoreFile(fs: FileSystem, options: Options, directory: string, names: seq<string>, name: string,
                    evidence: seq<IgnoreSource>)
    requires OwnSources(fs, options, directory, names, evidence)
    ensures var path := Join(directory, name);
      OwnSources(fs, options, directory, names + [name],
        if path in fs.files then evidence + [IgnoreSource(KindOf(name), path, fs.files[path].content)] else evidence)
  {
    assert forall n :: n in names + [name] <==> n in names || n == name;
  }

  /** `build_child_rules`. */
  method BuildChildRules(fs: FileSystem, options: Options, directory: string, inherited: seq<Chain>)
    returns (chains: seq<Chain>, evidence: seq<IgnoreSource>)
    requires options.WellFormed() && |inherited| == SOURCE_COUNT && ValidSources(inherited)
    ensures |chains| == SOURCE_COUNT && ValidSources(chains)
    ensures ChainValues(chains) == ChildLayers(fs, options, directory, ChainValues(inherited))
    ensures OwnSources(fs, options, directory, options.ignoreFiles, evidence)
  {
    hide OwnSources, RuleSet.Valid, RulesAt;
    var rulesBySource: seq<seq<IgnoreRule>>;
    rulesBySource, evidence := ReadRuleFiles(fs, options, directory);
    chains := [];
    for i := 0 to SOURCE_COUNT
      invariant |chains| == i && forall c | c in chains :: ValidChain(c)
      invariant forall j | 0 <= j < i :: Lookups(chains[j]) == ChildLayers(fs, options, directory, ChainValues(inherited))[j]
    {
      assert inherited[i] in inherited;
      if rulesBySource[i] == [] {
        chains := chains + [inherited[i]];
      } else {
        var indexed := IndexRules(rulesBySource[i]);
        chains := chains + [Layer(directory, indexed, inherited[i])];
      }
    }
  }

  class RepositoryMatcher {
    const fs: FileSystem
    const options: Options
    var directories: map<string, seq<Chain>>
    var sources: seq<IgnoreSource>

    ghost function Prepared(): iset<string>
      reads this
    {
      iset d | d in directories
    }

    /** Every prepared directory has its layers, and the sources are what was read for them. */
    ghost predicate Valid()
      reads this
    {
      && options.WellFormed() && GoodFileSystem(fs)
      && (forall d | d in directories :: (d == "" || GoodPath(d)) && RightLayers(fs, options, d, directories[d]))
      && SourcesOf(fs, options, Prepared(), sources)
    }

    /** `prepare_directory_inner`: parents first, every directory once. */
    method PrepareDirectory(directory: string)
      requires Valid() && (directory == "" || GoodPath(directory))
      modifies this
      ensures Valid() && directory in directories
      ensures forall d | d in old(directories) :: d in directories
      ensures forall d | d in directories && d !in old(directories) :: Above(d, directory) || d == ""
      ensures directory in old(directories) ==> directories == old(directories) && sources == old(sources)
      decreases |directory|
    {
      hide SourcesOf, RightLayers, GoodFileSystem, Options.WellFormed;
      if directory in directories {
        return;
      }
      var inherited := options.staticChains(fs.statics);
      if directory != "" {
        if Parent(directory).Some? { GoodParent(directory); }
        PrepareDirectory(DirOf(directory));
        inherited := directories[DirOf(directory)];
        ParentAbove(directory);
      }
      LayersReady(fs, options, directory, inherited);
      var chains, evidence := BuildChildRules(fs, options, directory, inherited);
      ghost var prepared, read := Prepared(), sources;
      LayersBuilt(fs, options, directory, inherited, chains);
      sources := sources + evidence;
      directories := directories[directory := chains];
      assert Prepared() == prepared + iset{directory};
      MoreSources(fs, options, prepared, directory, read, evidence);
    }

    constructor (fs: FileSystem, options: Options)
      requires options.WellFormed() && GoodFileSystem(fs)
      ensures Valid() && fresh(this) && this.fs == fs && this.options == options
      ensures directories.Keys == {}
    {
      this.fs, this.options := fs, options;
      directories := map[];
      var statics := StaticSources(fs);
      sources := statics;
      new;
      assert Prepared() == iset{};
    }

    /** `matched`: the on-demand decision, with the rules of the parent directory prepared. */
    method Matched(path: string, isDirectory: bool) returns (decision: Option<RuleAction>)
      requires Valid() && GoodPath(path)
      modifies this
      ensures Valid() && decision == DemandDecision(fs, options, path, isDirectory)
      ensures DirOf(path) in directories && forall d | d in old(directories) :: d in directories
      ensures forall d | d in directories && d !in old(directories) :: Above(d, DirOf(path)) || d == ""
    {
      hide SourcesOf, GoodFileSystem, Options.WellFormed, OnDemand, LayersAt;
      if Parent(path).Some? { GoodParent(path); }
      PrepareDirectory(DirOf(path));
      var chains := directories[DirOf(path)];
      FlatIsLastFirst(chains);
      decision := MatchRules(path, isDirectory, chains);
    }

    /** The walk's decision about an entry of a prepared directory (`matched_with_rules`). */
    method MatchedPrepared(path: string, isDirectory: bool) returns (decision: Option<RuleAction>)
      requires Valid() && DirOf(path) in directories
      ensures decision == WalkDecision(fs, options, path, isDirectory)
    {
      hide SourcesOf, GoodFileSystem, Options.WellFormed, IgnoreLayers.Prepared, LayersAt;
      var chains := directories[DirOf(path)];
      FlatIsLastFirst(chains);
      decision := MatchPreparedRules(path, isDirectory, chains);
    }
  }

  lemma ParentAbove(directory: string)
    requires GoodPath(directory)
    ensures forall d | Above(d, DirOf(directory)) :: Above(d, directory) || d == ""
    ensures Above(directory, directory)
  {
    if Parent(directory).None? {
      assert DirOf(directory) == "" && Parent("").None?;
    }
  }

  /** The chains of a prepared directory hold its layers. */
  ghost predicate RightLayers(fs: FileSystem, options: Options, directory: string, chains: seq<Chain>)
    requires options.WellFormed()
  {
    |chains| == SOURCE_COUNT && ValidSources(chains) && ChainValues(chains) == LayersAt(fs, options, directory)
  }

  lemma LayersReady(fs: FileSystem, options: Options, directory: string, inherited: seq<Chain>)
    requires options.WellFormed()
    requires if directory == "" then inherited == options.staticChains(fs.statics)
             else RightLayers(fs, options, DirOf(directory), inherited)
    ensures |inherited| == SOURCE_COUNT && ValidSources(inherited)
  {
  }

  lemma LayersBuilt(fs: FileSystem, options: Options, directory: string, inherited: seq<Chain>, chains: seq<Chain>)
    requires options.WellFormed() && |inherited| == SOURCE_COUNT && |chains| == SOURCE_COUNT && ValidSources(chains)
    requires if directory == "" then inherited == options.staticChains(fs.statics)
             else RightLayers(fs, options, DirOf(directory), inherited)
    requires ChainValues(chains) == ChildLayers(fs, options, directory, ChainValues(inherited))
    ensures RightLayers(fs, options, directory, chains)
  {
  }

  /** The evidence of one more directory. */
  lemma MoreSources(fs: FileSystem, options: Options, directories: iset<string>, directory: string,
                    sources: seq<IgnoreSource>, evidence: seq<IgnoreSource>)
    requires options.WellFormed() && (directory == "" || GoodPath(directory))
    requires SourcesOf(fs, options, directories, sources)
    requires OwnSources(fs, options, directory, options.ignoreFiles, evidence)
    ensures SourcesOf(fs, options, directories + iset{directory}, sources + evidence)
  {
    forall s
      ensures s in evidence <==> LocalSource(fs, options, iset{directory}, s)
    {
      OwnIsLocal(fs, options, directory, evidence, s);
    }
  }

  lemma OwnIsLocal(fs: FileSystem, options: Options, directory: string, evidence: seq<IgnoreSource>, s: IgnoreSource)
    requires options.WellFormed() && (directory == "" || GoodPath(directory))
    requires OwnSources(fs, options, directory, options.ignoreFiles, evidence)
    ensures s in evidence <==> LocalSource(fs, options, iset{directory}, s)
  {
    hide KindOf, RightKind, GoodPath;
    KindIsRight(Name(s.location));
    if s in evidence {
      var name :| name in options.ignoreFiles && Join(directory, name) in fs.files
        && s == IgnoreSource(KindOf(name), Join(directory, name), fs.files[Join(directory, name)].content);
      JoinSplits(directory, name);
    }
    if LocalSource(fs, options, iset{directory}, s) {
      SplitJoins(s.location);
      var name := Name(s.location);
      assert name in options.ignoreFiles && Join(directory, name) in fs.files;
    }
  }

  /** The evidence of the static sources, in any order. */
  method StaticSources(fs: FileSystem) returns (sources: seq<IgnoreSource>)
    ensures forall s :: s in sources <==> StaticSource(fs, s)
  {
    sources := [];
    var slots := fs.statics.Keys;
    while slots != {}
      invariant slots <= fs.statics.Keys
      invariant forall s :: s in sources <==> StaticSource(fs, s) && (s.kind, s.location) !in slots
    {
      var slot :| slot in slots;
      slots := slots - {slot};
      sources := sources + [IgnoreSource(slot.0, slot.1, fs.statics[slot])];
    }
  }
}
