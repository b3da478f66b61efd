/**
 What a full scan selects: the walk enters directories under rules loaded on the way down, and every
 entry is decided by the layers of its parent directory.
 */
module ScanSelection {
  import opened Wrappers
  import opened Report
  import opened Ordering
  import opened Paths
  import opened IgnoreRules
  import opened IgnoreLayers

  /** A regular file.  Its content is known by its hash. */
  datatype FileData = FileData(bytes: nat, content: string, binary: bool, version: FileVersion)

  /** A configured rule source outside the scanned directories. */
  type Slot = (IgnoreSourceKind, string)

  /** The files and directories below the scan root, and the contents of the static rule sources. */
  datatype FileSystem = FileSystem(files: map<string, FileData>, directories: set<string>, statics: map<Slot, string>)

  const SOURCE_COUNT: nat := 6

  datatype Options = Options(
    ignoreFiles: seq<string>,
    parse: string -> seq<IgnoreRule>,
    staticChains: map<Slot, string> -> seq<Chain>,
    standardSkip: string -> bool,
    accepts: string -> bool,
    maxDepth: Option<nat>,
    maxFileBytes: nat,
    hash: bool,
    detectBinary: bool)
  {
    ghost predicate WellFormed() {
      && (forall name | name in ignoreFiles :: name != "" && '/' !in name)
      && (forall statics :: |staticChains(statics)| == SOURCE_COUNT && ValidSources(staticChains(statics)))
    }
  }

  // Paths --------------------------------------------------------------------------------------

  /** A normalized relative path. */
  predicate GoodPath(path: string) { path != "" && path[0] != '/' }

  /** The directory an entry lies in; the root is the empty path. */
  function DirOf(path: string): (directory: string)
    ensures path != "" ==> |directory| < |path|
  {
    match Parent(path)
    case None => ""
    case Some(parent) => parent
  }

  function Join(directory: string, name: string): string {
    if directory == "" then name else directory + "/" + name
  }

  function Depth(path: string): nat
    decreases |path|
  {
    if path == "" then 0 else 1 + Depth(DirOf(path))
  }

  lemma GoodParent(path: string)
    requires GoodPath(path) && Parent(path).Some?
    ensures GoodPath(Parent(path).value)
  {
    var parent := Parent(path).value;
    assert (parent + "/")[0] == path[0];
  }

  lemma {:induction false} SlashFree(name: string)
    requires '/' !in name
    ensures Parent(name).None? && Name(name) == name
  {
    if name != "" {
      var init, last := name[..|name| - 1], name[|name| - 1];
      assert name == init + [last] && last in name;
      assert forall c | c in init :: c in name;
      SlashFree(init);
    }
  }

  lemma JoinSplits(directory: string, name: string)
    requires name != "" && '/' !in name && (directory != "" ==> GoodPath(directory))
    ensures DirOf(Join(directory, name)) == directory && Name(Join(directory, name)) == name
    ensures GoodPath(Join(directory, name))
  {
    if directory == "" {
      assert name[0] in name;
      SlashFree(name);
    } else {
      SplitUnique(directory, name);
      assert (directory + "/" + name)[0] == directory[0];
    }
  }

  lemma SplitJoins(path: string)
    requires GoodPath(path)
    ensures path == Join(DirOf(path), Name(path))
  {
    SplitAtLastSlash(path);
    if Parent(path).Some? { GoodParent(path); }
  }

  ghost predicate GoodFileSystem(fs: FileSystem) {
    && (forall p | p in fs.files :: GoodPath(p) && p !in fs.directories && InDirectory(fs, p))
    && (forall d | d in fs.directories :: GoodPath(d) && InDirectory(fs, d))
    && (forall slot | slot in fs.statics :: StaticKind(slot.0))
  }

  ghost predicate InDirectory(fs: FileSystem, path: string) { DirOf(path) == "" || DirOf(path) in fs.directories }

  /** The kinds of sources that are read whatever the walk does. */
  predicate StaticKind(kind: IgnoreSourceKind) {
    kind.GitGlobal? || kind.GitExclude? || kind.Explicit? || kind.Override?
  }

  // Rule layers --------------------------------------------------------------------------------

  /** `source_for_name`. */
  function SourceOf(name: string): nat { if name == ".gitignore" then 2 else if name == ".ignore" then 3 else 4 }

  function KindOf(name: string): IgnoreSourceKind {
    if name == ".gitignore" then GitIgnore else if name == ".ignore" then DotIgnore else Custom
  }

  /** The source a rule file's rules belong to; later sources have the last word. */
  ghost predicate BelongsTo(name: string, source: nat) {
    match source
    case 2 => name == ".gitignore"
    case 3 => name == ".ignore"
    case 4 => name != ".gitignore" && name != ".ignore"
    case _ => false
  }

  ghost predicate RightKind(name: string, kind: IgnoreSourceKind) {
    match kind
    case GitIgnore => name == ".gitignore"
    case DotIgnore => name == ".ignore"
    case Custom => name != ".gitignore" && name != ".ignore"
    case _ => false
  }

  lemma KindIsRight(name: string)
    ensures forall kind :: RightKind(name, kind) <==> kind == KindOf(name)
    ensures !StaticKind(KindOf(name))
  {
  }

  /** The rules a directory's own rule files contribute to one source. */
  ghost function RulesAt(fs: FileSystem, options: Options, directory: string, names: seq<string>, source: nat): seq<IgnoreRule> {
    if names == [] then []
    else
      var last := names[|names| - 1];
      RulesAt(fs, options, directory, names[..|names| - 1], source)
      + (if BelongsTo(last, source) && Join(directory, last) in fs.files
         then options.parse(fs.files[Join(directory, last)].content) else [])
  }

  type Layers = seq<seq<Lookup>>

  /** `build_child_rules`: a directory with rules of its own adds a layer in front. */
  ghost function ChildLayers(fs: FileSystem, options: Options, directory: string, inherited: Layers): (layers: Layers)
    requires |inherited| == SOURCE_COUNT
    ensures |layers| == SOURCE_COUNT
  {
    seq(SOURCE_COUNT, i requires 0 <= i < SOURCE_COUNT =>
      var rules := RulesAt(fs, options, directory, options.ignoreFiles, i);
      if rules == [] then inherited[i] else [Lookup(directory, rules)] + inherited[i])
  }

  function ChainValues(chains: seq<Chain>): (layers: Layers)
    ensures |layers| == |chains|
  {
    seq(|chains|, i requires 0 <= i < |chains| => Lookups(chains[i]))
  }

  /** The layers that decide the entries of a directory. */
  ghost function LayersAt(fs: FileSystem, options: Options, directory: string): (layers: Layers)
    requires options.WellFormed()
    ensures |layers| == SOURCE_COUNT
    decreases |directory|
  {
    ChildLayers(fs, options, directory,
      if directory == "" then ChainValues(options.staticChains(fs.statics)) else LayersAt(fs, options, DirOf(directory)))
  }

  /** The layers in the order they are asked. */
  function Flat(layers: Layers): seq<Lookup> {
    if layers == [] then [] else layers[|layers| - 1] + Flat(layers[..|layers| - 1])
  }

  lemma {:induction false} FlatIsLastFirst(chains: seq<Chain>)
    ensures Flat(ChainValues(chains)) == LastFirst(chains)
  {
    if chains != [] {
      var init := chains[..|chains| - 1];
      assert ChainValues(chains)[..|chains| - 1] == ChainValues(init);
      FlatIsLastFirst(init);
    }
  }

  lemma {:induction false} PreparedAppend(a: seq<Lookup>, b: seq<Lookup>, path: string, isDirectory: bool)
    ensures Prepared(a + b, path, isDirectory)
         == if Prepared(a, path, isDirectory).Some? then Prepared(a, path, isDirectory) else Prepared(b, path, isDirectory)
  {
    hide LayerDecision;
    if a == [] {
      assert a + b == b;
    } else {
      assert (a + b)[1..] == a[1..] + b;
      PreparedAppend(a[1..], b, path, isDirectory);
    }
  }

  /** A directory's own rules have no say about paths outside of it. */
  lemma {:induction false} ChildSilent(fs: FileSystem, options: Options, directory: string, inherited: Layers, n: nat,
                                       path: string, isDirectory: bool)
    requires |inherited| == SOURCE_COUNT && n <= SOURCE_COUNT && CandidateForBase(path, directory).None?
    ensures Prepared(Flat(ChildLayers(fs, options, directory, inherited)[..n]), path, isDirectory)
         == Prepared(Flat(inherited[..n]), path, isDirectory)
  {
    if n > 0 {
      var child := ChildLayers(fs, options, directory, inherited);
      ChildSilent(fs, options, directory, inherited, n - 1, path, isDirectory);
      var rules := RulesAt(fs, options, directory, options.ignoreFiles, n - 1);
      var own: seq<Lookup> := if rules == [] then [] else [Lookup(directory, rules)];
      assert child[n - 1] == own + inherited[n - 1];
      OneLayerSilent(directory, rules, path, isDirectory);
      hide ChildLayers, RulesAt, CandidateForBase, Prepared, Flat;
      FlatSnoc(child, n - 1);
      FlatSnoc(inherited, n - 1);
      PreparedAppend(own, inherited[n - 1], path, isDirectory);
      PreparedAppend(child[n - 1], Flat(child[..n - 1]), path, isDirectory);
      PreparedAppend(inherited[n - 1], Flat(inherited[..n - 1]), path, isDirectory);
    }
  }

  lemma OneLayerSilent(directory: string, rules: seq<IgnoreRule>, path: string, isDirectory: bool)
    requires CandidateForBase(path, directory).None?
    ensures Prepared([], path, isDirectory).None? && Prepared([Lookup(directory, rules)], path, isDirectory).None?
  {
    assert [Lookup(directory, rules)][1..] == [];
  }

  lemma FlatSnoc(layers: Layers, n: nat)
    requires n < |layers|
    ensures Flat(layers[..n + 1]) == layers[n] + Flat(layers[..n])
  {
    assert layers[..n + 1][..n] == layers[..n];
  }

  /** The walk's decision about an entry. */
  ghost function WalkDecision(fs: FileSystem, options: Options, path: string, isDirectory: bool): Option<RuleAction>
    requires options.WellFormed()
  {
    Prepared(Flat(LayersAt(fs, options, DirOf(path))), path, isDirectory)
  }

  /** A directory is decided the same way with the layers of any directory at or below it. */
  lemma {:induction false} DecisionStable(fs: FileSystem, options: Options, directory: string, path: string)
    requires options.WellFormed() && GoodPath(path) && Above(path, directory)
    ensures Prepared(Flat(LayersAt(fs, options, directory)), path, true) == WalkDecision(fs, options, path, true)
    decreases |directory|
  {
    AboveShorter(path, directory);
    var inherited := LayersAt(fs, options, DirOf(directory));
    assert LayersAt(fs, options, directory) == ChildLayers(fs, options, directory, inherited);
    assert CandidateForBase(path, directory).None? by {
      assert |path| <= |directory|;
    }
    ChildSilent(fs, options, directory, inherited, SOURCE_COUNT, path, true);
    var layers := LayersAt(fs, options, directory);
    assert layers[..SOURCE_COUNT] == layers && inherited[..SOURCE_COUNT] == inherited;
    if path != directory {
      assert Parent(directory).Some?;
      DecisionStable(fs, options, DirOf(directory), path);
    }
  }

  // Selection ----------------------------------------------------------------------------------

  /** The walk enters a directory: it enters the one above, no rule ignores it, its name is not skipped
      by default, and its depth allows it. */
  ghost predicate Entered(fs: FileSystem, options: Options, directory: string)
    requires options.WellFormed()
    decreases |directory|
  {
    && (options.maxDepth.Some? ==> Depth(directory) < options.maxDepth.value)
    && (directory != "" ==>
          && Entered(fs, options, DirOf(directory))
          && WalkDecision(fs, options, directory, true) != Some(Ignore)
          && !options.standardSkip(Name(directory)))
  }

  /** A full scan reports the file (before its content is looked at). */
  ghost predicate Selected(fs: FileSystem, options: Options, path: string)
    requires options.WellFormed()
  {
    && path in fs.files && path != ""
    && Entered(fs, options, DirOf(path))
    && WalkDecision(fs, options, path, false) != Some(Ignore)
    && options.accepts(path)
    && fs.files[path].bytes <= options.maxFileBytes
  }

  /** `inspect_files` on one undisturbed file. */
  function Inspected(options: Options, path: string, data: FileData): Option<ScannedFile> {
    if options.detectBinary && data.binary then None
    else Some(ScannedFile(path, data.bytes, if options.hash then Some(data.content) else None, data.version))
  }

  ghost predicate Reports(fs: FileSystem, options: Options, file: ScannedFile)
    requires options.WellFormed()
  {
    Selected(fs, options, file.relative) &&
    var data := fs.files[file.relative];
    && !(data.binary && options.detectBinary)
    && file.bytes == data.bytes && file.version == data.version
    && file.contentHash == if options.hash then Some(data.content) else None
  }

  /** The files of a complete scan, sorted by path. */
  ghost predicate IsScan(fs: FileSystem, options: Options, files: seq<ScannedFile>)
    requires options.WellFormed()
  {
    Strictly(FileLess, files) && forall f :: f in files <==> Reports(fs, options, f)
  }

  /** Two complete scans of one tree report the same files in the same order. */
  lemma ScanUnique(fs: FileSystem, options: Options, a: seq<ScannedFile>, b: seq<ScannedFile>)
    requires options.WellFormed() && IsScan(fs, options, a) && IsScan(fs, options, b)
    ensures a == b
  {
    hide Reports;
    FileOrder();
    StrictUnique(FileLess, a, b);
  }

  // On-demand decisions agree with the walk -----------------------------------------------------

  lemma {:induction false} EnteredAbove(fs: FileSystem, options: Options, directory: string, above: string)
    requires options.WellFormed() && Entered(fs, options, directory) && GoodPath(above) && Above(above, directory)
    ensures WalkDecision(fs, options, above, true) != Some(Ignore)
    decreases |directory|
  {
    if above != directory { EnteredAbove(fs, options, DirOf(directory), above); }
  }

  ghost function DemandDecision(fs: FileSystem, options: Options, path: string, isDirectory: bool): Option<RuleAction>
    requires options.WellFormed()
  {
    OnDemand(Flat(LayersAt(fs, options, DirOf(path))), path, isDirectory, false)
  }

  /** In an entered directory the on-demand lookup ignores exactly what the walk ignores. */
  lemma DemandAgrees(fs: FileSystem, options: Options, path: string, isDirectory: bool)
    requires options.WellFormed() && GoodPath(path) && Entered(fs, options, DirOf(path))
    ensures DemandDecision(fs, options, path, isDirectory) == Some(Ignore)
            <==> WalkDecision(fs, options, path, isDirectory) == Some(Ignore)
  {
    hide Entered, LayersAt, Flat, OnDemand, Prepared;
    var layers := Flat(LayersAt(fs, options, DirOf(path)));
    forall above | ProperlyAbove(above, path)
      ensures Prepared(layers, above, true) != Some(Ignore)
    {
      GoodAbove(above, path);
      DecisionStable(fs, options, DirOf(path), above);
      EnteredAbove(fs, options, DirOf(path), above);
    }
    OnDemandAgreesWithWalk(layers, path, isDirectory);
  }

  lemma {:induction false} GoodAbove(above: string, path: string)
    requires GoodPath(path) && ProperlyAbove(above, path)
    ensures GoodPath(above) && Above(above, DirOf(path))
    decreases |path|
  {
    GoodParent(path);
    if above != Parent(path).value { GoodAbove(above, Parent(path).value); }
  }
}
