/** The incremental update of a scan from a watch plan, proved equal to a fresh full scan. */
module WatchUpdate {
  import opened Wrappers
  import opened Report
  import opened Ordering
  import opened Paths
  import opened IgnoreRules
  import opened IgnoreLayers
  import opened ScanSelection
  import opened SourceEvidence
  import opened RepositoryRules

  // The full scan ------------------------------------------------------------------------------

  /** The entries of a directory are decided with its prepared layers (`process_entry`, `process_file`). */
  method ScanFiles(matcher: RepositoryMatcher, directory: string) returns (files: seq<ScannedFile>)
    requires matcher.Valid() && directory in matcher.directories && Entered(matcher.fs, matcher.options, directory)
    ensures forall f :: f in files <==> Reports(matcher.fs, matcher.options, f) && DirOf(f.relative) == directory
    ensures NoDuplicates(files)
  {
    hide GoodFileSystem, SourcesOf, Entered, WalkDecision, FoundAmong, Options.WellFormed;
    var fs, options := matcher.fs, matcher.options;
    files := [];
    var entries := set p | p in fs.files && DirOf(p) == directory && p != "";
    var all := entries;
    NothingAmong(fs, options, all - entries);
    while entries != {}
      invariant entries <= all && matcher.Valid()
      invariant FoundAmong(fs, options, all - entries, files)
    {
      var path :| path in entries;
      FoundOneMore(fs, options, all - entries, files, path);
      assert all - (entries - {path}) == all - entries + {path};
      entries := entries - {path};
      var decision := matcher.MatchedPrepared(path, false);
      var data := fs.files[path];
      if decision != Some(Ignore) && options.accepts(path) && data.bytes <= options.maxFileBytes {
        var inspected := Inspected(options, path, data);
        if inspected.Some? {
          files := files + [inspected.value];
        }
      }
    }
    assert all - entries == all;
    AmongAll(fs, options, directory, all, files);
  }

  /** The reported files among some paths. */
  ghost predicate FoundAmong(fs: FileSystem, options: Options, paths: set<string>, files: seq<ScannedFile>)
    requires options.WellFormed()
  {
    NoDuplicates(files) && forall f :: f in files <==> Reports(fs, options, f) && f.relative in paths
  }

  lemma NothingAmong(fs: FileSystem, options: Options, paths: set<string>)
    requires options.WellFormed() && paths == {}
    ensures FoundAmong(fs, options, paths, [])
  {
  }

  lemma FoundOneMore(fs: FileSystem, options: Options, done: set<string>, files: seq<ScannedFile>, path: string)
    requires options.WellFormed() && FoundAmong(fs, options, done, files) && path in fs.files && path !in done
    ensures var inspected := if Selected(fs, options, path) then Inspected(options, path, fs.files[path]) else None;
      FoundAmong(fs, options, done + {path}, if inspected.Some? then files + [inspected.value] else files)
  {
    hide Selected;
  }

  lemma AmongAll(fs: FileSystem, options: Options, directory: string, all: set<string>, files: seq<ScannedFile>)
    requires options.WellFormed() && FoundAmong(fs, options, all, files)
    requires all == set p | p in fs.files && DirOf(p) == directory && p != ""
    ensures forall f :: f in files <==> Reports(fs, options, f) && DirOf(f.relative) == directory
    ensures NoDuplicates(files)
  {
  }

  /** The subdirectories that the walk enters. */
  method ScanDirectories(matcher: RepositoryMatcher, directory: string) returns (entered: set<string>)
    requires matcher.Valid() && directory in matcher.directories && Entered(matcher.fs, matcher.options, directory)
    ensures forall e :: e in entered <==>
      e in matcher.fs.directories && DirOf(e) == directory && Entered(matcher.fs, matcher.options, e)
  {
    hide SourcesOf, WalkDecision;
    var fs, options := matcher.fs, matcher.options;
    entered := {};
    var entries := set d | d in fs.directories && DirOf(d) == directory;
    var all := entries;
    while entries != {}
      invariant entries <= all && matcher.Valid()
      invariant forall e :: e in entered <==> e in all - entries && Entered(fs, options, e)
    {
      var path :| path in entries;
      ghost var done := all - entries;
      entries := entries - {path};
      assert all - entries == done + {path} && GoodPath(path);
      var tooDeep := options.maxDepth.Some? && Depth(path) >= options.maxDepth.value;
      if !tooDeep {
        var decision := matcher.MatchedPrepared(path, true);
        if decision != Some(Ignore) && !options.standardSkip(Name(path)) {
          entered := entered + {path};
        }
      }
    }
  }

  lemma {:induction false} EnteredUp(fs: FileSystem, options: Options, directory: string, above: string)
    requires options.WellFormed() && Entered(fs, options, directory) && Above(above, directory)
    requires GoodPath(directory)
    ensures above == "" || Entered(fs, options, above)
    decreases |directory|
  {
    if above != directory {
      GoodParent(directory);
      EnteredUp(fs, options, DirOf(directory), above);
    }
  }

  /** The directories that the walk enters. */
  ghost function EnteredDirectories(fs: FileSystem, options: Options): set<string>
    requires options.WellFormed()
  {
    set d | d in fs.directories + {""} && Entered(fs, options, d)
  }

  /** The work list of a walk: parents are done before their subdirectories wait. */
  ghost predicate WorkSets(entered: set<string>, pending: set<string>, done: set<string>) {
    && pending !! done
    && pending + done <= entered
    && (forall d | d in pending + done && d != "" :: DirOf(d) in done)
    && ("" in entered ==> "" in pending + done)
    && (forall e | e in entered && e != "" && DirOf(e) in done :: e in pending + done)
  }

  ghost predicate WorkList(fs: FileSystem, options: Options, pending: set<string>, done: set<string>)
    requires options.WellFormed()
  {
    WorkSets(EnteredDirectories(fs, options), pending, done)
  }

  /** With an empty work list every entered directory is done. */
  lemma {:induction false} AllDone(fs: FileSystem, options: Options, done: set<string>, directory: string)
    requires options.WellFormed() && GoodFileSystem(fs) && WorkList(fs, options, {}, done)
    requires Entered(fs, options, directory) && (directory == "" || directory in fs.directories)
    ensures directory in done
    decreases |directory|
  {
    if directory != "" { AllDone(fs, options, done, DirOf(directory)); }
  }

  /** Finished directories have contributed their files. */
  ghost predicate Collected(fs: FileSystem, options: Options, done: set<string>, files: seq<ScannedFile>)
    requires options.WellFormed()
  {
    NoDuplicates(files) && forall f :: f in files <==> Reports(fs, options, f) && DirOf(f.relative) in done
  }

  lemma CollectMore(fs: FileSystem, options: Options, done: set<string>, files: seq<ScannedFile>, directory: string,
                    more: seq<ScannedFile>)
    requires options.WellFormed() && Collected(fs, options, done, files) && directory !in done && NoDuplicates(more)
    requires forall f :: f in more <==> Reports(fs, options, f) && DirOf(f.relative) == directory
    ensures Collected(fs, options, done + {directory}, files + more)
  {
    hide Reports;
    forall i, j | 0 <= i < |files| && 0 <= j < |more|
      ensures files[i] != more[j]
    {
      assert files[i] in files && more[j] in more;
    }
  }

  /** Different reported files have different paths. */
  lemma DifferentPaths(fs: FileSystem, options: Options, files: seq<ScannedFile>)
    requires options.WellFormed() && NoDuplicates(files) && forall f | f in files :: Reports(fs, options, f)
    ensures IsScanSorted(files)
  {
    FileOrder();
    TextStrictTotal();
    forall i, j | 0 <= i < j < |files|
      ensures FileLess(files[i], files[j]) || FileLess(files[j], files[i])
    {
      assert files[i] in files && files[j] in files;
    }
    SortStrict(FileLess, files);
  }

  ghost predicate IsScanSorted(files: seq<ScannedFile>) {
    Strictly(FileLess, Sort(FileLess, files)) && forall f :: f in Sort(FileLess, files) <==> f in files
  }

  lemma ScanComplete(fs: FileSystem, options: Options, done: set<string>, files: seq<ScannedFile>)
    requires options.WellFormed() && GoodFileSystem(fs) && WorkList(fs, options, {}, done)
    requires Collected(fs, options, done, files)
    ensures IsScan(fs, options, Sort(FileLess, files))
  {
    forall f | Reports(fs, options, f)
      ensures DirOf(f.relative) in done
    {
      AllDone(fs, options, done, DirOf(f.relative));
    }
    DifferentPaths(fs, options, files);
  }

  lemma SourcesComplete(fs: FileSystem, options: Options, done: set<string>, prepared: iset<string>, sources: seq<IgnoreSource>)
    requires options.WellFormed() && GoodFileSystem(fs) && WorkList(fs, options, {}, done)
    requires SourcesOf(fs, options, prepared, sources) && "" in prepared
    requires forall d | d in prepared :: d == "" || (GoodPath(d) && Entered(fs, options, d))
    requires forall d | d in done :: d in prepared
    ensures SourcesOf(fs, options, EnteredSet(fs, options), sources)
  {
    forall s
      ensures LocalSource(fs, options, prepared, s) <==> LocalSource(fs, options, EnteredSet(fs, options), s)
    {
      if LocalSource(fs, options, EnteredSet(fs, options), s) && DirOf(s.location) != "" {
        AllDone(fs, options, done, DirOf(s.location));
      }
    }
  }

  /** A walk prepares the root and directories it enters. */
  ghost predicate PreparedByWalk(fs: FileSystem, options: Options, directories: set<string>)
    requires options.WellFormed()
  {
    "" in directories && forall d | d in directories :: d == "" || (GoodPath(d) && Entered(fs, options, d))
  }

  /** One entered directory: its rules, its files and the subdirectories to enter. */
  method ScanDirectory(matcher: RepositoryMatcher, directory: string) returns (files: seq<ScannedFile>, entered: set<string>)
    requires matcher.Valid() && (directory == "" || GoodPath(directory)) && Entered(matcher.fs, matcher.options, directory)
    requires PreparedByWalk(matcher.fs, matcher.options, matcher.directories.Keys)
    modifies matcher
    ensures matcher.Valid() && PreparedByWalk(matcher.fs, matcher.options, matcher.directories.Keys)
    ensures matcher.directories.Keys >= old(matcher.directories.Keys) + {directory}
    ensures forall f :: f in files <==> Reports(matcher.fs, matcher.options, f) && DirOf(f.relative) == directory
    ensures NoDuplicates(files)
    ensures forall e :: e in entered <==>
      e in matcher.fs.directories && DirOf(e) == directory && Entered(matcher.fs, matcher.options, e)
  {
    hide GoodFileSystem, SourcesOf, Entered, Reports, RightLayers, Options.WellFormed;
    matcher.PrepareDirectory(directory);
    StillEntered(matcher.fs, matcher.options, directory, matcher.directories.Keys);
    files := ScanFiles(matcher, directory);
    entered := ScanDirectories(matcher, directory);
  }

  /** `scan_repository`: enters directories in any order, loads their rules and collects their files. */
  method FullScan(fs: FileSystem, options: Options) returns (report: ScanReport)
    requires options.WellFormed() && GoodFileSystem(fs)
    ensures IsReport(fs, options, report)
  {
    hide GoodFileSystem, SourcesOf, Entered, Reports, RightLayers, Options.WellFormed, WorkList, Collected, PreparedByWalk;
    var matcher := new RepositoryMatcher(fs, options);
    matcher.PrepareDirectory("");
    var files: seq<ScannedFile> := [];
    var rootAllowed := options.maxDepth.None? || options.maxDepth.value > 0;
    var pending: set<string> := if rootAllowed then {""} else {};
    var done: set<string> := {};
    RootQueued(fs, options, pending);
    OnlyRoot(fs, options, matcher.directories.Keys);
    while pending != {}
      invariant fresh(matcher) && matcher.fs == fs && matcher.options == options && matcher.Valid()
      invariant PreparedByWalk(fs, options, matcher.directories.Keys) && done <= matcher.directories.Keys
      invariant WorkList(fs, options, pending, done) && Collected(fs, options, done, files)
      decreases |fs.directories + {""} - done|
    {
      var directory :| directory in pending;
      FromWorkList(fs, options, pending, done, directory);
      var more, entered := ScanDirectory(matcher, directory);
      CollectMore(fs, options, done, files, directory, more);
      NextWork(fs, options, pending, done, directory, entered);
      Shrinks(fs.directories + {""}, done, directory);
      files := files + more;
      pending := pending - {directory} + entered;
      done := done + {directory};
    }
    ScanComplete(fs, options, done, files);
    PreparedSet(fs, options, matcher.directories.Keys, matcher.Prepared());
    SourcesComplete(fs, options, done, matcher.Prepared(), matcher.sources);
    report := ScanReport(Sort(FileLess, files), matcher.sources);
  }

  lemma Shrinks(all: set<string>, done: set<string>, directory: string)
    requires directory in all && directory !in done
    ensures |all - (done + {directory})| < |all - done|
  {
    assert all - done == (all - (done + {directory})) + {directory};
  }

  lemma PreparedSet(fs: FileSystem, options: Options, directories: set<string>, prepared: iset<string>)
    requires options.WellFormed() && PreparedByWalk(fs, options, directories) && forall d :: d in prepared <==> d in directories
    ensures "" in prepared && forall d | d in prepared :: d == "" || (GoodPath(d) && Entered(fs, options, d))
  {
  }

  lemma RootQueued(fs: FileSystem, options: Options, pending: set<string>)
    requires options.WellFormed()
    requires pending == if options.maxDepth.None? || options.maxDepth.value > 0 then {""} else {}
    ensures WorkList(fs, options, pending, {}) && Collected(fs, options, {}, [])
  {
  }

  lemma OnlyRoot(fs: FileSystem, options: Options, directories: set<string>)
    requires options.WellFormed() && "" in directories && forall d | d in directories :: Above(d, "") || d == ""
    ensures PreparedByWalk(fs, options, directories)
  {
    forall d | Above(d, "")
      ensures d == ""
    {
      AboveShorter(d, "");
    }
  }

  lemma FromWorkList(fs: FileSystem, options: Options, pending: set<string>, done: set<string>, directory: string)
    requires options.WellFormed() && GoodFileSystem(fs) && WorkList(fs, options, pending, done) && directory in pending
    ensures (directory == "" || GoodPath(directory)) && Entered(fs, options, directory) && directory !in done
    ensures directory in fs.directories + {""}
  {
  }

  lemma StillEntered(fs: FileSystem, options: Options, directory: string, keys: set<string>)
    requires options.WellFormed() && Entered(fs, options, directory) && (directory == "" || GoodPath(directory))
    ensures forall d | d in keys && Above(d, directory) :: d == "" || Entered(fs, options, d)
  {
    forall d | d in keys && Above(d, directory)
      ensures d == "" || Entered(fs, options, d)
    {
      if directory == "" { AboveShorter(d, ""); } else { EnteredUp(fs, options, directory, d); }
    }
  }

  lemma NextWork(fs: FileSystem, options: Options, pending: set<string>, done: set<string>, directory: string, entered: set<string>)
    requires options.WellFormed() && GoodFileSystem(fs) && WorkList(fs, options, pending, done) && directory in pending
    requires forall e :: e in entered <==> e in fs.directories && DirOf(e) == directory && Entered(fs, options, e)
    ensures WorkList(fs, options, pending - {directory} + entered, done + {directory})
  {
    var all := EnteredDirectories(fs, options);
    assert entered == set e | e in all && e != "" && DirOf(e) == directory by {
      assert "" !in fs.directories;
    }
    NextSets(all, pending, done, directory, entered);
  }

  lemma NextSets(all: set<string>, pending: set<string>, done: set<string>, directory: string, entered: set<string>)
    requires WorkSets(all, pending, done) && directory in pending
    requires entered == set e | e in all && e != "" && DirOf(e) == directory
    ensures WorkSets(all, pending - {directory} + entered, done + {directory})
  {
    hide DirOf;
    var pending', done' := pending - {directory} + entered, done + {directory};
    assert pending' + done' == pending + done + entered;
    forall e | e in entered
      ensures e !in done && e != directory
    {
      SelfParent(e);
      assert e in done ==> DirOf(e) in done;
    }
    forall d | d in pending' + done' && d != "" ensures DirOf(d) in done' {
      assert d in entered ==> DirOf(d) == directory;
      assert d !in entered ==> d in pending + done;
    }
    forall e | e in all && e != "" && DirOf(e) in done' ensures e in pending' + done' {
      assert DirOf(e) == directory ==> e in entered;
    }
  }

  lemma SelfParent(path: string)
    requires path != ""
    ensures DirOf(path) != path
  {
  }

  // One changed path ---------------------------------------------------------------------------

  /** The directories above a path, the topmost first; the root is not among them. */
  function Ancestors(path: string): seq<string>
    decreases |path|
  {
    if path == "" || DirOf(path) == "" then [] else Ancestors(DirOf(path)) + [DirOf(path)]
  }

  lemma {:induction false} AncestorsAre(path: string, i: nat)
    requires GoodPath(path) && i < |Ancestors(path)|
    ensures GoodPath(Ancestors(path)[i])
    ensures DirOf(Ancestors(path)[i]) == if i == 0 then "" else Ancestors(path)[i - 1]
    ensures Depth(Ancestors(path)[i]) < Depth(path)
    decreases |path|
  {
    GoodParent(path);
    var parent := DirOf(path);
    if i == |Ancestors(path)| - 1 {
      if i > 0 { LastAncestor(parent); }
    } else {
      AncestorsAre(parent, i);
    }
  }

  lemma LastAncestor(path: string)
    requires GoodPath(path)
    ensures Ancestors(path) == [] <==> DirOf(path) == ""
    ensures Ancestors(path) != [] ==> Ancestors(path)[|Ancestors(path)| - 1] == DirOf(path)
  {
  }

  lemma {:induction false} AncestorAbove(path: string, i: nat)
    requires GoodPath(path) && i < |Ancestors(path)|
    ensures Above(Ancestors(path)[i], DirOf(path))
    decreases |path|
  {
    GoodParent(path);
    if i < |Ancestors(path)| - 1 { AncestorAbove(DirOf(path), i); }
  }

  /** If one ancestor is not entered, the directory of the path is not. */
  lemma {:induction false} AncestorEntered(fs: FileSystem, options: Options, path: string, i: nat)
    requires options.WellFormed() && GoodPath(path) && i < |Ancestors(path)| && Entered(fs, options, DirOf(path))
    ensures Entered(fs, options, Ancestors(path)[i])
    decreases |path|
  {
    GoodParent(path);
    if i < |Ancestors(path)| - 1 { AncestorEntered(fs, options, DirOf(path), i); }
  }

  /** Every directory above the path is one of its ancestors. */
  lemma {:induction false} AboveIsAncestor(path: string, d: string) returns (k: nat)
    requires GoodPath(path) && d != "" && Above(d, DirOf(path))
    ensures k < |Ancestors(path)| && Ancestors(path)[k] == d
    ensures if k == |Ancestors(path)| - 1 then DirOf(path) == d else DirOf(Ancestors(path)[k + 1]) == d
    decreases |path|
  {
    AboveShorter(d, DirOf(path));
    GoodParent(path);
    if d == DirOf(path) {
      k := |Ancestors(path)| - 1;
    } else {
      k := AboveIsAncestor(DirOf(path), d);
      LastAncestor(DirOf(path));
    }
  }

  lemma DirectoryReady(path: string)
    requires GoodPath(path)
    ensures DirOf(path) == "" || (GoodPath(DirOf(path)) && Above(DirOf(path), DirOf(path)))
  {
    if Parent(path).Some? { GoodParent(path); }
  }

  /** The directory is entered on the way to the file. */
  ghost predicate OnTheWay(fs: FileSystem, options: Options, path: string, d: string)
    requires options.WellFormed()
  {
    Above(d, DirOf(path)) && Entered(fs, options, d)
  }

  /** Where the climb stops at ancestor `i`, everything entered on the way has been read. */
  lemma StoppedAt(fs: FileSystem, options: Options, path: string, i: nat, prepared: set<string>)
    requires options.WellFormed() && GoodPath(path) && i < |Ancestors(path)| && !Entered(fs, options, Ancestors(path)[i])
    requires forall j | 0 <= j <= i :: DirOf(Ancestors(path)[j]) in prepared
    ensures forall d | d != "" && OnTheWay(fs, options, path, d) :: d in prepared
  {
    forall d | d != "" && OnTheWay(fs, options, path, d)
      ensures d in prepared
    {
      var k := AboveIsAncestor(path, d);
      if k >= i { AncestorOfAncestor(fs, options, path, i, k); }
    }
  }

  lemma EnteredBelow(fs: FileSystem, options: Options, directory: string)
    requires options.WellFormed() && directory != "" && Entered(fs, options, directory)
    ensures Entered(fs, options, DirOf(directory))
  {
  }

  lemma {:induction false} AncestorOfAncestor(fs: FileSystem, options: Options, path: string, i: nat, k: nat)
    requires options.WellFormed() && GoodPath(path) && i <= k < |Ancestors(path)| && Entered(fs, options, Ancestors(path)[k])
    ensures Entered(fs, options, Ancestors(path)[i])
    decreases k
  {
    hide Entered, Depth;
    if i < k {
      AncestorsAre(path, k);
      EnteredBelow(fs, options, Ancestors(path)[k]);
      AncestorOfAncestor(fs, options, path, i, k - 1);
    }
  }

  /** Where the climb reaches the directory of the path, everything entered on the way has been read. */
  lemma ReachedAll(fs: FileSystem, options: Options, path: string, prepared: set<string>)
    requires options.WellFormed() && GoodPath(path)
    requires forall j | 0 <= j < |Ancestors(path)| :: DirOf(Ancestors(path)[j]) in prepared
    requires DirOf(path) in prepared
    ensures forall d | d != "" && OnTheWay(fs, options, path, d) :: d in prepared
  {
    forall d | d != "" && OnTheWay(fs, options, path, d)
      ensures d in prepared
    {
      var k := AboveIsAncestor(path, d);
    }
  }

  /** Preparing an entered directory above the path reads only directories on the way. */
  lemma PreparedOnTheWay(fs: FileSystem, options: Options, path: string, directory: string, added: set<string>)
    requires options.WellFormed() && GoodPath(path) && Entered(fs, options, directory)
    requires directory == "" || (GoodPath(directory) && Above(directory, DirOf(path)))
    requires forall d | d in added :: Above(d, directory) || d == ""
    ensures forall d | d in added :: d == "" || OnTheWay(fs, options, path, d)
  {
    forall d | d in added && d != ""
      ensures OnTheWay(fs, options, path, d)
    {
      if directory == "" {
        AboveShorter(d, "");
      } else {
        AboveTransitive(d, directory, DirOf(path));
        EnteredUp(fs, options, directory, d);
      }
    }
  }

  /** `ancestors_selected`: the on-demand decisions about the directories above, from the top. */
  method AncestorsSelected(matcher: RepositoryMatcher, path: string) returns (selected: bool)
    requires matcher.Valid() && GoodPath(path)
    requires matcher.options.maxDepth.Some? ==> Depth(path) <= matcher.options.maxDepth.value
    modifies matcher
    ensures matcher.Valid() && old(matcher.directories.Keys) <= matcher.directories.Keys
    ensures selected <==> Entered(matcher.fs, matcher.options, DirOf(path))
    ensures forall d | d in matcher.directories.Keys - old(matcher.directories.Keys) ::
      d == "" || OnTheWay(matcher.fs, matcher.options, path, d)
    ensures selected ==> forall j | 0 <= j < |Ancestors(path)| :: DirOf(Ancestors(path)[j]) in matcher.directories
    ensures !selected ==> forall d | d != "" && OnTheWay(matcher.fs, matcher.options, path, d) :: d in matcher.directories
  {
    hide GoodFileSystem, SourcesOf, RightLayers, Options.WellFormed, WalkDecision, DemandDecision, Entered, OnTheWay;
    var ancestors := Ancestors(path);
    LastAncestor(path);
    RootEntered(matcher.fs, matcher.options, path);
    ghost var directory := "";
    for i := 0 to |ancestors|
      invariant matcher.Valid() && old(matcher.directories.Keys) <= matcher.directories.Keys
      invariant directory == if i == 0 then "" else ancestors[i - 1]
      invariant directory == "" || (GoodPath(directory) && Above(directory, DirOf(path)))
      invariant Entered(matcher.fs, matcher.options, directory)
      invariant forall d | d in matcher.directories.Keys - old(matcher.directories.Keys) ::
        d == "" || OnTheWay(matcher.fs, matcher.options, path, d)
      invariant forall j | 0 <= j < i :: DirOf(ancestors[j]) in matcher.directories
    {
      AncestorsAre(path, i);
      AncestorAbove(path, i);
      ghost var known := matcher.directories.Keys;
      DemandAgrees(matcher.fs, matcher.options, ancestors[i], true);
      EnteredStep(matcher.fs, matcher.options, ancestors[i]);
      var decision := matcher.Matched(ancestors[i], true);
      PreparedOnTheWay(matcher.fs, matcher.options, path, directory, matcher.directories.Keys - known);
      if decision == Some(Ignore) || matcher.options.standardSkip(Name(ancestors[i])) {
        if Entered(matcher.fs, matcher.options, DirOf(path)) { AncestorEntered(matcher.fs, matcher.options, path, i); }
        StoppedAt(matcher.fs, matcher.options, path, i, matcher.directories.Keys);
        return false;
      }
      directory := ancestors[i];
    }
    return true;
  }

  lemma RootEntered(fs: FileSystem, options: Options, path: string)
    requires options.WellFormed() && GoodPath(path) && (options.maxDepth.Some? ==> Depth(path) <= options.maxDepth.value)
    ensures Entered(fs, options, "")
  {
  }

  /** What entering a directory takes, given that the walk is in the one above. */
  lemma EnteredStep(fs: FileSystem, options: Options, directory: string)
    requires options.WellFormed() && directory != "" && Entered(fs, options, DirOf(directory))
    ensures Entered(fs, options, directory) <==>
      && (options.maxDepth.Some? ==> Depth(directory) < options.maxDepth.value)
      && WalkDecision(fs, options, directory, true) != Some(Ignore)
      && !options.standardSkip(Name(directory))
  {
  }

  /** The update reads the rules of the directory for the sake of a changed path: the path is a file within the
      depth limit, and the walk enters the directory on the way to it. */
  ghost predicate ReadFor(fs: FileSystem, options: Options, path: string, d: string)
    requires options.WellFormed()
  {
    && path in fs.files && (options.maxDepth.Some? ==> Depth(path) <= options.maxDepth.value)
    && OnTheWay(fs, options, path, d)
  }

  datatype ChangedPath = Candidate(data: FileData) | MissingOrSkipped | NeedsFullScan

  /** `changed_candidate`: a changed path is a candidate exactly if a full scan would select it. */
  method ChangedCandidate(matcher: RepositoryMatcher, relative: string) returns (result: ChangedPath)
    requires matcher.Valid() && GoodPath(relative)
    modifies matcher
    ensures matcher.Valid() && old(matcher.directories.Keys) <= matcher.directories.Keys
    ensures result.NeedsFullScan? <==> relative in matcher.fs.directories
    ensures result.Candidate? <==> Selected(matcher.fs, matcher.options, relative)
    ensures result.Candidate? ==> relative in matcher.fs.files && result.data == matcher.fs.files[relative]
    ensures relative in matcher.fs.files && Entered(matcher.fs, matcher.options, DirOf(relative)) ==>
      DirOf(relative) in matcher.directories
    ensures "" in old(matcher.directories) && !result.NeedsFullScan? ==>
      forall d :: d in matcher.directories <==>
        d in old(matcher.directories) || ReadFor(matcher.fs, matcher.options, relative, d)
  {
    hide SourcesOf, RightLayers, Options.WellFormed, WalkDecision, DemandDecision, Entered, OnTheWay;
    var fs, options := matcher.fs, matcher.options;
    if relative in fs.directories {
      return NeedsFullScan;
    }
    if relative !in fs.files {
      return MissingOrSkipped;
    }
    EnteredDepth(fs, options, relative);
    if options.maxDepth.Some? && Depth(relative) > options.maxDepth.value {
      return MissingOrSkipped;
    }
    var ancestors := AncestorsSelected(matcher, relative);
    if !ancestors {
      return MissingOrSkipped;
    }
    DemandAgrees(fs, options, relative, false);
    ghost var known := matcher.directories.Keys;
    var decision := matcher.Matched(relative, false);
    DirectoryReady(relative);
    PreparedOnTheWay(fs, options, relative, DirOf(relative), matcher.directories.Keys - known);
    ReachedAll(fs, options, relative, matcher.directories.Keys);
    if decision == Some(Ignore) {
      return MissingOrSkipped;
    }
    if !options.accepts(relative) {
      return MissingOrSkipped;
    }
    if fs.files[relative].bytes > options.maxFileBytes {
      return MissingOrSkipped;
    }
    return Candidate(fs.files[relative]);
  }

  lemma EnteredDepth(fs: FileSystem, options: Options, path: string)
    requires options.WellFormed() && GoodPath(path)
    ensures Entered(fs, options, DirOf(path)) && options.maxDepth.Some? ==> Depth(path) <= options.maxDepth.value
  {
  }

  // The update ---------------------------------------------------------------------------------

  /** `prepare_incremental_report`: drops what the plan invalidates. */
  method RetainFiles(files: seq<ScannedFile>, plan: WatchPlan) returns (retained: seq<ScannedFile>)
    requires NoDuplicates(files)
    ensures NoDuplicates(retained)
    ensures forall f :: f in retained <==> f in files && !Covered(f.relative, Elements(plan.Invalidated()))
  {
    hide Covered, Topmost, Elements;
    var prefixes := CollapsePathPrefixes(plan.Invalidated());
    retained := [];
    for i := 0 to |files|
      invariant NoDuplicates(retained)
      invariant forall f :: f in retained <==> f in files[..i] && !Covered(f.relative, Elements(plan.Invalidated()))
    {
      var covered := PathCoveredByPrefixes(files[i].relative, prefixes);
      assert files[..i + 1] == files[..i] + [files[i]];
      assert files[i] !in files[..i];
      if !covered {
        retained := retained + [files[i]];
      }
    }
    assert files[..|files|] == files;
  }

  datatype FullRescanReason = StructuralChange | IncompletePreviousState | PolicyChanged | IgnoreInputChanged

  datatype UpdateReason = Incremental | FullRescan(reason: FullRescanReason)

  datatype Update = Update(report: ScanReport, reason: UpdateReason)

  /** What is known about the previous scan. */
  datatype PreviousState = PreviousState(report: ScanReport, complete: bool, policyMatches: bool, sameRoot: bool)

  /** `early_full_rescan_reason`. */
  function EarlyReason(previous: PreviousState, plan: WatchPlan): Option<FullRescanReason> {
    if plan.fullRescan then Some(StructuralChange)
    else if !previous.complete then Some(IncompletePreviousState)
    else if !previous.policyMatches then Some(PolicyChanged)
    else None
  }

  /** The files found among the changed paths. */
  ghost predicate Found(after: FileSystem, options: Options, changed: seq<string>, found: seq<ScannedFile>)
    requires options.WellFormed()
  {
    NoDuplicates(found) && forall f :: f in found <==> Reports(after, options, f) && f.relative in changed
  }

  lemma FoundMore(after: FileSystem, options: Options, changed: seq<string>, found: seq<ScannedFile>, path: string,
                  inspected: Option<ScannedFile>)
    requires options.WellFormed() && Found(after, options, changed, found) && path !in changed
    requires inspected == if Selected(after, options, path) then Inspected(options, path, after.files[path]) else None
    ensures Found(after, options, changed + [path], if inspected.Some? then found + [inspected.value] else found)
  {
    hide Selected;
    assert forall p :: p in changed + [path] <==> p in changed || p == path;
  }

  /** The retained and the found files are the files of a fresh scan. */
  lemma UpdateIsScan(before: FileSystem, after: FileSystem, options: Options, plan: WatchPlan,
                     previous: ScanReport, directories: iset<string>, current: seq<IgnoreSource>,
                     retained: seq<ScannedFile>, found: seq<ScannedFile>)
    requires Unchanged(before, after, options, plan, previous.sources, directories, current)
    requires IsScan(before, options, previous.files)
    requires NoDuplicates(retained)
    requires forall f :: f in retained <==> f in previous.files && !Covered(f.relative, Elements(plan.Invalidated()))
    requires Found(after, options, plan.changed, found)
    ensures IsScan(after, options, Sort(FileLess, retained + found))
  {
    OptionsWellFormed(before, after, options, plan, previous.sources, directories, current);
    forall f
      ensures f in retained + found <==> Reports(after, options, f)
      ensures f in retained ==> f !in found
    {
      FileAccounted(before, after, options, plan, previous, directories, current, f);
    }
    forall i, j | 0 <= i < |retained| && 0 <= j < |found|
      ensures retained[i] != found[j]
    {
      assert retained[i] in retained && found[j] in found;
    }
    DifferentPaths(after, options, retained + found);
  }

  lemma FileAccounted(before: FileSystem, after: FileSystem, options: Options, plan: WatchPlan,
                      previous: ScanReport, directories: iset<string>, current: seq<IgnoreSource>, f: ScannedFile)
    requires Unchanged(before, after, options, plan, previous.sources, directories, current)
    requires IsScan(before, options, previous.files)
    ensures var kept := f in previous.files && !Covered(f.relative, Elements(plan.Invalidated()));
      var found := Reports(after, options, f) && f.relative in plan.changed;
      (kept || found <==> Reports(after, options, f)) && !(kept && found)
  {
    hide Entered, LayersAt, SourcesOf, SourcesChanged, Visited, WalkDecision;
    if Covered(f.relative, Elements(plan.Invalidated())) {
      assert Reports(after, options, f) ==> f.relative in after.files;
    } else {
      NotCovered(plan, f.relative);
      UntouchedReported(before, after, options, plan, previous.sources, directories, current, f);
    }
  }

  /** The previous report is that of a complete scan under the same policy, and the plan does not give it up. */
  ghost predicate Usable(previous: PreviousState, plan: WatchPlan) {
    !plan.fullRescan && previous.complete && previous.policyMatches
  }

  /** Nothing asks for a full scan before the rule evidence is compared. */
  ghost predicate Direct(after: FileSystem, previous: PreviousState, plan: WatchPlan) {
    && Usable(previous, plan) && previous.sameRoot
    && (forall relative | relative in plan.Invalidated() :: Safe(relative))
    && (forall relative | relative in plan.changed :: relative !in after.directories)
  }

  /** `scan_watch_plan`: whatever way it takes, the report is the report of a fresh full scan.  It is incremental
      exactly if nothing asks for a full scan and the rule evidence of the `prepared` directories is unchanged. */
  method ScanWatchPlan(after: FileSystem, options: Options, previous: PreviousState, plan: WatchPlan, ghost before: FileSystem)
    returns (update: Update, ghost prepared: iset<string>, ghost current: seq<IgnoreSource>)
    requires options.WellFormed() && GoodFileSystem(before) && GoodFileSystem(after)
    requires Usable(previous, plan) ==> IsReport(before, options, previous.report) && PlanCovers(before, after, plan)
    ensures IsReport(after, options, update.report)
    ensures update.reason.Incremental? ==> update.report.sources == previous.report.sources
    ensures plan.fullRescan ==> update.reason == FullRescan(StructuralChange)
    ensures !plan.fullRescan && !previous.complete ==> update.reason == FullRescan(IncompletePreviousState)
    ensures !plan.fullRescan && previous.complete && !previous.policyMatches ==> update.reason == FullRescan(PolicyChanged)
    ensures Usable(previous, plan) && !Direct(after, previous, plan) ==> update.reason == FullRescan(StructuralChange)
    ensures Direct(after, previous, plan) ==>
      && SourcesOf(after, options, prepared, current) && Visited(after, options, plan, prepared)
      && prepared == ReadSet(after, options, plan)
      && update.reason == if EvidenceStands(before, after, options, ReadSet(after, options, plan), plan.Invalidated())
                          then Incremental else FullRescan(IgnoreInputChanged)
  {
    hide GoodFileSystem, Options.WellFormed, IsReport, PlanCovers, EvidenceStands, ReadSet;
    prepared, current := iset{}, [];
    var early := EarlyReason(previous, plan);
    if early.Some? {
      var report := FullScan(after, options);
      update := Update(report, FullRescan(early.value));
      return;
    }
    if !previous.sameRoot || exists relative | relative in plan.Invalidated() :: !Safe(relative) {
      var report := FullScan(after, options);
      update := Update(report, FullRescan(StructuralChange));
      return;
    }
    var matcher := new RepositoryMatcher(after, options);
    matcher.PrepareDirectory("");
    OnlyTheRoot(matcher.directories.Keys);
    var structural, found := ChangedCandidates(matcher, plan, before);
    if structural {
      var report := FullScan(after, options);
      update := Update(report, FullRescan(StructuralChange));
      return;
    }
    prepared, current := matcher.Prepared(), matcher.sources;
    DirectCompared(before, after, options, previous, plan, prepared, current);
    ChangedExactly(before, after, options, prepared, current, previous.report.sources, plan.Invalidated());
    if SourcesChanged(matcher.sources, previous.report.sources, plan.Invalidated()) {
      var report := FullScan(after, options);
      update := Update(report, FullRescan(IgnoreInputChanged));
      return;
    }
    FilesDistinct(before, options, previous.report);
    var retained := RetainFiles(previous.report.files, plan);
    var report := ScanReport(Sort(FileLess, retained + found), previous.report.sources);
    UpdateIsReport(before, after, options, plan, previous.report, matcher.Prepared(), matcher.sources, retained, found);
    update := Update(report, Incremental);
  }

  lemma OnlyTheRoot(directories: set<string>)
    requires "" in directories && forall d | d in directories :: Above(d, "") || d == ""
    ensures directories == {""}
  {
    forall d | d in directories ensures d == "" {
      if d != "" { AboveShorter(d, ""); }
    }
  }

  lemma DirectCompared(before: FileSystem, after: FileSystem, options: Options, previous: PreviousState, plan: WatchPlan,
                       prepared: iset<string>, current: seq<IgnoreSource>)
    requires options.WellFormed() && GoodFileSystem(before) && GoodFileSystem(after)
    requires IsReport(before, options, previous.report) && SourcesOf(after, options, prepared, current)
    requires forall relative | relative in plan.Invalidated() :: Safe(relative)
    ensures Compared(before, after, options, prepared, current, previous.report.sources, plan.Invalidated())
  {
  }

  lemma FilesDistinct(fs: FileSystem, options: Options, report: ScanReport)
    requires options.WellFormed() && IsReport(fs, options, report)
    ensures NoDuplicates(report.files) && IsScan(fs, options, report.files)
  {
    TextStrictTotal();
  }

  /** The loop over the changed paths. */
  method ChangedCandidates(matcher: RepositoryMatcher, plan: WatchPlan, ghost before: FileSystem)
    returns (structural: bool, found: seq<ScannedFile>)
    requires matcher.Valid() && matcher.directories.Keys == {""} && PlanCovers(before, matcher.fs, plan)
    requires forall relative | relative in plan.Invalidated() :: GoodPath(relative)
    modifies matcher
    ensures matcher.Valid()
    ensures structural <==> exists p :: p in plan.changed && p in matcher.fs.directories
    ensures !structural ==>
      && Found(matcher.fs, matcher.options, plan.changed, found)
      && Visited(matcher.fs, matcher.options, plan, matcher.Prepared())
      && matcher.Prepared() == ReadSet(matcher.fs, matcher.options, plan)
  {
    hide GoodFileSystem, SourcesOf, RightLayers, Options.WellFormed, Entered, Selected, Found, RepositoryMatcher.Valid;
    hide Tried, PlanCovers, ReadFor, ReadSet, ReadForSome;
    var fs, options := matcher.fs, matcher.options;
    found := [];
    NothingFound(matcher);
    for i := 0 to |plan.changed|
      invariant matcher.Valid() && "" in matcher.directories
      invariant Found(fs, options, plan.changed[..i], found)
      invariant Tried(fs, options, plan.changed[..i], matcher.directories.Keys)
    {
      var relative := plan.changed[i];
      NextChanged(before, fs, plan, i);
      ghost var known := matcher.directories.Keys;
      var candidate := ChangedCandidate(matcher, relative);
      var inspected: Option<ScannedFile> := None;
      match candidate {
        case NeedsFullScan =>
          return true, found;
        case MissingOrSkipped =>
          FoundMore(fs, options, plan.changed[..i], found, relative, None);
        case Candidate(data) =>
          inspected := Inspected(options, relative, data);
          FoundMore(fs, options, plan.changed[..i], found, relative, inspected);
          if inspected.Some? {
            found := found + [inspected.value];
          }
      }
      TriedMore(fs, options, plan.changed[..i], relative, known, matcher.directories.Keys);
    }
    assert plan.changed[..|plan.changed|] == plan.changed;
    AllTried(matcher, plan);
    structural := false;
  }

  /** None of the paths is a directory, and the directories of those that a scan could reach are prepared. */
  ghost predicate Tried(fs: FileSystem, options: Options, paths: seq<string>, prepared: set<string>)
    requires options.WellFormed()
  {
    && (forall p | p in paths :: p !in fs.directories)
    && (forall p | p in paths && p in fs.files && Entered(fs, options, DirOf(p)) :: DirOf(p) in prepared)
    && forall d :: d in prepared <==> d == "" || exists p | p in paths :: ReadFor(fs, options, p, d)
  }

  /** The directories whose rules an update reads: the root's, and those the walk enters on the way to a changed file. */
  ghost function ReadSet(after: FileSystem, options: Options, plan: WatchPlan): iset<string>
    requires options.WellFormed()
  {
    iset d | ReadForSome(after, options, plan.changed, d)
  }

  ghost predicate ReadForSome(fs: FileSystem, options: Options, paths: seq<string>, d: string)
    requires options.WellFormed()
  {
    d == "" || exists p | p in paths :: ReadFor(fs, options, p, d)
  }

  /** An update reads rules only where the walk goes. */
  lemma ReadIsEntered(after: FileSystem, options: Options, plan: WatchPlan)
    requires options.WellFormed() && forall p | p in plan.changed :: GoodPath(p)
    ensures ReadSet(after, options, plan) <= EnteredSet(after, options)
  {
    hide Entered;
    forall d, p | d != "" && p in plan.changed && ReadFor(after, options, p, d)
      ensures GoodPath(d)
    {
      AboveIsCut(d, DirOf(p));
      DirectoryReady(p);
      AboveShorter(d, DirOf(p));
      assert d[0] == DirOf(p)[0];
    }
  }

  lemma SameRulesEverywhere(before: FileSystem, after: FileSystem, options: Options, directory: string)
    requires forall name | name in options.ignoreFiles :: '/' !in name
    requires forall d :: SameRules(before, after, options, d)
    ensures SameRulesAbove(before, after, options, directory)
    decreases |directory|
  {
    if directory != "" { SameRulesEverywhere(before, after, options, DirOf(directory)); }
  }

  /** With the same static sources and the same rule files in both trees, an update stays incremental exactly if
      every rule file the walk reads is read again or has nothing to do with the update. */
  lemma SameRulesDecide(before: FileSystem, after: FileSystem, options: Options, plan: WatchPlan)
    requires options.WellFormed() && GoodFileSystem(before) && GoodFileSystem(after)
    requires before.statics == after.statics && forall d :: SameRules(before, after, options, d)
    requires forall p | p in plan.changed :: GoodPath(p)
    ensures EvidenceStands(before, after, options, ReadSet(after, options, plan), plan.Invalidated()) <==>
      forall path | RuleFile(after, options, path) && DirOf(path) in EnteredSet(after, options) ::
        DirOf(path) in ReadSet(after, options, plan) || Unrelated(path, plan.Invalidated())
  {
    ReadIsEntered(after, options, plan);
    forall d ensures d in EnteredSet(before, options) <==> d in EnteredSet(after, options) {
      if d != "" { SameRulesEverywhere(before, after, options, DirOf(d)); }
      SameEntered(before, after, options, d);
    }
    hide EnteredSet, ReadSet, Unrelated;
    forall path | RuleFile(before, options, path) || RuleFile(after, options, path)
      ensures path in before.files && path in after.files && before.files[path].content == after.files[path].content
    {
      SplitJoins(path);
      assert SameRules(before, after, options, DirOf(path));
    }
  }

  /** A rule file in `a` and a file in `b`. */
  function TwoDirectories(rules: FileData, file: FileData): FileSystem {
    FileSystem(map["a/.gitignore" := rules, "b/x" := file], {"a", "b"}, map[])
  }

  /** A change in one directory leaves the rule file of its neighbour out of the question. */
  lemma NeighbourStands(options: Options, rules: FileData, file: FileData, changed: FileData)
    requires options.WellFormed() && options.ignoreFiles == [".gitignore"]
    ensures EvidenceStands(TwoDirectories(rules, file), TwoDirectories(rules, changed), options,
                           ReadSet(TwoDirectories(rules, changed), options, WatchPlan(["b/x"], [], false)), ["b/x"])
  {
    NeighbourNames();
    hide Name, DirOf, Above, Entered, EnteredSet;
    var after, plan := TwoDirectories(rules, changed), WatchPlan(["b/x"], [], false);
    assert "a" !in ReadSet(after, options, plan) by { assert forall p | p in plan.changed :: p == "b/x"; }
    hide ReadSet;
    assert Unrelated("a/.gitignore", ["b/x"]) by {
      assert ("a" + "/")[0] == 'a' && "b/x"[0] == 'b' && ("b/x" + "/")[0] == 'b';
    }
    hide Unrelated;
  }

  lemma NeighbourNames()
    ensures DirOf("a/.gitignore") == "a" && Name("a/.gitignore") == ".gitignore"
    ensures DirOf("b/x") == "b" && Name("b/x") == "x" && !Above("a", "b")
  {
    SplitUnique("a", ".gitignore");
    SplitUnique("b", "x");
    SlashFree("b");
    assert "a/.gitignore" == "a" + "/" + ".gitignore" && "b/x" == "b" + "/" + "x";
  }

  lemma TriedMore(fs: FileSystem, options: Options, paths: seq<string>, path: string, known: set<string>, prepared: set<string>)
    requires options.WellFormed() && Tried(fs, options, paths, known)
    requires forall d :: d in prepared <==> d in known || ReadFor(fs, options, path, d)
    requires path !in fs.directories && (path in fs.files && Entered(fs, options, DirOf(path)) ==> DirOf(path) in prepared)
    ensures Tried(fs, options, paths + [path], prepared)
  {
    hide Entered, ReadFor;
    assert forall p :: p in paths + [path] <==> p in paths || p == path;
  }

  lemma AllTried(matcher: RepositoryMatcher, plan: WatchPlan)
    requires matcher.Valid() && "" in matcher.directories
    requires Tried(matcher.fs, matcher.options, plan.changed, matcher.directories.Keys)
    ensures Visited(matcher.fs, matcher.options, plan, matcher.Prepared())
    ensures matcher.Prepared() == ReadSet(matcher.fs, matcher.options, plan)
    ensures forall p | p in plan.changed :: p !in matcher.fs.directories
  {
  }

  lemma NextChanged(before: FileSystem, after: FileSystem, plan: WatchPlan, i: nat)
    requires PlanCovers(before, after, plan) && i < |plan.changed|
    ensures plan.changed[i] in plan.Invalidated()
    ensures plan.changed[..i + 1] == plan.changed[..i] + [plan.changed[i]] && plan.changed[i] !in plan.changed[..i]
  {
  }

  lemma NothingFound(matcher: RepositoryMatcher)
    requires matcher.Valid() && matcher.directories.Keys == {""}
    ensures matcher.options.WellFormed() && Found(matcher.fs, matcher.options, [], [])
    ensures Tried(matcher.fs, matcher.options, [], matcher.directories.Keys)
  {
  }

  lemma UpdateIsReport(before: FileSystem, after: FileSystem, options: Options, plan: WatchPlan,
                       previous: ScanReport, directories: iset<string>, current: seq<IgnoreSource>,
                       retained: seq<ScannedFile>, found: seq<ScannedFile>)
    requires options.WellFormed() && GoodFileSystem(before) && GoodFileSystem(after) && PlanCovers(before, after, plan)
    requires IsReport(before, options, previous)
    requires SourcesOf(after, options, directories, current) && Visited(after, options, plan, directories)
    requires !SourcesChanged(current, previous.sources, plan.Invalidated())
    requires NoDuplicates(retained)
    requires forall f :: f in retained <==> f in previous.files && !Covered(f.relative, Elements(plan.Invalidated()))
    requires Found(after, options, plan.changed, found)
    ensures IsReport(after, options, ScanReport(Sort(FileLess, retained + found), previous.sources))
  {
    hide GoodFileSystem, SourcesOf, SourcesChanged, Visited, PlanCovers, IsScan, Found, Options.WellFormed;
    assert Unchanged(before, after, options, plan, previous.sources, directories, current);
    UpdateIsScan(before, after, options, plan, previous, directories, current, retained, found);
    SourcesStay(before, after, options, plan, previous.sources, directories, current);
  }

  /** An update from a complete report can do without a full scan. */
  ghost predicate StaysIncremental(before: FileSystem, after: FileSystem, options: Options, plan: WatchPlan)
    requires options.WellFormed()
  {
    && !plan.fullRescan && (forall relative | relative in plan.Invalidated() :: Safe(relative))
    && (forall relative | relative in plan.changed :: relative !in after.directories)
    && EvidenceStands(before, after, options, ReadSet(after, options, plan), plan.Invalidated())
  }

  lemma IncrementalIs(before: FileSystem, after: FileSystem, options: Options, previous: PreviousState, plan: WatchPlan,
                      reason: UpdateReason)
    requires options.WellFormed() && previous.complete && previous.policyMatches && previous.sameRoot
    requires plan.fullRescan ==> reason == FullRescan(StructuralChange)
    requires Usable(previous, plan) && !Direct(after, previous, plan) ==> reason == FullRescan(StructuralChange)
    requires Direct(after, previous, plan) ==>
      reason == if EvidenceStands(before, after, options, ReadSet(after, options, plan), plan.Invalidated())
                then Incremental else FullRescan(IgnoreInputChanged)
    ensures reason.Incremental? <==> StaysIncremental(before, after, options, plan)
  {
    hide EvidenceStands, ReadSet;
  }

  /** Any number of updates, each from the report of the one before: the files are always those of a fresh full scan,
      in the same order, and no update scans everything without need. */
  method Follow(trees: seq<FileSystem>, plans: seq<WatchPlan>, options: Options)
    returns (report: ScanReport, reasons: seq<UpdateReason>)
    requires options.WellFormed() && |trees| == |plans| + 1
    requires forall t | t in trees :: GoodFileSystem(t)
    requires forall i | 0 <= i < |plans| :: plans[i].fullRescan || PlanCovers(trees[i], trees[i + 1], plans[i])
    ensures IsReport(trees[|plans|], options, report)
    ensures forall other: ScanReport :: IsReport(trees[|plans|], options, other) ==> report.files == other.files
    ensures |reasons| == |plans|
    ensures forall i | 0 <= i < |plans| :: reasons[i].Incremental? <==> StaysIncremental(trees[i], trees[i + 1], options, plans[i])
  {
    hide GoodFileSystem, Options.WellFormed, IsReport, PlanCovers, StaysIncremental;
    assert trees[0] in trees;
    report := FullScan(trees[0], options);
    reasons := [];
    for i := 0 to |plans|
      invariant IsReport(trees[i], options, report) && |reasons| == i
      invariant forall j | 0 <= j < i :: reasons[j].Incremental? <==> StaysIncremental(trees[j], trees[j + 1], options, plans[j])
    {
      assert trees[i] in trees && trees[i + 1] in trees;
      var previous := PreviousState(report, true, true, true);
      var update, _, _ := ScanWatchPlan(trees[i + 1], options, previous, plans[i], trees[i]);
      IncrementalIs(trees[i], trees[i + 1], options, previous, plans[i], update.reason);
      report := update.report;
      reasons := reasons + [update.reason];
    }
    forall other | IsReport(trees[|plans|], options, other)
      ensures report.files == other.files
    {
      SameFiles(trees[|plans|], options, report, other);
    }
  }

  lemma SameFiles(fs: FileSystem, options: Options, a: ScanReport, b: ScanReport)
    requires options.WellFormed() && IsReport(fs, options, a) && IsReport(fs, options, b)
    ensures a.files == b.files
  {
    ScanUnique(fs, options, a.files, b.files);
  }
}
