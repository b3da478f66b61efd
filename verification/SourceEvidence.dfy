/** What the recorded ignore sources tell: if none has changed, untouched files keep their selection. */
module SourceEvidence {
  import opened Wrappers
  import opened Report
  import opened Ordering
  import opened Paths
  import opened ScanSelection

  // Evidence about ignore sources --------------------------------------------------------------

  /** The source is a rule file in a directory of `directories`. */
  ghost predicate LocalSource(fs: FileSystem, options: Options, directories: iset<string>, s: IgnoreSource) {
    && GoodPath(s.location) && Name(s.location) in options.ignoreFiles && DirOf(s.location) in directories
    && RightKind(Name(s.location), s.kind)
    && s.location in fs.files && fs.files[s.location].content == s.contentHash
  }

  ghost predicate StaticSource(fs: FileSystem, s: IgnoreSource) {
    (s.kind, s.location) in fs.statics && fs.statics[(s.kind, s.location)] == s.contentHash
  }

  /** The sources are those of the static slots and of the rule files in the prepared directories. */
  ghost predicate SourcesOf(fs: FileSystem, options: Options, directories: iset<string>, sources: seq<IgnoreSource>) {
    forall s :: s in sources <==> StaticSource(fs, s) || LocalSource(fs, options, directories, s)
  }

  /** The root's rule files are read in any case, others when the walk enters their directory. */
  ghost function EnteredSet(fs: FileSystem, options: Options): iset<string>
    requires options.WellFormed()
  {
    iset d | d == "" || (GoodPath(d) && Entered(fs, options, d))
  }

  datatype ScanReport = ScanReport(files: seq<ScannedFile>, sources: seq<IgnoreSource>)

  /** A complete scan of the tree and the sources it has read. */
  ghost predicate IsReport(fs: FileSystem, options: Options, report: ScanReport)
    requires options.WellFormed()
  {
    IsScan(fs, options, report.files) && SourcesOf(fs, options, EnteredSet(fs, options), report.sources)
  }

  // `ignore_sources_changed` -------------------------------------------------------------------

  predicate LooksAbsolute(location: string) {
    || (location != "" && (location[0] == '/' || location[0] == '\\'))
    || (|location| > 1 && location[1] == ':' && ('a' <= location[0] <= 'z' || 'A' <= location[0] <= 'Z'))
  }

  predicate AlwaysLoaded(source: IgnoreSource) {
    StaticKind(source.kind) || (source.location != "" && source.location[0] == '<') || LooksAbsolute(source.location)
  }

  predicate WouldHaveLoaded(source: IgnoreSource, invalidated: seq<string>) {
    || AlwaysLoaded(source)
    || Parent(source.location).None?
    || exists relative | relative in invalidated ::
         IsSameOrDescendant(relative, Parent(source.location).value) || IsSameOrDescendant(Parent(source.location).value, relative)
  }

  predicate MissingLoaded(known: IgnoreSource, current: seq<IgnoreSource>, invalidated: seq<string>) {
    && !(exists s | s in current :: s.kind == known.kind && s.location == known.location)
    && WouldHaveLoaded(known, invalidated)
  }

  predicate SourcesChanged(current: seq<IgnoreSource>, previous: seq<IgnoreSource>, invalidated: seq<string>) {
    || (exists s | s in current :: s !in previous)
    || (exists known | known in previous :: MissingLoaded(known, current, invalidated))
  }

  // What the evidence says, in terms of the two trees ------------------------------------------

  /** One of the directories is the other or lies below it. */
  ghost predicate Related(a: string, b: string) { a == b || a + "/" <= b || b + "/" <= a }

  /** The location names a place outside the scanned root, by an absolute path or by a label in angle brackets. */
  ghost predicate Elsewhere(location: string) {
    location != "" &&
    (location[0] in {'/', '\\', '<'}
     || (|location| >= 2 && location[1] == ':' && ('A' <= location[0] <= 'Z' || 'a' <= location[0] <= 'z')))
  }

  /** A rule file that is missing from the evidence says nothing: it lies inside the scanned root, below its top
      directory, and in a directory that has nothing to do with the invalidated paths. */
  ghost predicate Unrelated(path: string, invalidated: seq<string>) {
    && DirOf(path) != "" && !Elsewhere(path)
    && forall relative | relative in invalidated :: !Related(DirOf(path), relative)
  }

  ghost predicate RuleFile(fs: FileSystem, options: Options, path: string) {
    path in fs.files && Name(path) in options.ignoreFiles
  }

  /** Every rule file of the `prepared` directories was read by the previous scan, too, with the same content. */
  ghost predicate NothingNew(before: FileSystem, after: FileSystem, options: Options, prepared: iset<string>)
    requires options.WellFormed()
  {
    forall path | RuleFile(after, options, path) && DirOf(path) in prepared ::
      && path in before.files && before.files[path].content == after.files[path].content
      && DirOf(path) in EnteredSet(before, options)
  }

  /** Every rule file the previous scan read is in a prepared directory still, or unrelated to the update. */
  ghost predicate NothingMissing(before: FileSystem, after: FileSystem, options: Options, prepared: iset<string>,
                                 invalidated: seq<string>)
    requires options.WellFormed()
  {
    forall path | RuleFile(before, options, path) && DirOf(path) in EnteredSet(before, options) ::
      (path in after.files && DirOf(path) in prepared) || Unrelated(path, invalidated)
  }

  ghost predicate EvidenceStands(before: FileSystem, after: FileSystem, options: Options, prepared: iset<string>,
                                 invalidated: seq<string>)
    requires options.WellFormed()
  {
    && before.statics == after.statics
    && NothingNew(before, after, options, prepared)
    && NothingMissing(before, after, options, prepared, invalidated)
  }

  lemma LoadedUnlessUnrelated(s: IgnoreSource, invalidated: seq<string>)
    requires GoodPath(s.location) && !StaticKind(s.kind) && forall relative | relative in invalidated :: GoodPath(relative)
    ensures WouldHaveLoaded(s, invalidated) <==> !Unrelated(s.location, invalidated)
  {
    var directory := DirOf(s.location);
    if Parent(s.location).Some? {
      GoodParent(s.location);
      forall relative | relative in invalidated
        ensures IsSameOrDescendant(relative, directory) || IsSameOrDescendant(directory, relative) <==> Related(directory, relative)
      {
        DescendantIsBelow(relative, directory);
        DescendantIsBelow(directory, relative);
      }
    }
  }

  lemma DescendantIsBelow(path: string, prefix: string)
    requires prefix != ""
    ensures IsSameOrDescendant(path, prefix) <==> path == prefix || prefix + "/" <= path
  {
    if prefix <= path && |path| > |prefix| && path[|prefix|] == '/' {
      assert path[..|prefix| + 1] == prefix + "/";
    }
    if prefix + "/" <= path {
      assert path[..|prefix| + 1] == prefix + "/";
    }
  }

  /** A current source is new exactly if it is none of the previous tree's. */
  lemma NewSource(before: FileSystem, after: FileSystem, options: Options, previous: seq<IgnoreSource>, s: IgnoreSource,
                  prepared: iset<string>)
    requires options.WellFormed() && GoodFileSystem(before) && GoodFileSystem(after)
    requires SourcesOf(before, options, EnteredSet(before, options), previous)
    requires StaticSource(after, s) || LocalSource(after, options, prepared, s)
    ensures s in previous <==>
      if StaticKind(s.kind) then (s.kind, s.location) in before.statics && before.statics[(s.kind, s.location)] == s.contentHash
      else s.location in before.files && before.files[s.location].content == s.contentHash
           && DirOf(s.location) in EnteredSet(before, options)
  {
    KindIsRight(Name(s.location));
    hide EnteredSet, KindOf, RightKind, StaticKind, Options.WellFormed, GoodPath, InDirectory;
  }

  /** A previous source is lost exactly if its slot is gone, or its file, or its directory was not prepared. */
  lemma LostSource(before: FileSystem, after: FileSystem, options: Options, prepared: iset<string>,
                   current: seq<IgnoreSource>, known: IgnoreSource)
    requires options.WellFormed() && GoodFileSystem(before) && GoodFileSystem(after)
    requires SourcesOf(after, options, prepared, current)
    requires StaticSource(before, known) || LocalSource(before, options, EnteredSet(before, options), known)
    ensures (exists s :: s in current && s.kind == known.kind && s.location == known.location) <==>
      if StaticKind(known.kind) then (known.kind, known.location) in after.statics
      else known.location in after.files && DirOf(known.location) in prepared
  {
    hide EnteredSet;
    if StaticKind(known.kind) {
      if (known.kind, known.location) in after.statics {
        var s := IgnoreSource(known.kind, known.location, after.statics[(known.kind, known.location)]);
        assert StaticSource(after, s) && s in current;
      }
    } else if known.location in after.files && DirOf(known.location) in prepared {
      var s := IgnoreSource(known.kind, known.location, after.files[known.location].content);
      assert LocalSource(after, options, prepared, s) && s in current;
    }
  }

  /** What `prepared` and both scans' evidence have in common. */
  ghost predicate Compared(before: FileSystem, after: FileSystem, options: Options, prepared: iset<string>,
                           current: seq<IgnoreSource>, previous: seq<IgnoreSource>, invalidated: seq<string>)
  {
    && options.WellFormed() && GoodFileSystem(before) && GoodFileSystem(after)
    && SourcesOf(before, options, EnteredSet(before, options), previous)
    && SourcesOf(after, options, prepared, current)
    && forall relative | relative in invalidated :: GoodPath(relative)
  }

  lemma NewWhenChanged(before: FileSystem, after: FileSystem, options: Options, prepared: iset<string>,
                       current: seq<IgnoreSource>, previous: seq<IgnoreSource>, invalidated: seq<string>)
    requires Compared(before, after, options, prepared, current, previous, invalidated)
    requires forall s | s in current :: s in previous
    ensures NothingNew(before, after, options, prepared)
    ensures forall slot | slot in after.statics :: slot in before.statics && before.statics[slot] == after.statics[slot]
  {
    hide EnteredSet, GoodFileSystem, Options.WellFormed;
    forall path | RuleFile(after, options, path) && DirOf(path) in prepared
      ensures path in before.files && before.files[path].content == after.files[path].content
      ensures DirOf(path) in EnteredSet(before, options)
    {
      FilesAreGood(after, path);
      var s := IgnoreSource(KindOf(Name(path)), path, after.files[path].content);
      assert LocalSource(after, options, prepared, s);
      NewSource(before, after, options, previous, s, prepared);
    }
    forall slot | slot in after.statics
      ensures slot in before.statics && before.statics[slot] == after.statics[slot]
    {
      var s := IgnoreSource(slot.0, slot.1, after.statics[slot]);
      assert StaticSource(after, s);
      SlotsAreStatic(after, slot);
      NewSource(before, after, options, previous, s, prepared);
    }
  }

  lemma FilesAreGood(fs: FileSystem, path: string)
    requires GoodFileSystem(fs) && path in fs.files
    ensures GoodPath(path)
  {
  }

  lemma SlotsAreStatic(fs: FileSystem, slot: Slot)
    requires GoodFileSystem(fs) && slot in fs.statics
    ensures StaticKind(slot.0)
  {
  }

  lemma LostWhenChanged(before: FileSystem, after: FileSystem, options: Options, prepared: iset<string>,
                        current: seq<IgnoreSource>, previous: seq<IgnoreSource>, invalidated: seq<string>)
    requires Compared(before, after, options, prepared, current, previous, invalidated)
    requires forall known | known in previous :: !MissingLoaded(known, current, invalidated)
    ensures NothingMissing(before, after, options, prepared, invalidated)
    ensures forall slot | slot in before.statics :: slot in after.statics
  {
    hide EnteredSet, GoodFileSystem, Options.WellFormed, WouldHaveLoaded, Unrelated;
    forall path | RuleFile(before, options, path) && DirOf(path) in EnteredSet(before, options)
      ensures (path in after.files && DirOf(path) in prepared) || Unrelated(path, invalidated)
    {
      FilesAreGood(before, path);
      var known := IgnoreSource(KindOf(Name(path)), path, before.files[path].content);
      assert LocalSource(before, options, EnteredSet(before, options), known) && known in previous;
      LostSource(before, after, options, prepared, current, known);
      LoadedUnlessUnrelated(known, invalidated);
      assert !MissingLoaded(known, current, invalidated);
    }
    forall slot | slot in before.statics
      ensures slot in after.statics
    {
      var known := IgnoreSource(slot.0, slot.1, before.statics[slot]);
      assert StaticSource(before, known) && known in previous;
      SlotsAreStatic(before, slot);
      LostSource(before, after, options, prepared, current, known);
      assert !MissingLoaded(known, current, invalidated);
      assert WouldHaveLoaded(known, invalidated) by { StaticsLoaded(known, invalidated); }
    }
  }

  lemma StaticsLoaded(known: IgnoreSource, invalidated: seq<string>)
    requires StaticKind(known.kind)
    ensures WouldHaveLoaded(known, invalidated)
  {
  }

  lemma StandsKeepsCurrent(before: FileSystem, after: FileSystem, options: Options, prepared: iset<string>,
                           current: seq<IgnoreSource>, previous: seq<IgnoreSource>, invalidated: seq<string>, s: IgnoreSource)
    requires Compared(before, after, options, prepared, current, previous, invalidated)
    requires EvidenceStands(before, after, options, prepared, invalidated) && s in current
    ensures s in previous
  {
    hide EnteredSet, GoodFileSystem, Options.WellFormed, NothingMissing;
    SourceByKind(after, options, prepared, current, s);
    NewSource(before, after, options, previous, s, prepared);
    if !StaticKind(s.kind) { assert RuleFile(after, options, s.location); }
  }

  lemma StandsKeepsKnown(before: FileSystem, after: FileSystem, options: Options, prepared: iset<string>,
                         current: seq<IgnoreSource>, previous: seq<IgnoreSource>, invalidated: seq<string>, known: IgnoreSource)
    requires Compared(before, after, options, prepared, current, previous, invalidated)
    requires EvidenceStands(before, after, options, prepared, invalidated) && known in previous
    ensures !MissingLoaded(known, current, invalidated)
  {
    hide EnteredSet, GoodFileSystem, Options.WellFormed, NothingNew, WouldHaveLoaded, Unrelated;
    SourceByKind(before, options, EnteredSet(before, options), previous, known);
    LostSource(before, after, options, prepared, current, known);
    if !StaticKind(known.kind) {
      assert RuleFile(before, options, known.location);
      LoadedUnlessUnrelated(known, invalidated);
    }
  }

  /** The comparison of the evidence says what it is for: nothing has changed exactly if the static sources are the
      same, no prepared directory holds a new or changed rule file, and every rule file of the previous scan was
      either found again or has nothing to do with the update. */
  lemma ChangedExactly(before: FileSystem, after: FileSystem, options: Options, prepared: iset<string>,
                       current: seq<IgnoreSource>, previous: seq<IgnoreSource>, invalidated: seq<string>)
    requires Compared(before, after, options, prepared, current, previous, invalidated)
    ensures SourcesChanged(current, previous, invalidated) <==> !EvidenceStands(before, after, options, prepared, invalidated)
  {
    hide NothingNew, NothingMissing, MissingLoaded, GoodFileSystem, SourcesOf;
    if EvidenceStands(before, after, options, prepared, invalidated) {
      forall s | s in current ensures s in previous {
        StandsKeepsCurrent(before, after, options, prepared, current, previous, invalidated, s);
      }
      forall known | known in previous ensures !MissingLoaded(known, current, invalidated) {
        StandsKeepsKnown(before, after, options, prepared, current, previous, invalidated, known);
      }
    }
    if !SourcesChanged(current, previous, invalidated) {
      NewWhenChanged(before, after, options, prepared, current, previous, invalidated);
      LostWhenChanged(before, after, options, prepared, current, previous, invalidated);
      assert before.statics == after.statics;
    }
  }

  // The plan -----------------------------------------------------------------------------------

  datatype WatchPlan = WatchPlan(changed: seq<string>, removed: seq<string>, fullRescan: bool) {
    function Invalidated(): seq<string> { changed + removed }
  }

  /** The plan tells the whole difference: every created or changed file is in `changed`, every deleted
      file is in the plan, and files that survive below an invalidated path are in `changed`. */
  ghost predicate PlanCovers(before: FileSystem, after: FileSystem, plan: WatchPlan) {
    && (forall p | p in after.files && (p in before.files ==> before.files[p] != after.files[p]) :: p in plan.changed)
    && (forall p | p in before.files && p !in after.files :: p in plan.Invalidated())
    && (forall p | p in after.files && Covered(p, Elements(plan.Invalidated())) :: p in plan.changed)
    && NoDuplicates(plan.changed)
  }

  /** `is_safe_relative`, as far as the model's paths go. */
  predicate Safe(relative: string) { GoodPath(relative) }

  // What unchanged sources imply ----------------------------------------------------------------

  /** A directory's rule files have the same contents in both trees. */
  ghost predicate SameRules(before: FileSystem, after: FileSystem, options: Options, directory: string) {
    forall name | name in options.ignoreFiles ::
      var path := Join(directory, name);
      && (path in before.files <==> path in after.files)
      && (path in before.files && path in after.files ==> before.files[path].content == after.files[path].content)
  }

  ghost predicate SameRulesAbove(before: FileSystem, after: FileSystem, options: Options, directory: string)
    decreases |directory|
  {
    SameRules(before, after, options, directory)
    && (directory != "" ==> SameRulesAbove(before, after, options, DirOf(directory)))
  }

  lemma {:induction false} SameRulesAt(before: FileSystem, after: FileSystem, options: Options, directory: string,
                                       names: seq<string>, source: nat)
    requires SameRules(before, after, options, directory) && forall n | n in names :: n in options.ignoreFiles
    ensures RulesAt(before, options, directory, names, source) == RulesAt(after, options, directory, names, source)
  {
    if names != [] {
      var last := names[|names| - 1];
      assert last in names;
      SameRulesAt(before, after, options, directory, names[..|names| - 1], source);
    }
  }

  lemma {:induction false} SameLayers(before: FileSystem, after: FileSystem, options: Options, directory: string)
    requires options.WellFormed() && before.statics == after.statics && SameRulesAbove(before, after, options, directory)
    ensures LayersAt(before, options, directory) == LayersAt(after, options, directory)
    decreases |directory|
  {
    forall i | 0 <= i < SOURCE_COUNT
      ensures RulesAt(before, options, directory, options.ignoreFiles, i) == RulesAt(after, options, directory, options.ignoreFiles, i)
    {
      SameRulesAt(before, after, options, directory, options.ignoreFiles, i);
    }
    if directory != "" { SameLayers(before, after, options, DirOf(directory)); }
    assert LayersAt(before, options, directory) == LayersAt(after, options, directory);
  }

  /** Equal rules above a directory lead the walk to the same decisions about it. */
  lemma {:induction false} SameEntered(before: FileSystem, after: FileSystem, options: Options, directory: string)
    requires options.WellFormed() && before.statics == after.statics
    requires directory != "" ==> SameRulesAbove(before, after, options, DirOf(directory))
    ensures Entered(before, options, directory) == Entered(after, options, directory)
    decreases |directory|
  {
    if directory != "" {
      SameLayers(before, after, options, DirOf(directory));
      SameEntered(before, after, options, DirOf(directory));
    }
  }

  /** What the incremental run has looked at: the directories of every changed file that the walk reaches. */
  ghost predicate Visited(after: FileSystem, options: Options, plan: WatchPlan, directories: iset<string>)
    requires options.WellFormed()
  {
    && "" in directories
    && forall p | p in plan.changed && p in after.files && GoodPath(p) && Entered(after, options, DirOf(p)) ::
         DirOf(p) in directories
  }

  /** The hypotheses under which an update stays incremental. */
  ghost predicate Unchanged(before: FileSystem, after: FileSystem, options: Options, plan: WatchPlan,
                            previous: seq<IgnoreSource>, directories: iset<string>, current: seq<IgnoreSource>)
  {
    && options.WellFormed() && GoodFileSystem(before) && GoodFileSystem(after) && PlanCovers(before, after, plan)
    && SourcesOf(before, options, EnteredSet(before, options), previous)
    && SourcesOf(after, options, directories, current) && Visited(after, options, plan, directories)
    && !SourcesChanged(current, previous, plan.Invalidated())
  }

  /** The kind tells which part of the evidence a source belongs to. */
  lemma SourceByKind(fs: FileSystem, options: Options, directories: iset<string>, sources: seq<IgnoreSource>, s: IgnoreSource)
    requires GoodFileSystem(fs) && SourcesOf(fs, options, directories, sources) && s in sources
    ensures if StaticKind(s.kind) then StaticSource(fs, s) else LocalSource(fs, options, directories, s)
  {
  }

  lemma SameStatics(before: FileSystem, after: FileSystem, options: Options, plan: WatchPlan,
                    previous: seq<IgnoreSource>, directories: iset<string>, current: seq<IgnoreSource>)
    requires Unchanged(before, after, options, plan, previous, directories, current)
    ensures before.statics == after.statics
  {
    hide SourcesChanged, LocalSource, Visited, PlanCovers;
    forall slot | slot in after.statics
      ensures slot in before.statics && before.statics[slot] == after.statics[slot]
    {
      var s := IgnoreSource(slot.0, slot.1, after.statics[slot]);
      assert StaticSource(after, s);
      InPrevious(current, previous, plan.Invalidated(), s);
      SourceByKind(before, options, EnteredSet(before, options), previous, s);
    }
    forall slot | slot in before.statics
      ensures slot in after.statics
    {
      var known := IgnoreSource(slot.0, slot.1, before.statics[slot]);
      assert StaticSource(before, known);
      StillCurrent(current, previous, plan.Invalidated(), known);
      var s :| s in current && s.kind == known.kind && s.location == known.location;
      SourceByKind(after, options, directories, current, s);
    }
  }

  lemma NewIsListed(before: FileSystem, after: FileSystem, plan: WatchPlan, path: string)
    requires PlanCovers(before, after, plan) && path in after.files
    requires GoodFileSystem(after)
    ensures path !in before.files || before.files[path] != after.files[path] ==> path in plan.changed
    ensures GoodPath(path)
  {
  }

  lemma LostIsListed(before: FileSystem, after: FileSystem, plan: WatchPlan, path: string)
    requires PlanCovers(before, after, plan) && path in before.files
    ensures path !in after.files ==> path in plan.Invalidated()
  {
  }

  /** A rule file that has come or changed would have been noticed. */
  lemma NewRuleNoticed(before: FileSystem, after: FileSystem, options: Options, plan: WatchPlan,
                       previous: seq<IgnoreSource>, directories: iset<string>, current: seq<IgnoreSource>,
                       directory: string, name: string)
    requires Unchanged(before, after, options, plan, previous, directories, current)
    requires directory in EnteredSet(after, options) && name in options.ignoreFiles
    requires Join(directory, name) in after.files
    ensures Join(directory, name) in before.files
    ensures before.files[Join(directory, name)].content == after.files[Join(directory, name)].content
  {
    hide Entered, SourcesChanged, PlanCovers, GoodFileSystem, StaticSource;
    var path := Join(directory, name);
    JoinSplits(directory, name);
    NewIsListed(before, after, plan, path);
    if path !in before.files || before.files[path].content != after.files[path].content {
      assert path in plan.changed && DirOf(path) in directories;
      var s := IgnoreSource(KindOf(name), path, after.files[path].content);
      assert LocalSource(after, options, directories, s);
      InPrevious(current, previous, plan.Invalidated(), s);
      SourceByKind(before, options, EnteredSet(before, options), previous, s);
    }
  }

  lemma InPrevious(current: seq<IgnoreSource>, previous: seq<IgnoreSource>, invalidated: seq<string>, s: IgnoreSource)
    requires !SourcesChanged(current, previous, invalidated) && s in current
    ensures s in previous
  {
  }

  lemma StillCurrent(current: seq<IgnoreSource>, previous: seq<IgnoreSource>, invalidated: seq<string>, known: IgnoreSource)
    requires !SourcesChanged(current, previous, invalidated) && known in previous && WouldHaveLoaded(known, invalidated)
    ensures exists s :: s in current && s.kind == known.kind && s.location == known.location
  {
    assert !MissingLoaded(known, current, invalidated);
  }

  /** A rule file that has gone would have been noticed. */
  lemma LostRuleNoticed(before: FileSystem, after: FileSystem, options: Options, plan: WatchPlan,
                        previous: seq<IgnoreSource>, directories: iset<string>, current: seq<IgnoreSource>,
                        directory: string, name: string)
    requires Unchanged(before, after, options, plan, previous, directories, current)
    requires directory in EnteredSet(before, options) && name in options.ignoreFiles
    requires Join(directory, name) in before.files
    ensures Join(directory, name) in after.files
  {
    hide Entered, SourcesChanged, PlanCovers, GoodFileSystem, StaticSource;
    var path := Join(directory, name);
    JoinSplits(directory, name);
    LostIsListed(before, after, plan, path);
    if path !in after.files {
      assert path in plan.Invalidated();
      var known := IgnoreSource(KindOf(name), path, before.files[path].content);
      assert LocalSource(before, options, EnteredSet(before, options), known);
      GoneWouldHaveLoaded(plan.Invalidated(), directory, name, known);
      StillCurrent(current, previous, plan.Invalidated(), known);
      var s :| s in current && s.kind == known.kind && s.location == known.location;
      SourceByKind(after, options, directories, current, s);
    }
  }

  lemma GoneWouldHaveLoaded(invalidated: seq<string>, directory: string, name: string, known: IgnoreSource)
    requires name != "" && '/' !in name && (directory != "" ==> GoodPath(directory))
    requires known.location == Join(directory, name) && known.location in invalidated
    ensures WouldHaveLoaded(known, invalidated)
  {
    if directory == "" {
      SlashFree(name);
    } else {
      SplitUnique(directory, name);
      assert IsSameOrDescendant(known.location, directory);
    }
  }

  /** In every directory that either walk enters, and above it, the rules are the same. */
  lemma {:induction false} EnteredSameRules(before: FileSystem, after: FileSystem, options: Options, plan: WatchPlan,
                           previous: seq<IgnoreSource>, directories: iset<string>, current: seq<IgnoreSource>, directory: string)
    requires Unchanged(before, after, options, plan, previous, directories, current)
    requires directory in EnteredSet(before, options) || directory in EnteredSet(after, options)
    ensures SameRulesAbove(before, after, options, directory)
    ensures Entered(before, options, directory) == Entered(after, options, directory)
    ensures directory in EnteredSet(before, options) && directory in EnteredSet(after, options)
    decreases |directory|
  {
    hide Unchanged;
    OptionsWellFormed(before, after, options, plan, previous, directories, current);
    SameStatics(before, after, options, plan, previous, directories, current);
    if directory != "" {
      if Parent(directory).Some? { GoodParent(directory); }
      EnteredSameRules(before, after, options, plan, previous, directories, current, DirOf(directory));
    }
    SameEntered(before, after, options, directory);
    forall name | name in options.ignoreFiles
      ensures Join(directory, name) in before.files <==> Join(directory, name) in after.files
      ensures Join(directory, name) in before.files && Join(directory, name) in after.files ==>
        before.files[Join(directory, name)].content == after.files[Join(directory, name)].content
    {
      if Join(directory, name) in after.files {
        NewRuleNoticed(before, after, options, plan, previous, directories, current, directory, name);
      } else if Join(directory, name) in before.files {
        LostRuleNoticed(before, after, options, plan, previous, directories, current, directory, name);
      }
    }
  }

  lemma OptionsWellFormed(before: FileSystem, after: FileSystem, options: Options, plan: WatchPlan,
                          previous: seq<IgnoreSource>, directories: iset<string>, current: seq<IgnoreSource>)
    requires Unchanged(before, after, options, plan, previous, directories, current)
    ensures options.WellFormed()
  {
  }

  /** An untouched file is reported now exactly if it was reported before. */
  lemma UntouchedReported(before: FileSystem, after: FileSystem, options: Options, plan: WatchPlan,
                          previous: seq<IgnoreSource>, directories: iset<string>, current: seq<IgnoreSource>, file: ScannedFile)
    requires Unchanged(before, after, options, plan, previous, directories, current)
    requires !Covered(file.relative, Elements(plan.Invalidated()))
    ensures Reports(before, options, file) <==> Reports(after, options, file)
  {
    hide Entered, LayersAt, SourcesOf, SourcesChanged, Visited;
    var path := file.relative;
    NotCovered(plan, path);
    if path in before.files || path in after.files {
      assert path in before.files && path in after.files && before.files[path] == after.files[path];
      var directory := DirOf(path);
      if Parent(path).Some? { GoodParent(path); }
      if Entered(before, options, directory) || Entered(after, options, directory) {
        EnteredSameRules(before, after, options, plan, previous, directories, current, directory);
        SameStatics(before, after, options, plan, previous, directories, current);
        SameLayers(before, after, options, directory);
      }
    }
  }

  lemma NotCovered(plan: WatchPlan, path: string)
    requires !Covered(path, Elements(plan.Invalidated()))
    ensures path !in plan.Invalidated() && path !in plan.changed
  {
    assert Above(path, path) && (path in plan.changed ==> path in plan.Invalidated());
    assert path in Elements(plan.Invalidated()) <==> path in plan.Invalidated();
  }

  /** The sources of the previous scan are those a new scan would read. */
  lemma SourcesStay(before: FileSystem, after: FileSystem, options: Options, plan: WatchPlan,
                    previous: seq<IgnoreSource>, directories: iset<string>, current: seq<IgnoreSource>)
    requires Unchanged(before, after, options, plan, previous, directories, current)
    ensures SourcesOf(after, options, EnteredSet(after, options), previous)
  {
    SameStatics(before, after, options, plan, previous, directories, current);
    forall s
      ensures s in previous <==> StaticSource(after, s) || LocalSource(after, options, EnteredSet(after, options), s)
    {
      if GoodPath(s.location) {
        LocalStays(before, after, options, plan, previous, directories, current, s);
      }
    }
  }

  lemma LocalStays(before: FileSystem, after: FileSystem, options: Options, plan: WatchPlan,
                   previous: seq<IgnoreSource>, directories: iset<string>, current: seq<IgnoreSource>, s: IgnoreSource)
    requires Unchanged(before, after, options, plan, previous, directories, current) && GoodPath(s.location)
    ensures LocalSource(before, options, EnteredSet(before, options), s) <==> LocalSource(after, options, EnteredSet(after, options), s)
  {
    hide Unchanged, EnteredSet;
    OptionsWellFormed(before, after, options, plan, previous, directories, current);
    var directory := DirOf(s.location);
    SplitJoins(s.location);
    if directory in EnteredSet(before, options) || directory in EnteredSet(after, options) {
      EnteredSameRules(before, after, options, plan, previous, directories, current, directory);
      SameRulesHere(before, after, options, directory);
    }
  }

  lemma SameRulesHere(before: FileSystem, after: FileSystem, options: Options, directory: string)
    requires SameRulesAbove(before, after, options, directory)
    ensures SameRules(before, after, options, directory)
  {
  }
}
