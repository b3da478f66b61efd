/**
 The walk of a directory graph as the options document it: what is yielded for every entry, which directories
 are entered, and with which reason the others are skipped.  The walker's own decisions do not occur here.
 */
module WalkReference {
  import opened Wrappers
  import opened FileTree
  import opened WalkGraph

  /** The entry is wanted: it is not the redirected output, and the filter lets it through. */
  ghost predicate Wanted(cfg: Config, entry: WalkEntry) {
    && (cfg.skipStdout && entry.isFile ==> !entry.stdout)
    && (cfg.filter == None || cfg.filter.value(entry))
  }

  ghost function Yielded(cfg: Config, entry: WalkEntry): seq<WalkItem> {
    if Wanted(cfg, entry) && cfg.minDepth <= entry.depth then [Ok(entry)] else []
  }

  /** A plain directory's place is looked at only where the options ask for it; a followed link's always is. */
  ghost predicate Escapes(cfg: Config, link: bool, outside: bool) {
    outside && (link || cfg.sameFileSystem || cfg.followLinks)
  }

  ghost predicate TooDeep(cfg: Config, depth: nat) { cfg.maxDepth.Some? && cfg.maxDepth.value <= depth }

  /** The directory is entered. */
  ghost predicate Open(cfg: Config, depth: nat, link: bool, id: DirId, outside: bool, foreign: bool, active: set<DirId>) {
    && !Escapes(cfg, link, outside) && !(cfg.sameFileSystem && foreign) && !TooDeep(cfg, depth)
    && (cfg.followLinks && depth > 0 ==> id !in active)
  }

  /** Why a directory is not entered: the first reason of this order. */
  ghost function Reason(cfg: Config, depth: nat, link: bool, outside: bool, foreign: bool): SkipReason {
    if Escapes(cfg, link, outside) then PathEscape
    else if cfg.sameFileSystem && foreign then FileSystemBoundary
    else if TooDeep(cfg, depth) then MaxDepth
    else SymlinkLoop
  }

  /** What is yielded below a directory that is entered. */
  ghost function Inside(cfg: Config, path: Path, depth: nat, id: DirId, active: set<DirId>): seq<WalkItem>
    requires cfg.WellFormed() && cfg.Descendable(id, active)
    decreases if cfg.followLinks then |cfg.universe - active| else cfg.rank(id), if cfg.followLinks then 0 else 2, 0
  {
    match cfg.listing(id)
    case None => [Err(WalkError(path, depth, ReadDirectory))]
    case Some(entries) =>
      var inner := if cfg.followLinks then active + {id} else active;
      assert cfg.followLinks ==> cfg.universe - inner == (cfg.universe - active) - {id};
      Listed(cfg, path, depth, id, if cfg.sorter.Some? then cfg.sorter.value(entries) else entries, inner)
  }

  ghost function Listed(cfg: Config, path: Path, depth: nat, id: DirId, entries: seq<GraphEntry>, active: set<DirId>)
    : seq<WalkItem>
    requires cfg.WellFormed() && cfg.Lists(id, entries)
    decreases if cfg.followLinks then |cfg.universe - active| else cfg.rank(id), 1, |entries|
  {
    if entries == [] then []
    else ForEntry(cfg, path, depth, id, entries[0], active) + Listed(cfg, path, depth, id, entries[1..], active)
  }

  /** What is yielded for one entry of the directory `path`, with everything below it. */
  ghost function ForEntry(cfg: Config, path: Path, depth: nat, id: DirId, g: GraphEntry, active: set<DirId>): seq<WalkItem>
    requires cfg.WellFormed() && cfg.Lists(id, [g])
    decreases if cfg.followLinks then |cfg.universe - active| else cfg.rank(id), 1, 0
  {
    assert g in [g];
    match g
    case IteratorError => [Err(WalkError(path, depth + 1, ReadEntry))]
    case NoFileType(name) => [Err(WalkError(path + [name], depth + 1, ReadMetadata))]
    case GraphEntry(name, PlainFile(stdout, statable)) =>
      if !statable && cfg.collectMetadata then [Err(WalkError(path + [name], depth + 1, ReadMetadata))]
      else Yielded(cfg, WalkEntry(path + [name], depth + 1, true, false, false, stdout, None))
    case GraphEntry(name, PlainDirectory(inner, outside, foreign)) =>
      OfDirectory(cfg, path + [name], depth + 1, false, inner, outside, foreign, active)
    case GraphEntry(name, Link(target)) =>
      if !cfg.followLinks then Yielded(cfg, WalkEntry(path + [name], depth + 1, false, false, true, false, None))
      else
        match target
        case Dangling => [Err(WalkError(path + [name], depth + 1, ReadMetadata))]
        case ToFile(outside, stdout) =>
          Yielded(cfg, WalkEntry(path + [name], depth + 1, true, false, true, stdout,
                                 if outside then Some(PathEscape) else None))
        case ToDirectory(inner, outside, foreign) =>
          OfDirectory(cfg, path + [name], depth + 1, true, inner, outside, foreign, active)
  }

  /** What is yielded for a directory: its entry alone if it is not entered, otherwise its entry and what is in
      it, in the order asked for; a directory that is not wanted is not entered either. */
  ghost function OfDirectory(cfg: Config, path: Path, depth: nat, link: bool, id: DirId, outside: bool, foreign: bool,
                             active: set<DirId>): seq<WalkItem>
    requires cfg.WellFormed() && id in cfg.universe && (depth == 0 ==> active == {})
    decreases if cfg.followLinks then |cfg.universe - active| else cfg.rank(id), if cfg.followLinks then 0 else 2, 1
  {
    if !Open(cfg, depth, link, id, outside, foreign, active) then
      Yielded(cfg, WalkEntry(path, depth, false, true, link, false, Some(Reason(cfg, depth, link, outside, foreign))))
    else
      var entry := WalkEntry(path, depth, false, true, link, false, None);
      if !Wanted(cfg, entry) then []
      else if cfg.contentsFirst then Inside(cfg, path, depth, id, active) + Yielded(cfg, entry)
      else Yielded(cfg, entry) + Inside(cfg, path, depth, id, active)
  }

  /** The whole walk, from a root that has been resolved. */
  ghost function Everything(cfg: Config, path: Path, kind: Kind): seq<WalkItem>
    requires cfg.WellFormed() && cfg.RootKind(kind)
  {
    match kind
    case PlainFile(stdout, _) => Yielded(cfg, WalkEntry(path, 0, true, false, false, stdout, None))
    case PlainDirectory(id, outside, foreign) => OfDirectory(cfg, path, 0, false, id, outside, foreign, {})
  }

  // The walker's recursion shows exactly that -----------------------------------------------------

  lemma {:induction false} InsideShown(cfg: Config, path: Path, depth: nat, id: DirId, active: set<DirId>)
    requires cfg.WellFormed() && cfg.Descendable(id, active)
    ensures Shown(cfg.WalkDirectory(path, depth, id, active)) == Inside(cfg, path, depth, id, active)
    decreases if cfg.followLinks then |cfg.universe - active| else cfg.rank(id), if cfg.followLinks then 0 else 2, 0
  {
    if cfg.listing(id).Some? {
      var inner := cfg.Entered(id, active);
      assert cfg.followLinks ==> cfg.universe - inner == (cfg.universe - active) - {id};
      ListedShown(cfg, path, depth, id, cfg.Sorted(cfg.listing(id).value), inner);
    } else {
      OneShown(Some(Err(WalkError(path, depth, ReadDirectory))));
    }
  }

  lemma OneShown(event: Option<WalkItem>)
    ensures Shown([event]) == if event.Some? then [event.value] else []
  {
  }

  lemma {:induction false} ListedShown(cfg: Config, path: Path, depth: nat, id: DirId, entries: seq<GraphEntry>, active: set<DirId>)
    requires cfg.WellFormed() && cfg.Lists(id, entries)
    ensures Shown(cfg.WalkEntries(path, depth, id, entries, active)) == Listed(cfg, path, depth, id, entries, active)
    decreases if cfg.followLinks then |cfg.universe - active| else cfg.rank(id), 1, |entries|
  {
    if entries != [] {
      cfg.FirstEntry(path, depth, id, entries, active);
      ShownAppend(cfg.FirstEvents(path, depth, id, entries[0], active), cfg.WalkEntries(path, depth, id, entries[1..], active));
      ListedShown(cfg, path, depth, id, entries[1..], active);
      EntryShown(cfg, path, depth, id, entries[0], active);
    }
  }

  lemma {:induction false} EntryShown(cfg: Config, path: Path, depth: nat, id: DirId, g: GraphEntry, active: set<DirId>)
    requires cfg.WellFormed() && cfg.Lists(id, [g])
    ensures Shown(cfg.FirstEvents(path, depth, id, g, active)) == ForEntry(cfg, path, depth, id, g, active)
    decreases if cfg.followLinks then |cfg.universe - active| else cfg.rank(id), 1, 0
  {
    assert g in [g];
    match g
    case IteratorError => OneShown(cfg.FirstEvents(path, depth, id, g, active)[0]);
    case NoFileType(name) => OneShown(cfg.FirstEvents(path, depth, id, g, active)[0]);
    case GraphEntry(name, PlainDirectory(inner, outside, foreign)) =>
      DirectoryShown(cfg, path + [name], depth + 1, false, inner, outside, foreign, active);
    case GraphEntry(name, Link(ToDirectory(inner, outside, foreign))) =>
      if cfg.followLinks {
        DirectoryShown(cfg, path + [name], depth + 1, true, inner, outside, foreign, active);
      } else {
        AloneShown(cfg, cfg.Visit(path + [name], depth + 1, g.kind, active).value.entry, active);
      }
    case GraphEntry(name, kind) =>
      match cfg.Visit(path + [name], depth + 1, kind, active)
      case Err(error) => OneShown(Some(Err(error)));
      case Ok(visited) => AloneShown(cfg, visited.entry, active);
  }

  /** An entry that nothing is below. */
  lemma AloneShown(cfg: Config, entry: WalkEntry, active: set<DirId>)
    requires cfg.WellFormed() && (entry.isDirectory ==> entry.skip.Some?)
    ensures Shown(cfg.EntryEvents(Visited(entry, None), active)) == Yielded(cfg, entry)
  {
    OneShown(cfg.OnVisit(entry));
    assert cfg.EntryEvents(Visited(entry, None), active) == [cfg.OnVisit(entry)];
  }

  lemma {:induction false} DirectoryShown(cfg: Config, path: Path, depth: nat, link: bool, id: DirId, outside: bool, foreign: bool,
                                          active: set<DirId>)
    requires cfg.WellFormed() && id in cfg.universe && (depth == 0 ==> active == {})
    ensures var visited := cfg.DirectoryFacts(path, depth, link, id, outside, foreign, active);
      && (visited.descend.Some? ==> cfg.Descendable(visited.descend.value, active))
      && Shown(cfg.EntryEvents(visited, active)) == OfDirectory(cfg, path, depth, link, id, outside, foreign, active)
    decreases if cfg.followLinks then |cfg.universe - active| else cfg.rank(id), if cfg.followLinks then 0 else 2, 1
  {
    var visited := cfg.DirectoryFacts(path, depth, link, id, outside, foreign, active);
    if Open(cfg, depth, link, id, outside, foreign, active) {
      var entry := WalkEntry(path, depth, false, true, link, false, None);
      assert visited == Visited(entry, Some(id));
      InsideShown(cfg, path, depth, id, active);
      EnteredShown(cfg, entry, id, active);
    } else {
      AloneShown(cfg, visited.entry, active);
    }
  }

  /** An entered directory and what is below it, before or after it. */
  lemma EnteredShown(cfg: Config, entry: WalkEntry, id: DirId, active: set<DirId>)
    requires cfg.WellFormed() && cfg.Descendable(id, active) && entry.isDirectory && entry.skip.None?
    ensures
      var below := Shown(cfg.WalkDirectory(entry.path, entry.depth, id, active));
      Shown(cfg.EntryEvents(Visited(entry, Some(id)), active))
        == if !Wanted(cfg, entry) then []
           else if cfg.contentsFirst then below + Yielded(cfg, entry)
           else Yielded(cfg, entry) + below
  {
    var first, last := [cfg.OnVisit(entry)], cfg.OnLeave(entry, Some(id));
    var below := cfg.WalkBelow(entry, Some(id), active);
    ShownAppend(first + below, last);
    ShownAppend(first, below);
    OneShown(first[0]);
    if last != [] { OneShown(last[0]); }
  }

  /** What the walker shows of the whole walk is everything that is documented. */
  lemma EverythingShown(cfg: Config, path: Path, kind: Kind)
    requires cfg.WellFormed() && cfg.RootKind(kind)
    ensures Shown(cfg.WalkRoot(path, kind)) == Everything(cfg, path, kind)
  {
    match kind
    case PlainFile(stdout, _) => AloneShown(cfg, WalkEntry(path, 0, true, false, false, stdout, None), {});
    case PlainDirectory(id, outside, foreign) => DirectoryShown(cfg, path, 0, false, id, outside, foreign, {});
  }

  /** The walker's decision about a directory entry: it stays alone with the first of the four reasons, and it is
      entered exactly if there is none. */
  lemma SkippedExactly(cfg: Config, path: Path, depth: nat, id: DirId, name: string, link: bool,
                       inner: DirId, outside: bool, foreign: bool, active: set<DirId>)
    requires var kind := if link then Link(ToDirectory(inner, outside, foreign)) else PlainDirectory(inner, outside, foreign);
      cfg.WellFormed() && cfg.Lists(id, [GraphEntry(name, kind)])
    requires link ==> cfg.followLinks
    ensures
      var kind := if link then Link(ToDirectory(inner, outside, foreign)) else PlainDirectory(inner, outside, foreign);
      var escape := outside && (link || cfg.sameFileSystem || cfg.followLinks);
      var boundary := foreign && cfg.sameFileSystem;
      var deep := cfg.maxDepth.Some? && depth + 1 >= cfg.maxDepth.value;
      var loop := cfg.followLinks && inner in active;
      var visited := cfg.Visit(path + [name], depth + 1, kind, active);
      && visited.Ok? && visited.value.entry.(skip := None) == WalkEntry(path + [name], depth + 1, false, true, link, false, None)
      && (visited.value.entry.skip == Some(PathEscape) <==> escape)
      && (visited.value.entry.skip == Some(FileSystemBoundary) <==> boundary && !escape)
      && (visited.value.entry.skip == Some(MaxDepth) <==> deep && !boundary && !escape)
      && (visited.value.entry.skip == Some(SymlinkLoop) <==> loop && !deep && !boundary && !escape)
      && (escape || boundary || deep || loop ==>
            cfg.FirstEvents(path, depth, id, GraphEntry(name, kind), active) == [cfg.OnVisit(visited.value.entry)])
      && (!escape && !boundary && !deep && !loop ==> visited.value.descend == Some(inner))
  {
    var kind := if link then Link(ToDirectory(inner, outside, foreign)) else PlainDirectory(inner, outside, foreign);
    assert GraphEntry(name, kind) in [GraphEntry(name, kind)];
  }

  // Nothing is yielded below a directory that is not entered --------------------------------------

  /** `names` lead from entry to entry below directory `id`, through open and wanted directories only. */
  ghost predicate Trail(cfg: Config, path: Path, depth: nat, id: DirId, active: set<DirId>, names: seq<string>)
    decreases |names|
  {
    names == [] ||
    (cfg.listing(id).Some? && exists g | g in cfg.listing(id).value :: Leads(cfg, path, depth, active, g, names))
  }

  /** The entry starts the trail: it is its last step, or a directory that is entered. */
  ghost predicate Leads(cfg: Config, path: Path, depth: nat, active: set<DirId>, g: GraphEntry, names: seq<string>)
    requires names != []
    decreases |names|, 0
  {
    && !g.IteratorError? && g.name == names[0]
    && (|names| > 1 ==>
          g.GraphEntry? &&
          match g.kind
          case PlainDirectory(inner, outside, foreign) =>
            Open(cfg, depth + 1, false, inner, outside, foreign, active)
            && Trail(cfg, path + [g.name], depth + 1, inner, if cfg.followLinks then active + {inner} else active, names[1..])
          case Link(ToDirectory(inner, outside, foreign)) =>
            cfg.followLinks && Open(cfg, depth + 1, true, inner, outside, foreign, active)
            && Trail(cfg, path + [g.name], depth + 1, inner, active + {inner}, names[1..])
          case _ => false)
  }

  /** `path` lies below `base` at the end of a trail. */
  ghost predicate OnTrail(cfg: Config, base: Path, depth: nat, id: DirId, active: set<DirId>, path: Path) {
    exists names :: path == base + names && Trail(cfg, base, depth, id, active, names)
  }

  lemma OnEmptyTrail(cfg: Config, path: Path, depth: nat, id: DirId, active: set<DirId>)
    ensures OnTrail(cfg, path, depth, id, active, path)
  {
    assert path == path + [] && Trail(cfg, path, depth, id, active, []);
  }

  lemma OnLongerTrail(cfg: Config, path: Path, depth: nat, id: DirId, active: set<DirId>, g: GraphEntry, names: seq<string>)
    requires cfg.listing(id).Some? && g in cfg.listing(id).value
    requires !g.IteratorError? && Leads(cfg, path, depth, active, g, [g.name] + names)
    ensures OnTrail(cfg, path, depth, id, active, path + [g.name] + names)
  {
    assert path + [g.name] + names == path + ([g.name] + names);
    assert Trail(cfg, path, depth, id, active, [g.name] + names);
  }

  lemma {:induction false} InsideOnTrail(cfg: Config, path: Path, depth: nat, id: DirId, active: set<DirId>, item: WalkItem)
    requires cfg.WellFormed() && cfg.Descendable(id, active) && item in Inside(cfg, path, depth, id, active)
    ensures OnTrail(cfg, path, depth, id, if cfg.followLinks then active + {id} else active, ItemPath(item))
    decreases if cfg.followLinks then |cfg.universe - active| else cfg.rank(id), if cfg.followLinks then 0 else 2, 0
  {
    var inner := if cfg.followLinks then active + {id} else active;
    if cfg.listing(id).None? {
      OnEmptyTrail(cfg, path, depth, id, inner);
    } else {
      assert cfg.followLinks ==> cfg.universe - inner == (cfg.universe - active) - {id};
      var entries := cfg.listing(id).value;
      ListedOnTrail(cfg, path, depth, id, if cfg.sorter.Some? then cfg.sorter.value(entries) else entries, inner, item);
    }
  }

  lemma {:induction false} ListedOnTrail(
    cfg: Config, path: Path, depth: nat, id: DirId, entries: seq<GraphEntry>, active: set<DirId>, item: WalkItem)
    requires cfg.WellFormed() && cfg.Lists(id, entries) && item in Listed(cfg, path, depth, id, entries, active)
    ensures OnTrail(cfg, path, depth, id, active, ItemPath(item))
    decreases if cfg.followLinks then |cfg.universe - active| else cfg.rank(id), 1, |entries|
  {
    if item in ForEntry(cfg, path, depth, id, entries[0], active) {
      EntryOnTrail(cfg, path, depth, id, entries[0], active, item);
    } else {
      ListedOnTrail(cfg, path, depth, id, entries[1..], active, item);
    }
  }

  lemma {:induction false} EntryOnTrail(
    cfg: Config, path: Path, depth: nat, id: DirId, g: GraphEntry, active: set<DirId>, item: WalkItem)
    requires cfg.WellFormed() && cfg.Lists(id, [g]) && item in ForEntry(cfg, path, depth, id, g, active)
    ensures OnTrail(cfg, path, depth, id, active, ItemPath(item))
    decreases if cfg.followLinks then |cfg.universe - active| else cfg.rank(id), 1, 0
  {
    assert g in [g];
    match g
    case IteratorError => OnEmptyTrail(cfg, path, depth, id, active);
    case GraphEntry(name, PlainDirectory(inner, outside, foreign)) =>
      DirectoryOnTrail(cfg, path, depth, id, g, false, inner, outside, foreign, active, item);
    case GraphEntry(name, Link(ToDirectory(inner, outside, foreign))) =>
      if cfg.followLinks {
        DirectoryOnTrail(cfg, path, depth, id, g, true, inner, outside, foreign, active, item);
      } else {
        EndsTrail(cfg, path, depth, id, g, active, item);
      }
    case NoFileType(_) => EndsTrail(cfg, path, depth, id, g, active, item);
    case GraphEntry(_, _) => EndsTrail(cfg, path, depth, id, g, active, item);
  }

  lemma EndsTrail(cfg: Config, path: Path, depth: nat, id: DirId, g: GraphEntry, active: set<DirId>, item: WalkItem)
    requires cfg.Lists(id, [g]) && !g.IteratorError? && ItemPath(item) == path + [g.name]
    ensures OnTrail(cfg, path, depth, id, active, ItemPath(item))
  {
    assert g in [g];
    assert [g.name] + [] == [g.name] && path + [g.name] + [] == path + [g.name];
    OnLongerTrail(cfg, path, depth, id, active, g, []);
  }

  lemma {:induction false} DirectoryOnTrail(
    cfg: Config, path: Path, depth: nat, id: DirId, g: GraphEntry, link: bool, inner: DirId, outside: bool, foreign: bool,
    active: set<DirId>, item: WalkItem)
    requires cfg.WellFormed() && cfg.Lists(id, [g]) && g.GraphEntry? && inner in cfg.universe
    requires link ==> cfg.followLinks
    requires g.kind == if link then Link(ToDirectory(inner, outside, foreign)) else PlainDirectory(inner, outside, foreign)
    requires item in OfDirectory(cfg, path + [g.name], depth + 1, link, inner, outside, foreign, active)
    ensures OnTrail(cfg, path, depth, id, active, ItemPath(item))
    decreases if cfg.followLinks then |cfg.universe - active| else cfg.rank(inner), if cfg.followLinks then 0 else 2, 1
  {
    assert g in [g];
    var below := path + [g.name];
    if ItemPath(item) == below {
      EndsTrail(cfg, path, depth, id, g, active, item);
    } else {
      InsideOnTrail(cfg, below, depth + 1, inner, active, item);
      var entered := if cfg.followLinks then active + {inner} else active;
      var names :| ItemPath(item) == below + names && Trail(cfg, below, depth + 1, inner, entered, names);
      assert ([g.name] + names)[1..] == names;
      OnLongerTrail(cfg, path, depth, id, active, g, names);
    }
  }

  /** Nothing is yielded below an entry that is not entered: everything lies on a trail from the root.  In
      particular nothing below a link that leads out of the root is yielded. */
  lemma EverythingOnTrail(cfg: Config, path: Path, kind: Kind, item: WalkItem)
    requires cfg.WellFormed() && cfg.RootKind(kind) && item in Everything(cfg, path, kind)
    ensures kind.PlainFile? ==> ItemPath(item) == path
    ensures kind.PlainDirectory? ==>
      OnTrail(cfg, path, 0, kind.id, if cfg.followLinks then {kind.id} else {}, ItemPath(item))
  {
    if kind.PlainDirectory? {
      var active: set<DirId> := if cfg.followLinks then {kind.id} else {};
      assert {} + {kind.id} == {kind.id};
      if ItemPath(item) == path {
        OnEmptyTrail(cfg, path, 0, kind.id, active);
      } else {
        InsideOnTrail(cfg, path, 0, kind.id, {}, item);
      }
    }
  }
}
