/**
 The iterative walker: an explicit stack of directory frames, a bounded number of open handles,
 post-order directories on request and link-cycle detection by directory identity.  The reference
 is a recursive walk of the directory graph that knows nothing of frames or handles.
 */
module WalkGraph {
  import opened Wrappers
  import opened FileTree

  /** The identity of a directory; links may lead to the same directory many times. */
  type DirId = nat

  datatype LinkTarget =
    | Dangling
    | ToFile(outside: bool, stdout: bool)
    | ToDirectory(id: DirId, outside: bool, foreign: bool)

  /** `outside` paths leave the root, `foreign` directories lie on another file system. */
  datatype Kind =
    | PlainFile(stdout: bool, statable: bool)
    | PlainDirectory(id: DirId, outside: bool, foreign: bool)
    | Link(target: LinkTarget)

  datatype GraphEntry = IteratorError | NoFileType(name: string) | GraphEntry(name: string, kind: Kind)

  datatype Visited = Visited(entry: WalkEntry, descend: Option<DirId>)

  /** The directory graph and the traversal policy; `None` in `listing` is an unreadable directory. */
  datatype Config = Config(
    listing: DirId -> Option<seq<GraphEntry>>,
    universe: set<DirId>,
    rank: DirId -> nat,
    followLinks: bool,
    sameFileSystem: bool,
    collectMetadata: bool,
    minDepth: nat,
    maxDepth: Option<nat>,
    contentsFirst: bool,
    skipStdout: bool,
    sorter: Option<seq<GraphEntry> -> seq<GraphEntry>>,
    filter: Option<WalkEntry -> bool>)
  {
    /** Finitely many directories, and without links they form a finite tree. */
    ghost predicate WellFormed() {
      && (forall id, g | id in universe && listing(id).Some? && g in listing(id).value && g.GraphEntry? ::
            && (g.kind.PlainDirectory? ==> g.kind.id in universe && rank(g.kind.id) < rank(id))
            && (g.kind.Link? && g.kind.target.ToDirectory? ==> g.kind.target.id in universe))
      && (sorter.Some? ==> forall entries, g | g in sorter.value(entries) :: g in entries)
    }

    function DirectoryFacts(
      path: Path, depth: nat, link: bool, id: DirId, outside: bool, foreign: bool, active: set<DirId>): Visited
    {
      var checked := link || sameFileSystem || followLinks;
      var skip :=
        if checked && outside then Some(PathEscape)
        else if checked && sameFileSystem && foreign then Some(FileSystemBoundary)
        else if maxDepth.Some? && depth >= maxDepth.value then Some(MaxDepth)
        else if followLinks && id in active && depth != 0 then Some(SymlinkLoop)
        else None;
      Visited(WalkEntry(path, depth, false, true, link, false, skip), if skip.None? then Some(id) else None)
    }

    /** `Walker::visit` with `entry_facts`. */
    function Visit(path: Path, depth: nat, kind: Kind, active: set<DirId>): Result<Visited, WalkError> {
      match kind
      case PlainFile(stdout, statable) =>
        if collectMetadata && !statable then Err(WalkError(path, depth, ReadMetadata))
        else Ok(Visited(WalkEntry(path, depth, true, false, false, stdout, None), None))
      case PlainDirectory(id, outside, foreign) =>
        Ok(DirectoryFacts(path, depth, false, id, outside, foreign, active))
      case Link(target) =>
        if !followLinks then Ok(Visited(WalkEntry(path, depth, false, false, true, false, None), None))
        else
          match target
          case Dangling => Err(WalkError(path, depth, ReadMetadata))
          case ToFile(outside, stdout) =>
            Ok(Visited(WalkEntry(path, depth, true, false, true, stdout, if outside then Some(PathEscape) else None), None))
          case ToDirectory(id, outside, foreign) =>
            Ok(DirectoryFacts(path, depth, true, id, outside, foreign, active))
    }

    /** The entry is neither the redirected output nor refused by the filter. */
    predicate Accepts(entry: WalkEntry) {
      && !(skipStdout && entry.isFile && entry.stdout)
      && (filter.Some? ==> filter.value(entry))
    }

    predicate Late(entry: WalkEntry) { contentsFirst && entry.isDirectory && entry.skip.None? }

    function Sorted(entries: seq<GraphEntry>): seq<GraphEntry> {
      match sorter
      case None => entries
      case Some(sort) => sort(entries)
    }

    // The recursive walk.  Each visited entry is one event, `None` when nothing is shown for it;
    // a directory in contents-first order adds one more event when it is left.

    ghost predicate Descendable(id: DirId, active: set<DirId>) {
      id in universe && (followLinks ==> id !in active)
    }

    ghost predicate Lists(id: DirId, entries: seq<GraphEntry>) {
      id in universe && listing(id).Some? && forall g | g in entries :: g in listing(id).value
    }

    ghost function Entered(id: DirId, active: set<DirId>): set<DirId> {
      if followLinks then active + {id} else active
    }

    ghost function WalkDirectory(path: Path, depth: nat, id: DirId, active: set<DirId>): seq<Option<WalkItem>>
      requires WellFormed() && Descendable(id, active)
      decreases if followLinks then |universe - active| else rank(id), if followLinks then 0 else 2, 0
    {
      match listing(id)
      case None => [Some(Err(WalkError(path, depth, ReadDirectory)))]
      case Some(entries) =>
        assert followLinks ==> universe - Entered(id, active) == (universe - active) - {id};
        WalkEntries(path, depth, id, Sorted(entries), Entered(id, active))
    }

    ghost function WalkEntries(path: Path, depth: nat, id: DirId, entries: seq<GraphEntry>, active: set<DirId>)
      : seq<Option<WalkItem>>
      requires WellFormed() && Lists(id, entries)
      decreases if followLinks then |universe - active| else rank(id), 1, |entries|
    {
      if entries == [] then []
      else
        (match entries[0]
         case IteratorError => [Some(Err(WalkError(path, depth + 1, ReadEntry)))]
         case NoFileType(name) => [Some(Err(WalkError(path + [name], depth + 1, ReadMetadata)))]
         case GraphEntry(name, kind) =>
           assert entries[0] in entries;
           match Visit(path + [name], depth + 1, kind, active)
           case Err(error) => [Some(Err(error))]
           case Ok(Visited(entry, descend)) =>
             [OnVisit(entry)] + WalkBelow(entry, descend, active) + OnLeave(entry, descend))
        + WalkEntries(path, depth, id, entries[1..], active)
    }

    ghost function WalkBelow(entry: WalkEntry, descend: Option<DirId>, active: set<DirId>): seq<Option<WalkItem>>
      requires WellFormed() && (descend.Some? ==> Descendable(descend.value, active))
      decreases
        if followLinks then |universe - active| else if descend.Some? then rank(descend.value) else 0,
        if followLinks || descend.None? then 0 else 2, 1
    {
      if descend.Some? && Accepts(entry) then WalkDirectory(entry.path, entry.depth, descend.value, active) else []
    }

    /** What one directory entry produces, with everything below it. */
    ghost function FirstEvents(path: Path, depth: nat, id: DirId, g: GraphEntry, active: set<DirId>): seq<Option<WalkItem>>
      requires WellFormed() && Lists(id, [g])
    {
      assert g in [g];
      match g
      case IteratorError => [Some(Err(WalkError(path, depth + 1, ReadEntry)))]
      case NoFileType(name) => [Some(Err(WalkError(path + [name], depth + 1, ReadMetadata)))]
      case GraphEntry(name, kind) =>
        match Visit(path + [name], depth + 1, kind, active)
        case Err(error) => [Some(Err(error))]
        case Ok(visited) => EntryEvents(visited, active)
    }

    lemma FirstEntry(path: Path, depth: nat, id: DirId, entries: seq<GraphEntry>, active: set<DirId>)
      requires WellFormed() && Lists(id, entries) && entries != []
      ensures Lists(id, [entries[0]])
      ensures WalkEntries(path, depth, id, entries, active)
           == FirstEvents(path, depth, id, entries[0], active) + WalkEntries(path, depth, id, entries[1..], active)
    {
    }

    /** What is shown for one visited entry and everything below it. */
    ghost function EntryEvents(visited: Visited, active: set<DirId>): seq<Option<WalkItem>>
      requires WellFormed() && (visited.descend.Some? ==> Descendable(visited.descend.value, active))
    {
      [OnVisit(visited.entry)]
      + WalkBelow(visited.entry, visited.descend, active)
      + OnLeave(visited.entry, visited.descend)
    }

    /** The whole walk: the root entry, then what is below it. */
    ghost function WalkRoot(path: Path, kind: Kind): seq<Option<WalkItem>>
      requires WellFormed() && RootKind(kind)
    {
      EntryEvents(Visit(path, 0, kind, {}).value, {})
    }

    /** The root has been resolved: it is a file or a directory of the graph. */
    predicate RootKind(kind: Kind) {
      || (kind.PlainFile? && kind.statable)
      || (kind.PlainDirectory? && kind.id in universe && !kind.outside && !kind.foreign)
    }

    function OnVisit(entry: WalkEntry): Option<WalkItem> {
      if Accepts(entry) && !Late(entry) && entry.depth >= minDepth then Some(Ok(entry)) else None
    }

    function OnLeave(entry: WalkEntry, descend: Option<DirId>): seq<Option<WalkItem>> {
      if descend.Some? && Accepts(entry) && Late(entry) && entry.depth >= minDepth then [Some(Ok(entry))] else []
    }
  }

  /** The items a walk shows. */
  function Shown(events: seq<Option<WalkItem>>): seq<WalkItem> {
    if events == [] then []
    else (if events[0].Some? then [events[0].value] else []) + Shown(events[1..])
  }

  lemma {:induction false} ShownAppend(left: seq<Option<WalkItem>>, right: seq<Option<WalkItem>>)
    ensures Shown(left + right) == Shown(left) + Shown(right)
  {
    if left == [] {
      assert left + right == right;
    } else {
      assert (left + right)[0] == left[0] && (left + right)[1..] == left[1..] + right;
      ShownAppend(left[1..], right);
    }
  }
}
