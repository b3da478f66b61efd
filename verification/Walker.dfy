/** The iterative walker as the class it is, proved against the recursive walk of `WalkGraph`. */
module Walker {
  import opened Wrappers
  import opened FileTree
  import opened WalkGraph
  import WalkReference

  /** Entries still to come, read from an open handle or already buffered. */
  datatype DirectoryEntries = Open(left: seq<GraphEntry>) | Buffered(left: seq<GraphEntry>)

  datatype PendingDirectory = PendingDirectory(path: Path, depth: nat, id: DirId, post: Option<WalkEntry>)

  datatype DirectoryFrame = DirectoryFrame(
    path: Path, depth: nat, id: DirId, entries: DirectoryEntries, post: Option<WalkEntry>)

  ghost function StackIds(frames: seq<DirectoryFrame>): set<DirId> {
    set f | 0 <= f < |frames| :: frames[f].id
  }

  ghost predicate DistinctIds(frames: seq<DirectoryFrame>) {
    forall f, g | 0 <= f < g < |frames| :: frames[f].id != frames[g].id
  }

  /** The identities `active_directories` must hold. */
  ghost function Active(cfg: Config, frames: seq<DirectoryFrame>): set<DirId> {
    if cfg.followLinks then StackIds(frames) else {}
  }

  ghost function CountOpen(frames: seq<DirectoryFrame>): nat {
    if frames == [] then 0
    else (if frames[|frames| - 1].entries.Open? then 1 else 0) + CountOpen(frames[..|frames| - 1])
  }

  ghost predicate FramesOk(cfg: Config, frames: seq<DirectoryFrame>) {
    forall f | 0 <= f < |frames| :: cfg.Lists(frames[f].id, frames[f].entries.left)
  }

  ghost function Post(post: Option<WalkEntry>): seq<Option<WalkItem>> {
    if post.Some? then [Some(Ok(post.value))] else []
  }

  /** What the stack still produces, the innermost frame first. */
  ghost function FramesEvents(cfg: Config, frames: seq<DirectoryFrame>): seq<Option<WalkItem>>
    requires cfg.WellFormed() && FramesOk(cfg, frames)
  {
    if frames == [] then []
    else
      var top := frames[|frames| - 1];
      cfg.WalkEntries(top.path, top.depth, top.id, top.entries.left, Active(cfg, frames))
      + Post(top.post) + FramesEvents(cfg, frames[..|frames| - 1])
  }

  /** Two stacks that differ only in which handles are open. */
  ghost predicate SameStack(a: seq<DirectoryFrame>, b: seq<DirectoryFrame>) {
    && |a| == |b|
    && forall f | 0 <= f < |a| :: a[f] == b[f].(entries := a[f].entries) && a[f].entries.left == b[f].entries.left
  }

  lemma SameActive(cfg: Config, a: seq<DirectoryFrame>, b: seq<DirectoryFrame>)
    requires SameStack(a, b)
    ensures Active(cfg, a) == Active(cfg, b) && (DistinctIds(a) <==> DistinctIds(b))
  {
    assert forall f | 0 <= f < |a| :: a[f].id == b[f].id;
  }

  lemma {:induction false} SameEvents(cfg: Config, a: seq<DirectoryFrame>, b: seq<DirectoryFrame>)
    requires cfg.WellFormed() && FramesOk(cfg, a) && SameStack(a, b)
    ensures FramesOk(cfg, b) && FramesEvents(cfg, a) == FramesEvents(cfg, b)
  {
    SameActive(cfg, a, b);
    if a != [] {
      SameEvents(cfg, a[..|a| - 1], b[..|b| - 1]);
    }
  }

  lemma {:induction false} CountOpenUpdate(frames: seq<DirectoryFrame>, f: nat, frame: DirectoryFrame)
    requires f < |frames|
    ensures CountOpen(frames[f := frame]) + (if frames[f].entries.Open? then 1 else 0)
         == CountOpen(frames) + (if frame.entries.Open? then 1 else 0)
  {
    var last := |frames| - 1;
    if f == last {
      assert frames[f := frame][..last] == frames[..last];
    } else {
      assert frames[f := frame][..last] == frames[..last][f := frame];
      CountOpenUpdate(frames[..last], f, frame);
    }
  }

  lemma {:induction false} CountOpenZero(frames: seq<DirectoryFrame>)
    requires forall f | 0 <= f < |frames| :: !frames[f].entries.Open?
    ensures CountOpen(frames) == 0
  {
    if frames != [] { CountOpenZero(frames[..|frames| - 1]); }
  }

  class Walker {
    const cfg: Config
    const maxOpen: nat
    const abortOnError: bool
    const rootPath: Path
    const rootKind: Kind
    const plainEntries: bool

    var frames: seq<DirectoryFrame>
    var openHandles: nat
    var yieldRoot: bool
    var pending: Option<PendingDirectory>
    var skipPending: bool
    var activeDirectories: set<DirId>
    var finished: bool
    var deferred: Option<WalkEntry>

    ghost predicate Valid()
      reads this
    {
      && cfg.WellFormed() && 1 <= maxOpen && cfg.RootKind(rootKind)
      && (plainEntries ==> Plain(cfg))
      && openHandles == CountOpen(frames) <= maxOpen
      && activeDirectories == Active(cfg, frames)
      && (cfg.followLinks ==> DistinctIds(frames))
      && FramesOk(cfg, frames)
      && (pending.Some? && !skipPending ==> cfg.Descendable(pending.value.id, activeDirectories))
      && (deferred.Some? ==> pending.None? && !yieldRoot)
      && (yieldRoot ==> frames == [] && pending.None?)
      && (skipPending ==> pending.Some?)
    }

    ghost function PendingEvents(): seq<Option<WalkItem>>
      requires Valid()
      reads this
    {
      if pending.None? || skipPending then []
      else
        cfg.WalkDirectory(pending.value.path, pending.value.depth, pending.value.id, activeDirectories)
        + Post(pending.value.post)
    }

    /** Everything still to happen. */
    ghost function Rest(): seq<Option<WalkItem>>
      requires Valid()
      reads this
    {
      if finished then []
      else
        Post(deferred)
        + ((if yieldRoot then cfg.WalkRoot(rootPath, rootKind) else [])
           + (PendingEvents() + FramesEvents(cfg, frames)))
    }

    lemma RestRunning()
      requires Valid() && !finished && deferred.None? && !yieldRoot
      ensures Rest() == PendingEvents() + FramesEvents(cfg, frames)
    {
    }

    lemma RestFinished()
      requires Valid() && finished
      ensures Rest() == []
    {
    }

    lemma RestAtRoot()
      requires Valid() && !finished && deferred.None? && yieldRoot
      ensures frames == [] && FramesEvents(cfg, frames) == []
      ensures var visited := cfg.Visit(rootPath, 0, rootKind, activeDirectories).value;
        && cfg.Visit(rootPath, 0, rootKind, activeDirectories).Ok? && Fresh(visited) && visited.entry.depth == 0
        && Rest() == cfg.EntryEvents(visited, activeDirectories) + FramesEvents(cfg, frames)
    {
      assert activeDirectories == {};
    }

    /** Every still expected item, in order. */
    ghost function ShownRest(): seq<WalkItem>
      requires Valid()
      reads this
    {
      Shown(Rest())
    }

    constructor (cfg: Config, maxOpen: nat, abortOnError: bool, rootPath: Path, rootKind: Kind)
      requires cfg.WellFormed() && cfg.RootKind(rootKind)
      ensures Valid() && fresh(this)
      ensures this.cfg == cfg && this.abortOnError == abortOnError
      ensures ShownRest() == Shown(cfg.WalkRoot(rootPath, rootKind))
    {
      this.cfg, this.abortOnError, this.rootPath, this.rootKind := cfg, abortOnError, rootPath, rootKind;
      // `WalkOptions::normalized` keeps at least one handle.
      this.maxOpen := if maxOpen == 0 then 1 else maxOpen;
      plainEntries := Plain(cfg);
      frames, openHandles, yieldRoot, pending, skipPending := [], 0, true, None, false;
      activeDirectories, finished, deferred := {}, false, None;
      new;
      assert Rest() == cfg.WalkRoot(rootPath, rootKind);
    }

    /** Closes the oldest open handle by reading the rest of its directory. */
    method BufferOldest()
      requires Valid() && openHandles >= maxOpen
      modifies this`frames, this`openHandles
      ensures Valid() && openHandles == old(openHandles) - 1
      ensures SameStack(old(frames), frames)
      ensures FramesEvents(cfg, frames) == FramesEvents(cfg, old(frames))
    {
      hide FramesEvents, FramesOk, Active, CountOpen, Config.WellFormed, Plain, DistinctIds;
      var index := 0;
      while index < |frames| && !frames[index].entries.Open?
        invariant 0 <= index <= |frames|
        invariant forall f | 0 <= f < index :: !frames[f].entries.Open?
      {
        index := index + 1;
      }
      if index == |frames| {
        CountOpenZero(frames);
        return;
      }
      var closed := frames[index].(entries := Buffered(frames[index].entries.left));
      CountOpenUpdate(frames, index, closed);
      SameActive(cfg, frames, frames[index := closed]);
      SameEvents(cfg, frames, frames[index := closed]);
      frames := frames[index := closed];
      openHandles := openHandles - 1;
    }

    /** Opens the pending directory and puts its frame on the stack. */
    method OpenDirectory(directory: PendingDirectory, entries: seq<GraphEntry>)
      requires Valid() && !finished && !yieldRoot && pending.None? && deferred.None?
      requires cfg.Descendable(directory.id, activeDirectories) && cfg.listing(directory.id) == Some(entries)
      requires openHandles < maxOpen
      modifies this`frames, this`openHandles, this`activeDirectories
      ensures Valid() && |frames| == |old(frames)| + 1
      ensures FramesEvents(cfg, frames)
           == cfg.WalkDirectory(directory.path, directory.depth, directory.id, old(activeDirectories))
              + Post(directory.post) + FramesEvents(cfg, old(frames))
    {
      var isOpen := cfg.sorter.None?;
      var stream := if isOpen then Open(entries) else Buffered(cfg.Sorted(entries));
      var frame := DirectoryFrame(directory.path, directory.depth, directory.id, stream, directory.post);
      PushActive(cfg, frames, frame);
      if cfg.followLinks {
        activeDirectories := activeDirectories + {directory.id};
      }
      ghost var below := frames;
      PushEvents(cfg, frames, frame, entries);
      hide FramesEvents, FramesOk, Active, DistinctIds, CountOpen, Config.WellFormed, Config.WalkDirectory;
      frames := frames + [frame];
      openHandles := openHandles + (if isOpen then 1 else 0);
    }

    /** Closes a handle if the bound is reached, then reads the directory. */
    method StartDirectory(directory: PendingDirectory) returns (error: Option<WalkError>)
      requires Valid() && !finished && !yieldRoot && deferred.None? && pending.None?
      requires cfg.Descendable(directory.id, activeDirectories)
      modifies this`frames, this`openHandles, this`activeDirectories, this`deferred
      ensures Valid()
      ensures error.None? ==>
        && deferred.None?
        && FramesEvents(cfg, frames)
           == cfg.WalkDirectory(directory.path, directory.depth, directory.id, old(activeDirectories))
              + Post(directory.post) + FramesEvents(cfg, old(frames))
      ensures error.Some? ==>
        && deferred == directory.post
        && cfg.WalkDirectory(directory.path, directory.depth, directory.id, old(activeDirectories)) == [Some(Err(error.value))]
        && FramesEvents(cfg, frames) == FramesEvents(cfg, old(frames))
    {
      hide FramesEvents, CountOpen, DistinctIds;
      error := None;
      if openHandles >= maxOpen {
        BufferOldest();
      }
      match cfg.listing(directory.id)
      case Some(entries) =>
        OpenDirectory(directory, entries);
      case None =>
        deferred := directory.post;
        error := Some(WalkError(directory.path, directory.depth, ReadDirectory));
    }

    /** `schedule_pending_directory`. */
    method SchedulePending() returns (error: Option<WalkError>)
      requires Valid() && !finished && !yieldRoot && deferred.None?
      modifies this`frames, this`openHandles, this`activeDirectories, this`pending, this`skipPending, this`deferred
      ensures Valid() && pending.None?
      ensures error.None? ==> Rest() == old(Rest()) && deferred.None? && (old(pending.None?) ==> frames == old(frames))
      ensures error.Some? ==> old(Rest()) == [Some(Err(error.value))] + Rest()
    {
      hide FramesEvents, CountOpen, DistinctIds, Active, FramesOk, Plain, Config.WalkDirectory, Config.WellFormed;
      error := None;
      if pending.None? {
        return;
      }
      var directory := pending.value;
      var skipped := skipPending;
      pending, skipPending := None, false;
      if skipped {
        return;
      }
      error := StartDirectory(directory);
      Regroup(old(cfg.WalkDirectory(directory.path, directory.depth, directory.id, activeDirectories)),
              Post(directory.post), FramesEvents(cfg, frames));
    }

    /** `yield_error`: under `Abort` the walk ends with this error. */
    method YieldError(error: WalkError) returns (item: WalkItem)
      requires Valid() && pending.None?
      modifies this`finished, this`frames, this`openHandles, this`pending, this`activeDirectories
      ensures Valid() && item == Err(error)
      ensures Rest() == if abortOnError then [] else old(Rest())
    {
      if abortOnError {
        finished := true;
        frames, openHandles, pending, activeDirectories := [], 0, None, {};
      }
      item := Err(error);
    }

    /** Prevents descent into the directory just visited: its events, and only those, leave the walk. */
    method SkipCurrentDir()
      requires Valid()
      modifies this`skipPending
      ensures Valid() && skipPending == pending.Some? && PendingEvents() == []
    {
      if pending.Some? {
        skipPending := true;
      }
    }

    ghost predicate Fresh(visited: Visited)
      reads this
    {
      && (visited.descend.Some? <==> visited.entry.isDirectory && visited.entry.skip.None?)
      && (visited.descend.Some? ==> cfg.Descendable(visited.descend.value, activeDirectories))
      && (visited.entry.isDirectory ==> !visited.entry.isFile)
    }

    /** Remembers the directory behind a visited entry and decides what to show now
        (`visit_plain`, `visit` and `prepare_entry`). */
    method Prepare(visited: Visited) returns (shown: Option<WalkEntry>)
      requires Valid() && !finished && pending.None? && deferred.None? && !yieldRoot && Fresh(visited)
      requires visited.entry.depth == 0 ==> frames == []
      modifies this`pending, this`skipPending, this`finished
      ensures Valid()
      ensures cfg.OnVisit(visited.entry) == if shown.Some? then Some(Ok(shown.value)) else None
      ensures PendingEvents()
           == cfg.WalkBelow(visited.entry, visited.descend, activeDirectories) + cfg.OnLeave(visited.entry, visited.descend)
      ensures finished ==> frames == [] && PendingEvents() == []
    {
      var entry := visited.entry;
      if visited.descend.Some? {
        pending := Some(PendingDirectory(entry.path, entry.depth, visited.descend.value, None));
      }
      if plainEntries {
        return Some(entry);
      }
      if cfg.skipStdout && entry.isFile && entry.stdout {
        return None;
      }
      if cfg.filter.Some? && !cfg.filter.value(entry) {
        if entry.isDirectory {
          SkipCurrentDir();
          if entry.depth == 0 {
            finished := true;
          }
        }
        return None;
      }
      if cfg.contentsFirst && entry.isDirectory && entry.skip.None? {
        if entry.depth >= cfg.minDepth && pending.Some? {
          pending := Some(pending.value.(post := Some(entry)));
        }
        return None;
      }
      shown := if entry.depth >= cfg.minDepth then Some(entry) else None;
    }

    /** Leaves the exhausted innermost directory. */
    method PopFrame() returns (post: Option<WalkEntry>)
      requires Valid() && frames != [] && frames[|frames| - 1].entries.left == [] && pending.None? && !yieldRoot
      modifies this`frames, this`openHandles, this`activeDirectories
      ensures Valid() && frames == old(frames)[..|old(frames)| - 1]
      ensures FramesEvents(cfg, old(frames)) == Post(post) + FramesEvents(cfg, frames)
    {
      hide FramesEvents, Active, DistinctIds;
      var top := frames[|frames| - 1];
      PopActive(cfg, frames);
      PopEvents(cfg, frames);
      frames := frames[..|frames| - 1];
      if top.entries.Open? {
        openHandles := openHandles - 1;
      }
      if cfg.followLinks {
        activeDirectories := activeDirectories - {top.id};
      }
      post := top.post;
    }

    /** Takes the next entry of the innermost directory. */
    method TakeEntry() returns (top: DirectoryFrame, taken: GraphEntry)
      requires Valid() && frames != [] && frames[|frames| - 1].entries.left != [] && pending.None? && !yieldRoot
      modifies this`frames
      ensures Valid() && |frames| == |old(frames)|
      ensures top == old(frames[|frames| - 1]) && taken == top.entries.left[0] && cfg.Lists(top.id, [taken])
      ensures FramesEvents(cfg, old(frames))
           == cfg.FirstEvents(top.path, top.depth, top.id, taken, activeDirectories) + FramesEvents(cfg, frames)
    {
      hide FramesEvents, Active, DistinctIds, CountOpen;
      AdvanceEvents(cfg, frames);
      top := frames[|frames| - 1];
      taken := top.entries.left[0];
      frames := Advanced(frames);
    }

    /** Shows a visited entry; what is below it and its late appearance stay to come. */
    method ShowEntry(visited: Visited) returns (item: Option<WalkItem>)
      requires Valid() && !finished && pending.None? && deferred.None? && !yieldRoot && Fresh(visited)
      requires visited.entry.depth == 0 <==> frames == []
      modifies this`pending, this`skipPending, this`finished
      ensures Valid() && (item.Some? ==> item.value.Ok?)
      ensures cfg.EntryEvents(visited, activeDirectories) + FramesEvents(cfg, frames) == [item] + Rest()
    {
      hide FramesEvents, Active, CountOpen, DistinctIds, FramesOk, Config.OnVisit, Config.OnLeave, Config.WalkBelow;
      var shown := Prepare(visited);
      item := if shown.Some? then Some(Ok(shown.value)) else None;
      RegroupEntry(cfg.OnVisit(visited.entry), cfg.WalkBelow(visited.entry, visited.descend, activeDirectories),
                   cfg.OnLeave(visited.entry, visited.descend), FramesEvents(cfg, frames));
      if finished { NoFrames(cfg); RestFinished(); } else { RestRunning(); }
    }

    /** `take_root_entry`: the root is visited like any other entry, at depth 0. */
    method TakeRoot() returns (item: Option<WalkItem>)
      requires Valid() && !finished && yieldRoot && deferred.None?
      modifies this`yieldRoot, this`pending, this`skipPending, this`finished
      ensures Valid() && !yieldRoot && deferred.None? && (item.Some? ==> item.value.Ok?)
      ensures old(Rest()) == [item] + Rest()
    {
      hide FramesEvents, Rest, Active, CountOpen, DistinctIds, FramesOk;
      RestAtRoot();
      var visited := cfg.Visit(rootPath, 0, rootKind, activeDirectories).value;
      yieldRoot := false;
      item := ShowEntry(visited);
    }

    /** Visits the next entry of the innermost directory. */
    method VisitNext() returns (item: Option<WalkItem>)
      requires Valid() && !finished && deferred.None? && !yieldRoot && pending.None?
      requires frames != [] && frames[|frames| - 1].entries.left != []
      modifies this`frames, this`openHandles, this`pending, this`skipPending, this`finished, this`activeDirectories
      ensures Valid() && !yieldRoot && deferred.None?
      ensures Ends(item) ==> Rest() == [] && old(Rest()) != [] && old(Rest())[0] == item
      ensures !Ends(item) ==> old(Rest()) == [item] + Rest()
    {
      hide FramesEvents, Rest, Active, CountOpen, DistinctIds, FramesOk, Config.OnVisit, Config.OnLeave, Config.WalkBelow;
      RestRunning();
      var top, taken := TakeEntry();
      RestRunning();
      var visited := VisitTaken(top, taken);
      match visited
      case Ok(visited) =>
        item := ShowEntry(visited);
      case Err(error) =>
        var e := YieldError(error);
        item := Some(e);
    }

    /** The file type and the facts of a directory entry, or the error of looking at it. */
    method VisitTaken(top: DirectoryFrame, taken: GraphEntry) returns (visited: Result<Visited, WalkError>)
      requires Valid() && cfg.Lists(top.id, [taken])
      ensures visited.Ok? ==> Fresh(visited.value) && visited.value.entry.depth == top.depth + 1
      ensures cfg.FirstEvents(top.path, top.depth, top.id, taken, activeDirectories)
           == match visited case Ok(v) => cfg.EntryEvents(v, activeDirectories) case Err(error) => [Some(Err(error))]
    {
      hide FramesEvents, CountOpen, DistinctIds, Config.EntryEvents;
      assert taken in [taken];
      match taken
      case IteratorError => visited := Err(WalkError(top.path, top.depth + 1, ReadEntry));
      case NoFileType(name) => visited := Err(WalkError(top.path + [name], top.depth + 1, ReadMetadata));
      case GraphEntry(name, kind) => visited := cfg.Visit(top.path + [name], top.depth + 1, kind, activeDirectories);
    }

    /** An error that ends the walk. */
    predicate Ends(item: Option<WalkItem>) { abortOnError && item.Some? && item.value.Err? }

    /** `Iterator::next`. */
    method Next() returns (item: Option<WalkItem>)
      requires Valid()
      modifies this
      ensures Valid()
      ensures item.None? ==> old(ShownRest()) == [] && ShownRest() == []
      ensures item.Some? ==>
        && old(ShownRest()) != [] && item.value == old(ShownRest())[0]
        && ShownRest() == if Ends(item) then [] else old(ShownRest())[1..]
    {
      hide FramesEvents, Rest, Active, CountOpen, DistinctIds;
      while true
        invariant Valid()
        invariant ShownRest() == old(ShownRest())
        decreases |Rest()|, if pending.Some? then 1 else 0, |frames|
      {
        if finished {
          RestFinished();
          return None;
        }
        if deferred.Some? {
          item := TakeDeferred();
          return;
        }
        if yieldRoot {
          item := TakeRoot();
          ShownCons(item, Rest());
          if item.Some? {
            return;
          }
          continue;
        }
        var error := SchedulePending();
        if error.Some? {
          ShownCons(Some(Err(error.value)), Rest());
          var e := YieldError(error.value);
          return Some(e);
        }
        if frames == [] {
          NothingLeft();
          return None;
        }
        if frames[|frames| - 1].entries.left == [] {
          item := LeaveFrame();
          if item.Some? {
            return;
          }
          continue;
        }
        ghost var before := Rest();
        item := VisitNext();
        ShownCons(item, before[1..]);
        assert before == [item] + before[1..];
        if item.Some? {
          return;
        }
      }
    }

    method TakeDeferred() returns (item: Option<WalkItem>)
      requires Valid() && !finished && deferred.Some?
      modifies this`deferred
      ensures Valid() && item.Some? && item.value.Ok?
      ensures old(ShownRest()) == [item.value] + ShownRest()
    {
      hide FramesEvents, Active, CountOpen, DistinctIds, FramesOk, Shown;
      item := Some(Ok(deferred.value));
      deferred := None;
      ghost var later := PendingEvents() + FramesEvents(cfg, frames);
      RegroupDeferred(item, later);
      assert Rest() == [] + ([] + later) && old(Rest()) == [item] + ([] + later);
      ShownCons(item, Rest());
    }

    /** Leaves a directory and yields its postponed entry, if it has one. */
    method LeaveFrame() returns (item: Option<WalkItem>)
      requires Valid() && !finished && deferred.None? && !yieldRoot && pending.None?
      requires frames != [] && frames[|frames| - 1].entries.left == []
      modifies this`frames, this`openHandles, this`activeDirectories
      ensures Valid() && |frames| < |old(frames)| && |Rest()| <= old(|Rest()|)
      ensures item.Some? ==> item.value.Ok?
      ensures old(ShownRest()) == (if item.Some? then [item.value] else []) + ShownRest()
    {
      hide FramesEvents, Rest, Active, CountOpen, DistinctIds, FramesOk;
      RestRunning();
      var post := PopFrame();
      RestRunning();
      assert Rest() == FramesEvents(cfg, frames);
      assert old(Rest()) == Post(post) + Rest();
      if post.Some? {
        item := Some(Ok(post.value));
        ShownCons(item, Rest());
      } else {
        item := None;
        assert old(Rest()) == Rest();
      }
    }

    lemma NothingLeft()
      requires Valid() && !finished && deferred.None? && !yieldRoot && pending.None? && frames == []
      ensures ShownRest() == []
    {
    }
  }

  lemma ShownCons(event: Option<WalkItem>, rest: seq<Option<WalkItem>>)
    ensures Shown([event] + rest) == (if event.Some? then [event.value] else []) + Shown(rest)
  {
    assert ([event] + rest)[1..] == rest;
  }

  /** What a consumer sees of the expected items. */
  ghost function Seen(abortOnError: bool, items: seq<WalkItem>): seq<WalkItem> {
    if abortOnError then UpToError(items) else items
  }

  lemma SeenCons(abortOnError: bool, items: seq<WalkItem>, rest: seq<WalkItem>)
    requires items != [] && rest == if abortOnError && items[0].Err? then [] else items[1..]
    ensures Seen(abortOnError, items) == [items[0]] + Seen(abortOnError, rest) && |rest| < |items|
  {
  }

  /** Drains the walker: the result is everything that is documented, whatever the bound on open handles; under
      `Abort` up to the first error. */
  method Collect(cfg: Config, maxOpen: nat, abortOnError: bool, rootPath: Path, rootKind: Kind) returns (items: seq<WalkItem>)
    requires cfg.WellFormed() && cfg.RootKind(rootKind)
    ensures items == if abortOnError then UpToError(WalkReference.Everything(cfg, rootPath, rootKind))
                     else WalkReference.Everything(cfg, rootPath, rootKind)
    ensures forall item | item in items :: OnTrails(cfg, rootPath, rootKind, ItemPath(item))
  {
    hide Seen, Shown, Config.WalkRoot, Walker.Valid, Walker.ShownRest, OnTrails, UpToError, WalkReference.Everything;
    hide Config.WellFormed, Config.RootKind;
    SeenIsEverything(cfg, abortOnError, rootPath, rootKind);
    var walker := new Walker(cfg, maxOpen, abortOnError, rootPath, rootKind);
    items := [];
    ghost var full := Seen(abortOnError, Shown(cfg.WalkRoot(rootPath, rootKind)));
    ghost var rest := walker.ShownRest();
    while true
      invariant fresh(walker) && walker.Valid() && walker.abortOnError == abortOnError
      invariant rest == walker.ShownRest() && items + Seen(abortOnError, rest) == full
      decreases |rest|
    {
      var item := walker.Next();
      if item.None? {
        assert Seen(abortOnError, []) == [] by { SeenNothing(abortOnError); }
        return;
      }
      SeenCons(abortOnError, rest, walker.ShownRest());
      items := items + [item.value];
      rest := walker.ShownRest();
    }
  }

  /** The path is the root's, or names lead to it from the root through entered directories only. */
  ghost predicate OnTrails(cfg: Config, rootPath: Path, rootKind: Kind, path: Path) {
    match rootKind
    case PlainDirectory(id, _, _) =>
      WalkReference.OnTrail(cfg, rootPath, 0, id, if cfg.followLinks then {id} else {}, path)
    case _ => path == rootPath
  }

  lemma SeenIsEverything(cfg: Config, abortOnError: bool, rootPath: Path, rootKind: Kind)
    requires cfg.WellFormed() && cfg.RootKind(rootKind)
    ensures
      var walk := WalkReference.Everything(cfg, rootPath, rootKind);
      var seen := if abortOnError then UpToError(walk) else walk;
      && Seen(abortOnError, Shown(cfg.WalkRoot(rootPath, rootKind))) == seen
      && forall item | item in seen :: OnTrails(cfg, rootPath, rootKind, ItemPath(item))
  {
    WalkReference.EverythingShown(cfg, rootPath, rootKind);
    var walk := WalkReference.Everything(cfg, rootPath, rootKind);
    if abortOnError { UpToErrorWithin(walk); }
    forall item | item in walk ensures OnTrails(cfg, rootPath, rootKind, ItemPath(item)) {
      WalkReference.EverythingOnTrail(cfg, rootPath, rootKind, item);
    }
  }

  lemma {:induction false} UpToErrorWithin(items: seq<WalkItem>)
    ensures forall item | item in UpToError(items) :: item in items
  {
    if items != [] { UpToErrorWithin(items[1..]); }
  }

  lemma SeenNothing(abortOnError: bool)
    ensures Seen(abortOnError, []) == []
  {
  }

  lemma NoFrames(cfg: Config)
    requires cfg.WellFormed()
    ensures FramesOk(cfg, []) && FramesEvents(cfg, []) == []
  {
  }

  lemma RegroupDeferred<T>(x: T, later: seq<T>)
    ensures [x] + ([] + later) == [x] + ([] + ([] + later))
  {
  }

  lemma RegroupEntry<T>(x: T, b: seq<T>, c: seq<T>, d: seq<T>)
    ensures ([x] + b + c) + d == [x] + ((b + c) + d)
  {
  }

  /** The stack after the innermost iterator has moved on. */
  function Advanced(frames: seq<DirectoryFrame>): seq<DirectoryFrame>
    requires frames != [] && frames[|frames| - 1].entries.left != []
  {
    var top := frames[|frames| - 1];
    var rest := if top.entries.Open? then Open(top.entries.left[1..]) else Buffered(top.entries.left[1..]);
    frames[|frames| - 1 := top.(entries := rest)]
  }

  lemma AdvanceOpen(cfg: Config, frames: seq<DirectoryFrame>)
    requires frames != [] && frames[|frames| - 1].entries.left != []
    ensures CountOpen(Advanced(frames)) == CountOpen(frames)
    ensures Active(cfg, Advanced(frames)) == Active(cfg, frames)
    ensures DistinctIds(Advanced(frames)) <==> DistinctIds(frames)
  {
    hide CountOpen, DistinctIds, Active;
    var last := |frames| - 1;
    CountOpenUpdate(frames, last, Advanced(frames)[last]);
    SameIds(cfg, frames, Advanced(frames));
  }

  lemma AdvanceOk(cfg: Config, frames: seq<DirectoryFrame>)
    requires cfg.WellFormed() && FramesOk(cfg, frames) && frames != [] && frames[|frames| - 1].entries.left != []
    ensures FramesOk(cfg, Advanced(frames)) && FramesOk(cfg, frames[..|frames| - 1])
    ensures cfg.Lists(frames[|frames| - 1].id, frames[|frames| - 1].entries.left)
  {
    var last := |frames| - 1;
    cfg.FirstEntry(frames[last].path, frames[last].depth, frames[last].id, frames[last].entries.left, {});
  }

  lemma AdvanceEvents(cfg: Config, frames: seq<DirectoryFrame>)
    requires cfg.WellFormed() && FramesOk(cfg, frames) && frames != [] && frames[|frames| - 1].entries.left != []
    ensures FramesOk(cfg, Advanced(frames)) && CountOpen(Advanced(frames)) == CountOpen(frames)
    ensures Active(cfg, Advanced(frames)) == Active(cfg, frames)
    ensures DistinctIds(Advanced(frames)) <==> DistinctIds(frames)
    ensures var top := frames[|frames| - 1];
      && cfg.Lists(top.id, [top.entries.left[0]])
      && FramesEvents(cfg, frames)
         == cfg.FirstEvents(top.path, top.depth, top.id, top.entries.left[0], Active(cfg, frames))
            + FramesEvents(cfg, Advanced(frames))
  {
    hide CountOpen, DistinctIds, Active, Config.FirstEvents, Config.WalkEntries, Config.WellFormed, FramesOk, Config.Lists;
    AdvanceOpen(cfg, frames);
    AdvanceOk(cfg, frames);
    var last := |frames| - 1;
    var top := frames[last];
    var advanced := Advanced(frames);
    cfg.FirstEntry(top.path, top.depth, top.id, top.entries.left, Active(cfg, frames));
    assert advanced[..last] == frames[..last];
    Associate(cfg.FirstEvents(top.path, top.depth, top.id, top.entries.left[0], Active(cfg, frames)),
              cfg.WalkEntries(top.path, top.depth, top.id, top.entries.left[1..], Active(cfg, frames)),
              Post(top.post), FramesEvents(cfg, frames[..last]));
  }

  lemma Associate<T>(a: seq<T>, b: seq<T>, c: seq<T>, d: seq<T>)
    ensures (a + b) + c + d == a + (b + c + d)
  {
  }

  lemma PopEvents(cfg: Config, frames: seq<DirectoryFrame>)
    requires cfg.WellFormed() && FramesOk(cfg, frames) && frames != [] && frames[|frames| - 1].entries.left == []
    ensures FramesOk(cfg, frames[..|frames| - 1])
    ensures FramesEvents(cfg, frames) == Post(frames[|frames| - 1].post) + FramesEvents(cfg, frames[..|frames| - 1])
  {
    var top := frames[|frames| - 1];
    assert cfg.WalkEntries(top.path, top.depth, top.id, top.entries.left, Active(cfg, frames)) == [];
    assert [] + Post(top.post) == Post(top.post);
  }

  lemma SameIds(cfg: Config, a: seq<DirectoryFrame>, b: seq<DirectoryFrame>)
    requires |a| == |b| && forall f | 0 <= f < |a| :: a[f].id == b[f].id
    ensures Active(cfg, a) == Active(cfg, b) && (DistinctIds(a) <==> DistinctIds(b))
  {
  }

  lemma PopActive(cfg: Config, frames: seq<DirectoryFrame>)
    requires frames != [] && (cfg.followLinks ==> DistinctIds(frames))
    ensures var below := frames[..|frames| - 1]; var top := frames[|frames| - 1];
      && (cfg.followLinks ==> DistinctIds(below))
      && (!cfg.followLinks ==> Active(cfg, frames) == {})
      && Active(cfg, below) == if cfg.followLinks then Active(cfg, frames) - {top.id} else {}
  {
    var below := frames[..|frames| - 1];
    assert frames == below + [frames[|frames| - 1]];
    assert cfg.followLinks ==> frames[|frames| - 1].id !in StackIds(below);
    PushActive(cfg, below, frames[|frames| - 1]);
  }

  lemma Regroup<T>(a: seq<T>, b: seq<T>, c: seq<T>)
    ensures [] + ([] + ((a + b) + c)) == a + (b + ([] + ([] + c)))
    ensures [] + ([] + ((a + b) + c)) == [] + ([] + ([] + (a + b + c)))
  {
  }

  /** An opened directory puts its whole walk in front of what the stack still produces. */
  lemma PushEvents(cfg: Config, frames: seq<DirectoryFrame>, frame: DirectoryFrame, entries: seq<GraphEntry>)
    requires cfg.WellFormed() && FramesOk(cfg, frames) && (cfg.followLinks ==> DistinctIds(frames))
    requires cfg.Descendable(frame.id, Active(cfg, frames)) && cfg.listing(frame.id) == Some(entries)
    requires frame.entries.left == cfg.Sorted(entries)
    ensures FramesOk(cfg, frames + [frame])
    ensures CountOpen(frames + [frame]) == CountOpen(frames) + (if frame.entries.Open? then 1 else 0)
    ensures FramesEvents(cfg, frames + [frame])
         == cfg.WalkDirectory(frame.path, frame.depth, frame.id, Active(cfg, frames)) + Post(frame.post) + FramesEvents(cfg, frames)
  {
    PushActive(cfg, frames, frame);
    assert (frames + [frame])[..|frames|] == frames;
    hide Active, DistinctIds, Config.WalkEntries;
  }

  lemma PushActive(cfg: Config, frames: seq<DirectoryFrame>, frame: DirectoryFrame)
    requires cfg.followLinks ==> DistinctIds(frames) && frame.id !in Active(cfg, frames)
    ensures cfg.followLinks ==> DistinctIds(frames + [frame])
    ensures Active(cfg, frames + [frame]) == if cfg.followLinks then Active(cfg, frames) + {frame.id} else {}
  {
    var pushed := frames + [frame];
    assert forall f | 0 <= f < |frames| :: frames[f].id in StackIds(frames) && pushed[f] == frames[f];
    assert pushed[|frames|].id in StackIds(pushed);
    forall id | id in StackIds(pushed)
      ensures id in StackIds(frames) + {frame.id}
    {
      var f :| 0 <= f < |pushed| && pushed[f].id == id;
    }
    forall id | id in StackIds(frames)
      ensures id in StackIds(pushed)
    {
      var f :| 0 <= f < |frames| && frames[f].id == id;
      assert pushed[f].id == id;
    }
  }

  /** The conditions under which entries need no facts beyond their type. */
  predicate Plain(cfg: Config) {
    && !cfg.followLinks && !cfg.sameFileSystem && !cfg.collectMetadata
    && cfg.maxDepth.None? && cfg.minDepth == 0 && cfg.filter.None?
    && !cfg.skipStdout && !cfg.contentsFirst
  }
}
