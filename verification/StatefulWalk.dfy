/**
 The stateful walk: a caller-supplied processor sees every directory batch and may reorder it,
 drop or prune entries and change the state handed to the children.  The serial iterator is
 modelled as the class it is; the parallel one is the shared scheduler run on the same batches.
 */
module StatefulWalk {
  import opened Wrappers
  import opened FileTree
  import PullScheduler

  datatype StatefulEntry<+E> = StatefulEntry(entry: WalkEntry, state: E, readChildren: bool)

  type StatefulItem<+E> = Result<StatefulEntry<E>, WalkError>

  /** A directory, the state it inherits, and what the file system holds below it. */
  datatype StatefulTask<+R> = StatefulTask(path: Path, depth: nat, readable: bool, listing: seq<Dirent>, readState: R)

  datatype StatefulBatch<+R, +E> = StatefulBatch(entries: seq<StatefulItem<E>>, childState: R, listing: seq<Dirent>)

  /** What a directory callback leaves behind. */
  datatype Processed<+R, +E> = Processed(readState: R, entries: seq<StatefulItem<E>>)

  datatype Builder<!R(0,!new), !E(!new)> = Builder(
    options: WalkOptions,
    processor: (nat, Path, R, seq<StatefulItem<E>>) -> Processed<R, E>,
    defaultState: E)
  {
    function ReadDirent(task: StatefulTask<R>, dirent: Dirent): StatefulItem<E> {
      match dirent
      case Broken => Err(WalkError(task.path, task.depth + 1, ReadEntry))
      case Untyped(name) => Err(WalkError(task.path + [name], task.depth + 1, ReadMetadata))
      case Dirent(name, tree) =>
        var entry := ListedEntry(task.path, task.depth, name, tree, options.maxDepth);
        Ok(StatefulEntry(entry, defaultState, entry.isDirectory && entry.skip.None?))
    }

    /** `read_directory`: lists one directory and lets the processor rework the batch. */
    function Read(task: StatefulTask<R>): StatefulBatch<R, E> {
      var entries :=
        if !task.readable then [Err(WalkError(task.path, task.depth, ReadDirectory))]
        else seq(|task.listing|, i requires 0 <= i < |task.listing| => ReadDirent(task, task.listing[i]));
      var processed := processor(task.depth, task.path, task.readState, entries);
      StatefulBatch(processed.entries, processed.readState, task.listing)
    }

    /** The directory behind an item of a batch; an item without `readChildren` has none. */
    static function Child(batch: StatefulBatch<R, E>, item: StatefulItem<E>): Option<StatefulTask<R>> {
      if item.Err? || !item.value.readChildren || item.value.entry.path == [] then None
      else
        var entry := item.value.entry;
        match Lookup(batch.listing, entry.path[|entry.path| - 1])
        case Some(Directory(_, readable, listing)) =>
          Some(StatefulTask(entry.path, entry.depth, readable, listing, batch.childState))
        case _ => None
    }

    static function Prepare(batch: StatefulBatch<R, E>): seq<PullScheduler.Entry<StatefulItem<E>, StatefulTask<R>>> {
      seq(|batch.entries|, i requires 0 <= i < |batch.entries| =>
        PullScheduler.Entry(batch.entries[i], Child(batch, batch.entries[i])))
    }

    function Program(): PullScheduler.Program<StatefulTask<R>, StatefulBatch<R, E>, StatefulItem<E>> {
      PullScheduler.Program(Read, Prepare, TaskSize)
    }

    static function TaskSize(task: StatefulTask<R>): nat { 1 + ListingSize(task.listing) }

    /** Whatever the processor returns, a child is a smaller tree than its directory. */
    static lemma ChildSmaller(batch: StatefulBatch<R, E>, item: StatefulItem<E>)
      requires Child(batch, item).Some?
      ensures TaskSize(Child(batch, item).value) <= ListingSize(batch.listing)
    {
      var entry := item.value.entry;
      LookupSmaller(batch.listing, entry.path[|entry.path| - 1]);
    }

    lemma FiniteTree()
      ensures Program().WellFounded()
    {
      forall task: StatefulTask<R>
        ensures Program().Below(Program().Frame(task), TaskSize(task))
      {
        BatchBelow(Read(task));
      }
    }

    lemma BatchBelow(batch: StatefulBatch<R, E>)
      ensures Program().Below(Prepare(batch), 1 + ListingSize(batch.listing))
    {
      forall i | 0 <= i < |batch.entries| && Child(batch, batch.entries[i]).Some?
        ensures TaskSize(Child(batch, batch.entries[i]).value) < 1 + ListingSize(batch.listing)
      {
        ChildSmaller(batch, batch.entries[i]);
      }
    }
  }

  /** What the file system holds under `name` in a directory. */
  function Lookup(listing: seq<Dirent>, name: string): Option<Tree> {
    if listing == [] then None
    else if listing[0].Dirent? && listing[0].name == name then Some(listing[0].tree)
    else Lookup(listing[1..], name)
  }

  lemma {:induction false} LookupSmaller(listing: seq<Dirent>, name: string)
    ensures Lookup(listing, name).Some? ==> TreeSize(Lookup(listing, name).value) <= ListingSize(listing)
  {
    if listing != [] { LookupSmaller(listing[1..], name); }
  }

  /** What is left of a batch after its first `next` entries. */
  ghost function BatchRest<R(0,!new), E(!new)>(
    builder: Builder<R, E>, batch: StatefulBatch<R, E>, next: nat): seq<StatefulItem<E>>
    requires builder.Program().WellFounded() && next <= |batch.entries|
  {
    builder.BatchBelow(batch);
    builder.Program().WalkEntries(Builder<R, E>.Prepare(batch)[next..], 1 + ListingSize(batch.listing))
  }

  lemma BatchRestNext<R(0,!new), E(!new)>(builder: Builder<R, E>, batch: StatefulBatch<R, E>, next: nat)
    requires builder.Program().WellFounded() && next <= |batch.entries|
    ensures next == |batch.entries| ==> BatchRest(builder, batch, next) == []
    ensures next < |batch.entries| ==>
      BatchRest(builder, batch, next)
        == [batch.entries[next]] + Below(builder, Builder<R, E>.Child(batch, batch.entries[next]))
           + BatchRest(builder, batch, next + 1)
  {
    var entries := Builder<R, E>.Prepare(batch);
    var bound := 1 + ListingSize(batch.listing);
    builder.BatchBelow(batch);
    if next < |batch.entries| {
      assert entries[next..] == [entries[next]] + entries[next + 1..];
      assert entries[next] in entries;
      builder.Program().WalkCons(entries[next], entries[next + 1..], bound);
    }
  }

  ghost function Below<R(0,!new), E(!new)>(builder: Builder<R, E>, child: Option<StatefulTask<R>>): seq<StatefulItem<E>>
    requires builder.Program().WellFounded()
  {
    if child.Some? then builder.Program().Walk(child.value) else []
  }

  lemma BatchRestStart<R(0,!new), E(!new)>(builder: Builder<R, E>, task: StatefulTask<R>)
    requires builder.Program().WellFounded()
    ensures BatchRest(builder, builder.Read(task), 0) == builder.Program().Walk(task)
  {
    var entries := Builder<R, E>.Prepare(builder.Read(task));
    assert entries[0..] == entries;
  }

  function RootItem<R(0,!new), E(!new)>(builder: Builder<R, E>, path: Path, root: Tree): StatefulItem<E> {
    var entry := Visit(path, 0, root, builder.options.maxDepth);
    Ok(StatefulEntry(entry, builder.defaultState, Descends(Ok(entry))))
  }

  function RootTask<R(0,!new), E(!new)>(builder: Builder<R, E>, path: Path, root: Tree, state: R): Option<StatefulTask<R>> {
    if root.Directory? && Descends(Ok(Visit(path, 0, root, builder.options.maxDepth)))
    then Some(StatefulTask(path, 0, root.readable, root.listing, state))
    else None
  }

  /** The scheduler's walk of the root and of everything below it. */
  ghost function ProgramWalk<R(0,!new), E(!new)>(builder: Builder<R, E>, path: Path, root: Tree, state: R): seq<StatefulItem<E>>
    requires builder.Program().WellFounded()
  {
    [RootItem(builder, path, root)] + Below(builder, RootTask(builder, path, root, state))
  }

  // The reference: a recursive walk in terms of the processor and the listings only --------------

  /** Entry `i` is the first one called `name`, and it is a directory. */
  ghost predicate DirectoryAt(listing: seq<Dirent>, name: string, i: nat) {
    && i < |listing| && listing[i].Dirent? && listing[i].name == name && listing[i].tree.Directory?
    && forall j | 0 <= j < i && listing[j].Dirent? :: listing[j].name != name
  }

  /** The processor left the item in with its children, and its path ends in the name of directory `i`. */
  ghost predicate LeadsTo<E>(item: StatefulItem<E>, listing: seq<Dirent>, i: nat) {
    && item.Ok? && item.value.readChildren
    && item.value.entry.path != [] && DirectoryAt(listing, item.value.entry.path[|item.value.entry.path| - 1], i)
  }

  /** What the processor is shown of a directory. */
  ghost function Listed<R(0,!new), E(!new)>(
    builder: Builder<R, E>, path: Path, depth: nat, readable: bool, listing: seq<Dirent>): seq<StatefulItem<E>>
  {
    if !readable then [Err(WalkError(path, depth, ReadDirectory))]
    else
      seq(|listing|, i requires 0 <= i < |listing| =>
        match listing[i]
        case Broken => Err(WalkError(path, depth + 1, ReadEntry))
        case Untyped(name) => Err(WalkError(path + [name], depth + 1, ReadMetadata))
        case Dirent(name, tree) =>
          Ok(StatefulEntry(Visit(path + [name], depth + 1, tree, builder.options.maxDepth), builder.defaultState,
                           Entered(tree, builder.options.maxDepth, depth + 1))))
  }

  /** The directory is processed once; its items follow as the processor left them, each with the walk of the
      directory it leads to, which inherits the state the processor returned. */
  ghost function WalkBelow<R(0,!new), E(!new)>(
    builder: Builder<R, E>, path: Path, depth: nat, readable: bool, listing: seq<Dirent>, state: R): seq<StatefulItem<E>>
    decreases ListingSize(listing), 1, 0
  {
    var processed := builder.processor(depth, path, state, Listed(builder, path, depth, readable, listing));
    WalkItems(builder, processed.entries, listing, processed.readState)
  }

  ghost function WalkItems<R(0,!new), E(!new)>(
    builder: Builder<R, E>, items: seq<StatefulItem<E>>, listing: seq<Dirent>, state: R): seq<StatefulItem<E>>
    decreases ListingSize(listing), 0, |items|
  {
    if items == [] then []
    else
      [items[0]]
      + (if exists i: nat :: LeadsTo(items[0], listing, i) then
           var i: nat :| LeadsTo(items[0], listing, i);
           SmallerThanListing(listing, i);
           var entry, tree := items[0].value.entry, listing[i].tree;
           WalkBelow(builder, entry.path, entry.depth, tree.readable, tree.listing, state)
         else [])
      + WalkItems(builder, items[1..], listing, state)
  }

  /** The stateful walk: the root, then, if it is a directory to enter, everything below it. */
  ghost function FullWalk<R(0,!new), E(!new)>(builder: Builder<R, E>, path: Path, root: Tree, state: R): seq<StatefulItem<E>> {
    var maxDepth := builder.options.maxDepth;
    [Ok(StatefulEntry(Visit(path, 0, root, maxDepth), builder.defaultState, Entered(root, maxDepth, 0)))]
    + (if Entered(root, maxDepth, 0) then WalkBelow(builder, path, 0, root.readable, root.listing, state) else [])
  }

  lemma {:induction false} LookupFinds(listing: seq<Dirent>, name: string, i: nat)
    requires DirectoryAt(listing, name, i)
    ensures Lookup(listing, name) == Some(listing[i].tree)
  {
    if i > 0 { LookupFinds(listing[1..], name, i - 1); }
  }

  lemma {:induction false} LookupFound(listing: seq<Dirent>, name: string) returns (i: nat)
    requires Lookup(listing, name).Some? && Lookup(listing, name).value.Directory?
    ensures DirectoryAt(listing, name, i)
  {
    if listing[0].Dirent? && listing[0].name == name {
      i := 0;
    } else {
      var j := LookupFound(listing[1..], name);
      i := j + 1;
    }
  }

  /** An item has a directory to walk exactly if it leads to one, and that directory inherits the batch's state. */
  lemma ChildLeads<R(0,!new), E(!new)>(batch: StatefulBatch<R, E>, item: StatefulItem<E>)
    ensures Builder<R, E>.Child(batch, item).Some? <==> exists i: nat :: LeadsTo(item, batch.listing, i)
    ensures forall i: nat | LeadsTo(item, batch.listing, i) ::
      Builder<R, E>.Child(batch, item) == Some(StatefulTask(
        item.value.entry.path, item.value.entry.depth, batch.listing[i].tree.readable, batch.listing[i].tree.listing,
        batch.childState))
  {
    forall i: nat | LeadsTo(item, batch.listing, i)
      ensures Lookup(batch.listing, item.value.entry.path[|item.value.entry.path| - 1]) == Some(batch.listing[i].tree)
    {
      LookupFinds(batch.listing, item.value.entry.path[|item.value.entry.path| - 1], i);
    }
    if Builder<R, E>.Child(batch, item).Some? {
      var i := LookupFound(batch.listing, item.value.entry.path[|item.value.entry.path| - 1]);
      assert LeadsTo(item, batch.listing, i);
    }
  }

  lemma ReadShows<R(0,!new), E(!new)>(builder: Builder<R, E>, task: StatefulTask<R>)
    ensures var processed := builder.processor(task.depth, task.path, task.readState,
                                               Listed(builder, task.path, task.depth, task.readable, task.listing));
      builder.Read(task) == StatefulBatch(processed.entries, processed.readState, task.listing)
  {
    forall i | task.readable && 0 <= i < |task.listing|
      ensures builder.ReadDirent(task, task.listing[i])
           == Listed(builder, task.path, task.depth, task.readable, task.listing)[i]
    {
      if task.listing[i].Dirent? {
        var name, tree := task.listing[i].name, task.listing[i].tree;
        WorkerLimitInvisible(task.path, task.depth, name, tree, builder.options.maxDepth);
        VisitTells(task.path + [name], task.depth + 1, tree, builder.options.maxDepth);
      }
    }
    if task.readable {
      assert seq(|task.listing|, i requires 0 <= i < |task.listing| => builder.ReadDirent(task, task.listing[i]))
          == Listed(builder, task.path, task.depth, task.readable, task.listing);
    }
  }

  /** The scheduler's walk is the recursive walk. */
  lemma {:induction false} WalkIsRecursive<R(0,!new), E(!new)>(builder: Builder<R, E>, task: StatefulTask<R>)
    requires builder.Program().WellFounded()
    ensures builder.Program().Walk(task)
         == WalkBelow(builder, task.path, task.depth, task.readable, task.listing, task.readState)
    decreases ListingSize(task.listing), 1, 0
  {
    ReadShows(builder, task);
    BatchRestStart(builder, task);
    BatchIsRecursive(builder, builder.Read(task), 0);
  }

  lemma {:induction false} BatchIsRecursive<R(0,!new), E(!new)>(builder: Builder<R, E>, batch: StatefulBatch<R, E>, next: nat)
    requires builder.Program().WellFounded() && next <= |batch.entries|
    ensures BatchRest(builder, batch, next) == WalkItems(builder, batch.entries[next..], batch.listing, batch.childState)
    decreases ListingSize(batch.listing), 0, |batch.entries| - next
  {
    hide BatchRest;
    BatchRestNext(builder, batch, next);
    if next < |batch.entries| {
      var item := batch.entries[next];
      assert batch.entries[next..][1..] == batch.entries[next + 1..];
      BatchIsRecursive(builder, batch, next + 1);
      ChildLeads(batch, item);
      if i: nat :| LeadsTo(item, batch.listing, i) {
        SmallerThanListing(batch.listing, i);
        WalkIsRecursive(builder, Builder<R, E>.Child(batch, item).value);
      }
    }
  }

  lemma ProgramWalkIs<R(0,!new), E(!new)>(builder: Builder<R, E>, path: Path, root: Tree, state: R)
    requires builder.Program().WellFounded()
    ensures ProgramWalk(builder, path, root, state) == FullWalk(builder, path, root, state)
  {
    VisitTells(path, 0, root, builder.options.maxDepth);
    if Entered(root, builder.options.maxDepth, 0) {
      WalkIsRecursive(builder, StatefulTask(path, 0, root.readable, root.listing, state));
    }
  }

  /** A processor that prunes every entry of a directory ends the walk there. */
  lemma {:induction false} PrunedEnds<R(0,!new), E(!new)>(
    builder: Builder<R, E>, items: seq<StatefulItem<E>>, listing: seq<Dirent>, state: R)
    requires forall item | item in items && item.Ok? :: !item.value.readChildren
    ensures WalkItems(builder, items, listing, state) == items
  {
    if items != [] { PrunedEnds(builder, items[1..], listing, state); }
  }

  /** What a consumer is to see of a walk: every error, and the entries from `minDepth` on. */
  ghost function Delivered<E>(options: WalkOptions, items: seq<StatefulItem<E>>): seq<StatefulItem<E>> {
    if items == [] then []
    else
      (match items[0]
       case Err(_) => [items[0]]
       case Ok(found) => if found.entry.depth < options.minDepth then [] else [items[0]])
      + Delivered(options, items[1..])
  }

  /** The part of a walk that the parallel walk delivers: all of it, or under `Abort` up to the first error. */
  ghost function Stream<E>(options: WalkOptions, walk: seq<StatefulItem<E>>): seq<StatefulItem<E>> {
    Delivered(options, match options.errorPolicy case Continue => walk case Abort => UpToError(walk))
  }

  function Policy<R(0,!new), E(!new)>(options: WalkOptions): PullScheduler.Policy<StatefulItem<E>> {
    PullScheduler.Policy(
      (item: StatefulItem<E>) => item.Err? || item.value.entry.depth >= options.minDepth,
      (item: StatefulItem<E>) => options.errorPolicy == Abort && item.Err?)
  }

  lemma {:induction false} VisibleIsDelivered<R(0,!new), E(!new)>(options: WalkOptions, items: seq<StatefulItem<E>>)
    ensures Policy<R, E>(options).Visible(items) == Delivered(options, items)
  {
    if items != [] { VisibleIsDelivered<R, E>(options, items[1..]); }
  }

  lemma {:induction false} CutIsUpToError<R(0,!new), E(!new)>(options: WalkOptions, items: seq<StatefulItem<E>>)
    ensures Policy<R, E>(options).Cut(items) == match options.errorPolicy case Continue => items case Abort => UpToError(items)
  {
    if items != [] { CutIsUpToError<R, E>(options, items[1..]); }
  }

  lemma StreamIs<R(0,!new), E(!new)>(options: WalkOptions, walk: seq<StatefulItem<E>>)
    ensures Policy<R, E>(options).Visible(Policy<R, E>(options).Cut(walk)) == Stream(options, walk)
  {
    CutIsUpToError<R, E>(options, walk);
    VisibleIsDelivered<R, E>(options, Policy<R, E>(options).Cut(walk));
  }

  /** The walk is shown without its root if `minDepth` hides it. */
  lemma ShownRoot<R(0,!new), E(!new)>(builder: Builder<R, E>, path: Path, root: Tree, state: R)
    requires builder.Program().WellFounded()
    ensures
      var policy := Policy<R, E>(builder.options);
      var item, below := RootItem(builder, path, root), Below(builder, RootTask(builder, path, root, state));
      && policy.Visible([item]) == (if 0 >= builder.options.minDepth then [item] else [])
      && Delivered(builder.options, FullWalk(builder, path, root, state))
         == policy.Visible(if 0 >= builder.options.minDepth then [item] + below else below)
  {
    hide Below, RootTask, FullWalk;
    var policy := Policy<R, E>(builder.options);
    var item, below := RootItem(builder, path, root), Below(builder, RootTask(builder, path, root, state));
    ProgramWalkIs(builder, path, root, state);
    VisibleIsDelivered<R, E>(builder.options, ProgramWalk(builder, path, root, state));
    policy.VisibleAppend([item], below);
  }

  /** A directory whose entries are being handed out; `next` is the iterator's position. */
  datatype StatefulFrame<+R, +E> = StatefulFrame(batch: StatefulBatch<R, E>, next: nat)

  /** The serial iterator. */
  class StatefulWalker<R(0,!new), E(!new)> {
    const builder: Builder<R, E>

    var rootEntry: Option<StatefulItem<E>>
    var pending: Option<StatefulTask<R>>
    var frames: seq<StatefulFrame<R, E>>

    ghost function Shown(items: seq<StatefulItem<E>>): seq<StatefulItem<E>> {
      Policy<R, E>(builder.options).Visible(items)
    }

    ghost predicate Valid()
      reads this
    {
      && builder.Program().WellFounded()
      && (rootEntry.Some? ==> Shown([rootEntry.value]) == [rootEntry.value])
      && WellFormed(frames)
    }

    static ghost predicate WellFormed(frames: seq<StatefulFrame<R, E>>) {
      forall f | 0 <= f < |frames| :: frames[f].next <= |frames[f].batch.entries|
    }

    ghost function FramesRest(frames: seq<StatefulFrame<R, E>>): seq<StatefulItem<E>>
      requires builder.Program().WellFounded() && WellFormed(frames)
    {
      if frames == [] then []
      else
        var top := frames[|frames| - 1];
        BatchRest(builder, top.batch, top.next) + FramesRest(frames[..|frames| - 1])
    }

    /** Everything the iterator still yields before visibility is applied. */
    ghost function Rest(): seq<StatefulItem<E>>
      requires Valid()
      reads this
    {
      (if rootEntry.Some? then [rootEntry.value] else []) + (Below(builder, pending) + FramesRest(frames))
    }

    ghost function ShownRest(): seq<StatefulItem<E>>
      requires Valid()
      reads this
    {
      Shown(Rest())
    }

    constructor (builder: Builder<R, E>, path: Path, root: Tree, state: R)
      requires builder.Program().WellFounded()
      ensures Valid() && this.builder == builder
      ensures ShownRest() == Delivered(builder.options, FullWalk(builder, path, root, state))
    {
      this.builder := builder;
      rootEntry := if 0 >= builder.options.minDepth then Some(RootItem(builder, path, root)) else None;
      pending := RootTask(builder, path, root, state);
      frames := [];
      new;
      hide Below, RootTask, FullWalk;
      ShownRoot(builder, path, root, state);
      if rootEntry.Some? {
        assert Rest() == [RootItem(builder, path, root)] + Below(builder, pending);
      } else {
        assert Rest() == Below(builder, pending);
      }
    }

    /** Reads the pending directory and puts its processed batch on the stack. */
    method StartPending()
      requires Valid() && rootEntry.None? && pending.Some?
      modifies this`pending, this`frames
      ensures Valid() && pending.None? && Rest() == old(Rest())
    {
      BatchRestStart(builder, pending.value);
      frames := frames + [StatefulFrame(builder.Read(pending.value), 0)];
      pending := None;
      assert frames[..|frames| - 1] == old(frames);
    }

    /** Drops the exhausted innermost directory. */
    method Pop()
      requires Valid() && rootEntry.None? && frames != []
      requires frames[|frames| - 1].next == |frames[|frames| - 1].batch.entries|
      modifies this`frames
      ensures Valid() && |frames| < |old(frames)| && Rest() == old(Rest())
    {
      var top := frames[|frames| - 1];
      BatchRestNext(builder, top.batch, top.next);
      frames := frames[..|frames| - 1];
      assert [] + FramesRest(frames) == FramesRest(frames);
    }

    /** Moves the innermost iterator on and remembers the directory behind the item. */
    method Take() returns (entry: StatefulItem<E>, visible: bool)
      requires Valid() && rootEntry.None? && pending.None? && frames != []
      requires frames[|frames| - 1].next < |frames[|frames| - 1].batch.entries|
      modifies this`pending, this`frames
      ensures Valid() && |Rest()| < old(|Rest()|)
      ensures old(ShownRest()) == (if visible then [entry] else []) + ShownRest()
    {
      assert Below(builder, pending) == [];
      hide Below, BatchRest, Builder.Program;
      var top := frames[|frames| - 1];
      entry := top.batch.entries[top.next];
      visible := Policy<R, E>(builder.options).visible(entry);
      BatchRestNext(builder, top.batch, top.next);
      ghost var outer := FramesRest(frames[..|frames| - 1]);
      ghost var inner := BatchRest(builder, top.batch, top.next + 1);
      pending := Builder<R, E>.Child(top.batch, entry);
      frames := frames[|frames| - 1 := top.(next := top.next + 1)];
      assert frames[..|frames| - 1] == old(frames)[..|frames| - 1];
      PullScheduler.Associate([entry], Below(builder, pending), inner, outer);
      assert old(Rest()) == [entry] + Rest();
      Policy<R, E>(builder.options).VisibleAppend([entry], Rest());
      assert Shown([entry]) == if visible then [entry] else [];
    }

    /** The root comes first. */
    method TakeRoot() returns (item: StatefulItem<E>)
      requires Valid() && rootEntry.Some?
      modifies this`rootEntry
      ensures Valid() && rootEntry.None?
      ensures old(ShownRest()) == [item] + ShownRest()
    {
      item := rootEntry.value;
      rootEntry := None;
      Policy<R, E>(builder.options).VisibleAppend([item], Rest());
      assert old(Rest()) == [item] + Rest();
    }

    /** `Iterator::next`: the next visible item of the walk. */
    method Next() returns (item: Option<StatefulItem<E>>)
      requires Valid()
      modifies this`rootEntry, this`pending, this`frames
      ensures Valid()
      ensures item.None? ==> old(ShownRest()) == [] && ShownRest() == []
      ensures item.Some? ==> old(ShownRest()) == [item.value] + ShownRest()
    {
      hide FramesRest, BatchRest, Below, Shown;
      if rootEntry.Some? {
        var root := TakeRoot();
        return Some(root);
      }
      while true
        invariant Valid() && rootEntry.None?
        invariant ShownRest() == old(ShownRest())
        decreases |Rest()|, if pending.Some? then 1 else 0, |frames|
      {
        if pending.Some? {
          StartPending();
        }
        if frames == [] {
          NothingLeft();
          return None;
        }
        var top := frames[|frames| - 1];
        if top.next == |top.batch.entries| {
          Pop();
          continue;
        }
        var entry, visible := Take();
        if visible {
          return Some(entry);
        }
      }
    }

    lemma NothingLeft()
      requires Valid() && rootEntry.None? && pending.None? && frames == []
      ensures ShownRest() == []
    {
    }
  }

  /** Drains the serial iterator. */
  method CollectSerial<R(0,!new), E(!new)>(builder: Builder<R, E>, path: Path, root: Tree, state: R)
    returns (items: seq<StatefulItem<E>>)
    ensures builder.Program().WellFounded()
    ensures items == Delivered(builder.options, FullWalk(builder, path, root, state))
  {
    builder.FiniteTree();
    hide *;
    var walker := new StatefulWalker(builder, path, root, state);
    items := [];
    while true
      invariant fresh(walker) && walker.Valid() && walker.builder == builder
      invariant items + walker.ShownRest() == Delivered(builder.options, FullWalk(builder, path, root, state))
      decreases |walker.ShownRest()|
    {
      var item := walker.Next();
      if item.None? {
        return;
      }
      items := items + [item.value];
    }
  }

  /** `run_parallel`: the shared scheduler over the same batches. */
  method RunParallel<R(0,!new), E(!new)>(
    builder: Builder<R, E>, path: Path, root: Tree, state: R, available: nat, parallelism: nat,
    env: PullScheduler.Environment)
    returns (sent: seq<PullScheduler.Sent<StatefulItem<E>>>, blocked: bool, ghost taken: seq<StatefulItem<E>>,
             ghost interrupted: bool, ghost refusal: Option<PullScheduler.Caller>, ghost dropped: bool)
    requires root.File? || (root.Directory? && root.boundary.None?)
    ensures builder.Program().WellFounded()
    ensures Policy<R, E>(builder.options).Streams(FullWalk(builder, path, root, state), taken, sent, interrupted, refusal, dropped)
    ensures PullScheduler.Caused(env, interrupted, refusal, dropped)
    ensures blocked ==> interrupted && env.cancels && taken == [RootItem(builder, path, root)]
    ensures PullScheduler.BeginningOf(Stream(builder.options, FullWalk(builder, path, root, state)), sent)
    ensures env.Calm() ==>
      !blocked && sent == PullScheduler.SentItems(Stream(builder.options, FullWalk(builder, path, root, state)))
    ensures !env.cancels && !env.hangsUp && RootTask(builder, path, root, state).Some? ==>
      var policy := Policy<R, E>(builder.options);
      var before := PullScheduler.SentItems(policy.Visible([RootItem(builder, path, root)]));
      && !blocked
      && (!env.accepts(0) ==> sent == before + [PullScheduler.SentScheduleError])
      && (env.accepts(0) && !env.accepts(1)
          && PullScheduler.HasChild(builder.Program().Frame(RootTask(builder, path, root, state).value)) ==>
            refusal.Some? && sent == before)
  {
    hide PullScheduler.OrderedScheduler.Valid, PullScheduler.Program.Walk, PullScheduler.Program.WellFounded, PullScheduler.HasChild;
    builder.FiniteTree();
    var policy := Policy<R, E>(builder.options);
    ghost var walk := FullWalk(builder, path, root, state);
    ProgramWalkIs(builder, path, root, state);
    StreamIs<R, E>(builder.options, walk);
    var rootItem := RootItem(builder, path, root);
    var rootTask := RootTask(builder, path, root, state);
    sent, blocked, taken, interrupted, refusal, dropped := [], false, [], false, None, false;
    if policy.visible(rootItem) {
      var delivered: bool := *;
      if env.hangsUp && !delivered {
        interrupted, dropped := true, true;
        policy.StreamsBegin(walk, taken, sent, interrupted, refusal, dropped);
        return;
      }
      sent := [PullScheduler.SentItem(rootItem)];
    }
    taken := [rootItem];
    assert policy.Visible(taken) == if policy.visible(rootItem) then taken else [];
    assert sent == PullScheduler.SentItems(policy.Visible(taken));
    policy.CutAppend(taken, Below(builder, rootTask));
    var cancelled: bool := *;
    cancelled := cancelled && env.cancels;
    if rootTask.None? || cancelled {
      interrupted := rootTask.Some? && cancelled;
      policy.StreamsBegin(walk, taken, sent, interrupted, refusal, dropped);
      return;
    }
    var limit := PullScheduler.RequestedWorkers(available, parallelism, builder.options.maxOpen, 8);
    var scheduler := new PullScheduler.OrderedScheduler(builder.Program(), policy, limit, rootTask.value, sent, env);
    blocked, taken := scheduler.Run(rootTask.value, taken);
    sent, interrupted, refusal, dropped := scheduler.sent, scheduler.interrupted, scheduler.refusal, scheduler.dropped;
    policy.StreamsBegin(walk, taken, sent, interrupted, refusal, dropped);
  }

  /** Under `Continue` an undisturbed parallel run delivers exactly what the serial iterator yields;
      under `Abort` it does so exactly when no item follows the first error. */
  lemma ParallelMatchesSerial<R(0,!new), E(!new)>(
    builder: Builder<R, E>, walk: seq<StatefulItem<E>>, taken: seq<StatefulItem<E>>,
    sent: seq<PullScheduler.Sent<StatefulItem<E>>>)
    requires Policy<R, E>(builder.options).Streams(walk, taken, sent, false, None, false)
    ensures builder.options.errorPolicy == Continue ==>
      sent == PullScheduler.SentItems(Policy<R, E>(builder.options).Visible(walk))
    ensures taken == walk <==>
      builder.options.errorPolicy == Continue || forall i | 0 <= i < |walk| - 1 :: walk[i].Ok?
  {
    Policy<R, E>(builder.options).CutComplete(walk);
  }
}
