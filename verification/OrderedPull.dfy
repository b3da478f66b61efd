/**
 The ordered pull iterator: directory reads run in parallel, entries come out in pre-order with
 every directory sorted by path.
 */
module OrderedPull {
  import opened Wrappers
  import opened FileTree
  import opened Ordering
  import PullScheduler

  /** A directory to read and what the file system holds there. */
  datatype DirectoryTask = DirectoryTask(path: Path, depth: nat, readable: bool, listing: seq<Dirent>)

  /** One entry of a batch and the tree found at its path. */
  datatype Row = Row(item: WalkItem, tree: Option<Tree>)

  function ReadDirent(options: WalkOptions, task: DirectoryTask, dirent: Dirent): Row {
    match dirent
    case Broken => Row(Err(WalkError(task.path, task.depth + 1, ReadEntry)), None)
    case Untyped(name) => Row(Err(WalkError(task.path + [name], task.depth + 1, ReadMetadata)), None)
    case Dirent(name, tree) =>
      Row(Ok(ListedEntry(task.path, task.depth, name, tree, options.maxDepth)), Some(tree))
  }

  /** `read_directory`: the immediate children of one directory. */
  function ReadDirectoryRows(options: WalkOptions, task: DirectoryTask): seq<Row> {
    if !task.readable then [Row(Err(WalkError(task.path, task.depth, ReadDirectory)), None)]
    else Rows(options, task, task.listing)
  }

  function Rows(options: WalkOptions, task: DirectoryTask, listing: seq<Dirent>): seq<Row> {
    if listing == [] then [] else [ReadDirent(options, task, listing[0])] + Rows(options, task, listing[1..])
  }

  lemma {:induction false} RowsAt(options: WalkOptions, task: DirectoryTask, listing: seq<Dirent>)
    ensures |Rows(options, task, listing)| == |listing|
    ensures forall i | 0 <= i < |listing| :: Rows(options, task, listing)[i] == ReadDirent(options, task, listing[i])
  {
    if listing != [] { RowsAt(options, task, listing[1..]); }
  }

  /** The skip of a followed directory: `Walker::visit` asks for the depth before the link loop. */
  function SkipFollowed(boundary: Option<Boundary>, maxDepth: Option<nat>, depth: nat, loop: bool): Option<SkipReason> {
    var skip := SkipAt(boundary, maxDepth, depth);
    if skip.None? && loop then Some(SymlinkLoop) else skip
  }

  /** With links followed the worker's limit does show: it hides exactly the link loops above the
      depth limit. */
  lemma LoopMasked(path: Path, depth: nat, boundary: Option<Boundary>, maxDepth: Option<nat>, loop: bool)
    ensures
      var read := WalkEntry(path, depth + 1, false, true, true, false,
                            SkipFollowed(boundary, WorkerMaxDepth(maxDepth, depth), depth + 1, loop));
      ClearDepthSkip(read, maxDepth).skip == SkipFollowed(boundary, maxDepth, depth + 1, loop)
      <==> !(loop && boundary.None? && (maxDepth.None? || depth + 1 < maxDepth.value))
  {
    match boundary
    case None =>
    case Some(OtherFileSystem) =>
    case Some(OutsideRoot) =>
  }

  predicate RowLess(a: Row, b: Row) { PathLess(ItemPath(a.item), ItemPath(b.item)) }

  lemma RowOrder()
    ensures WeakOrder(RowLess)
  {
    PathStrictTotal();
  }

  function Child(row: Row): Option<DirectoryTask> {
    if Descends(row.item) && row.tree.Some? && row.tree.value.Directory?
    then Some(DirectoryTask(row.item.value.path, row.item.value.depth, row.tree.value.readable, row.tree.value.listing))
    else None
  }

  function PrepareRow(row: Row): PullScheduler.Entry<WalkItem, DirectoryTask> {
    PullScheduler.Entry(row.item, Child(row))
  }

  /** `prepare_frame`: sorts the batch by path and names the directories to read next. */
  function Prepare(rows: seq<Row>): seq<PullScheduler.Entry<WalkItem, DirectoryTask>> {
    PrepareRows(Sort(RowLess, rows))
  }

  function PrepareRows(rows: seq<Row>): (entries: seq<PullScheduler.Entry<WalkItem, DirectoryTask>>)
    ensures |entries| == |rows| && forall i | 0 <= i < |rows| :: entries[i] == PrepareRow(rows[i])
  {
    if rows == [] then [] else [PrepareRow(rows[0])] + PrepareRows(rows[1..])
  }

  function TaskSize(task: DirectoryTask): nat { if task.readable then 1 + ListingSize(task.listing) else 0 }

  function Program(options: WalkOptions): PullScheduler.Program<DirectoryTask, seq<Row>, WalkItem> {
    PullScheduler.Program((task: DirectoryTask) => ReadDirectoryRows(options, task), Prepare, TaskSize)
  }

  lemma PreparedRow(rows: seq<Row>, entry: PullScheduler.Entry<WalkItem, DirectoryTask>) returns (row: Row)
    requires entry in Prepare(rows)
    ensures row in rows && entry == PrepareRow(row)
  {
    RowOrder();
    SortSorts(RowLess, rows);
    var sorted := Sort(RowLess, rows);
    var i :| 0 <= i < |sorted| && entry == PrepareRow(sorted[i]);
    row := sorted[i];
    assert row in multiset(rows);
  }

  lemma ChildSmaller(options: WalkOptions, task: DirectoryTask, row: Row)
    requires row in ReadDirectoryRows(options, task) && Child(row).Some?
    ensures TaskSize(Child(row).value) < TaskSize(task)
  {
    var rows := ReadDirectoryRows(options, task);
    var i :| 0 <= i < |rows| && rows[i] == row;
    RowsAt(options, task, task.listing);
    SmallerThanListing(task.listing, i);
  }

  lemma FiniteTree(options: WalkOptions)
    ensures Program(options).WellFounded()
  {
    forall task: DirectoryTask
      ensures Program(options).Below(Program(options).Frame(task), TaskSize(task))
    {
      forall entry | entry in Program(options).Frame(task) && entry.child.Some?
        ensures TaskSize(entry.child.value) < TaskSize(task)
      {
        var row := PreparedRow(ReadDirectoryRows(options, task), entry);
        ChildSmaller(options, task, row);
      }
    }
  }

  // The reference: a recursive walk of a tree whose directories list their entries by name ------

  /** Failed directory reads sort first, because their path is the directory's own. */
  predicate DirentLess(a: Dirent, b: Dirent) {
    if b.Broken? then false
    else if a.Broken? then true
    else TextLess(a.name, b.name)
  }

  lemma DirentOrder()
    ensures WeakOrder(DirentLess)
  {
    TextStrictTotal();
  }

  function ByName(listing: seq<Dirent>): (sorted: seq<Dirent>)
    ensures ListingSize(sorted) == ListingSize(listing)
  {
    SortSize(listing);
    Sort(DirentLess, listing)
  }

  lemma {:induction false} InsertSize(dirent: Dirent, sorted: seq<Dirent>)
    ensures ListingSize(Insert(DirentLess, dirent, sorted)) == ListingSize([dirent]) + ListingSize(sorted)
  {
    if sorted == [] || !DirentLess(sorted[0], dirent) {
      assert ([dirent] + sorted)[1..] == sorted;
      assert [dirent][1..] == [];
    } else {
      InsertSize(dirent, sorted[1..]);
      assert ([sorted[0]] + Insert(DirentLess, dirent, sorted[1..]))[1..] == Insert(DirentLess, dirent, sorted[1..]);
    }
  }

  lemma {:induction false} SortSize(listing: seq<Dirent>)
    ensures ListingSize(Sort(DirentLess, listing)) == ListingSize(listing)
  {
    if listing != [] {
      SortSize(listing[1..]);
      InsertSize(listing[0], Sort(DirentLess, listing[1..]));
      assert [listing[0]][1..] == [];
    }
  }

  ghost function PreOrder(options: WalkOptions, path: Path, depth: nat, readable: bool, listing: seq<Dirent>): seq<WalkItem>
    decreases ListingSize(listing), 1, 0
  {
    if !readable then [Err(WalkError(path, depth, ReadDirectory))]
    else PreOrderListing(options, path, depth, ByName(listing))
  }

  ghost function PreOrderListing(options: WalkOptions, path: Path, depth: nat, sorted: seq<Dirent>): seq<WalkItem>
    decreases ListingSize(sorted), 0, |sorted|
  {
    if sorted == [] then []
    else
      (match sorted[0]
       case Broken => [Err(WalkError(path, depth + 1, ReadEntry))]
       case Untyped(name) => [Err(WalkError(path + [name], depth + 1, ReadMetadata))]
       case Dirent(name, tree) =>
         [Ok(Visit(path + [name], depth + 1, tree, options.maxDepth))]
         + PreOrderBelow(options, path + [name], depth + 1, tree))
      + PreOrderListing(options, path, depth, sorted[1..])
  }

  ghost function PreOrderBelow(options: WalkOptions, path: Path, depth: nat, tree: Tree): seq<WalkItem>
    decreases TreeSize(tree), 0, 0
  {
    if Entered(tree, options.maxDepth, depth)
    then PreOrder(options, path, depth, tree.readable, tree.listing)
    else []
  }

  lemma {:induction false} SiblingOrder(options: WalkOptions, task: DirectoryTask, a: Dirent, b: Dirent)
    ensures RowLess(ReadDirent(options, task, a), ReadDirent(options, task, b)) == DirentLess(a, b)
  {
    TextStrictTotal();
    SiblingPaths(task.path, if a.Broken? then [] else [a.name], if b.Broken? then [] else [b.name]);
    if !a.Broken? && !b.Broken? {
      assert [a.name][1..] == [] && [b.name][1..] == [];
      assert LexLess(TextLess, [a.name], [b.name]) == TextLess(a.name, b.name);
    }
    assert task.path + [] == task.path;
  }

  lemma {:induction false} SiblingPaths(prefix: Path, a: Path, b: Path)
    ensures PathLess(prefix + a, prefix + b) == PathLess(a, b)
  {
    if prefix == [] {
      assert prefix + a == a && prefix + b == b;
    } else {
      TextStrictTotal();
      assert (prefix + a)[1..] == prefix[1..] + a && (prefix + b)[1..] == prefix[1..] + b;
      SiblingPaths(prefix[1..], a, b);
    }
  }

  lemma {:induction false} InsertCommutes(options: WalkOptions, task: DirectoryTask, dirent: Dirent, sorted: seq<Dirent>)
    ensures Rows(options, task, Insert(DirentLess, dirent, sorted))
         == Insert(RowLess, ReadDirent(options, task, dirent), Rows(options, task, sorted))
  {
    if sorted != [] {
      SiblingOrder(options, task, sorted[0], dirent);
      assert Rows(options, task, sorted)[1..] == Rows(options, task, sorted[1..]);
      if DirentLess(sorted[0], dirent) {
        InsertCommutes(options, task, dirent, sorted[1..]);
        assert Insert(DirentLess, dirent, sorted)[1..] == Insert(DirentLess, dirent, sorted[1..]);
      } else {
        assert ([dirent] + sorted)[1..] == sorted;
      }
    }
  }

  lemma {:induction false} SortCommutes(options: WalkOptions, task: DirectoryTask, listing: seq<Dirent>)
    ensures Rows(options, task, Sort(DirentLess, listing)) == Sort(RowLess, Rows(options, task, listing))
  {
    if listing != [] {
      SortCommutes(options, task, listing[1..]);
      InsertCommutes(options, task, listing[0], Sort(DirentLess, listing[1..]));
      assert Rows(options, task, listing)[1..] == Rows(options, task, listing[1..]);
    }
  }

  /** The scheduler's walk is the recursive pre-order over directories sorted by name. */
  lemma {:induction false} WalkIsPreOrder(options: WalkOptions, task: DirectoryTask)
    requires Program(options).WellFounded()
    ensures Program(options).Walk(task) == PreOrder(options, task.path, task.depth, task.readable, task.listing)
    decreases TaskSize(task), 1, 0
  {
    if task.readable {
      SortCommutes(options, task, task.listing);
      SortSize(task.listing);
      EntriesArePreOrder(options, task, ByName(task.listing), TaskSize(task));
    } else {
      UnreadableWalk(options, task);
    }
  }

  lemma UnreadableWalk(options: WalkOptions, task: DirectoryTask)
    requires Program(options).WellFounded() && !task.readable
    ensures Program(options).Walk(task) == [Err(WalkError(task.path, task.depth, ReadDirectory))]
  {
    var row := Row(Err(WalkError(task.path, task.depth, ReadDirectory)), None);
    assert Sort(RowLess, [row]) == [row];
    var entries := Program(options).Frame(task);
    assert entries == [PrepareRow(row)] + [];
    Program(options).WalkCons(PrepareRow(row), [], 0);
  }

  lemma {:induction false} DirentWalk(options: WalkOptions, task: DirectoryTask, dirent: Dirent, bound: nat)
    requires Program(options).WellFounded() && ListingSize([dirent]) < bound
    ensures var child := Child(ReadDirent(options, task, dirent));
      && (child.Some? ==> TaskSize(child.value) < bound)
      && Program(options).WalkChild(child, bound)
         == if dirent.Dirent? then PreOrderBelow(options, task.path + [dirent.name], task.depth + 1, dirent.tree) else []
    decreases bound, 0, 0
  {
    var child := Child(ReadDirent(options, task, dirent));
    if dirent.Dirent? {
      WorkerLimitInvisible(task.path, task.depth, dirent.name, dirent.tree, options.maxDepth);
      VisitTells(task.path + [dirent.name], task.depth + 1, dirent.tree, options.maxDepth);
      assert ListingSize([dirent]) == TreeSize(dirent.tree) by { assert [dirent][1..] == []; }
      if child.Some? {
        WalkIsPreOrder(options, child.value);
      }
    }
  }

  lemma PreOrderCons(options: WalkOptions, task: DirectoryTask, sorted: seq<Dirent>)
    requires sorted != []
    ensures PreOrderListing(options, task.path, task.depth, sorted)
         == [ReadDirent(options, task, sorted[0]).item]
            + (if sorted[0].Dirent?
               then PreOrderBelow(options, task.path + [sorted[0].name], task.depth + 1, sorted[0].tree)
               else [])
            + PreOrderListing(options, task.path, task.depth, sorted[1..])
  {
    if sorted[0].Dirent? {
      WorkerLimitInvisible(task.path, task.depth, sorted[0].name, sorted[0].tree, options.maxDepth);
    }
  }

  lemma {:induction false} EntriesArePreOrder(options: WalkOptions, task: DirectoryTask, sorted: seq<Dirent>, bound: nat)
    requires Program(options).WellFounded() && ListingSize(sorted) < bound
    ensures Program(options).Below(PrepareRows(Rows(options, task, sorted)), bound)
    ensures Program(options).WalkEntries(PrepareRows(Rows(options, task, sorted)), bound)
         == PreOrderListing(options, task.path, task.depth, sorted)
    decreases bound, 0, |sorted|
  {
    if sorted == [] {
      assert PrepareRows(Rows(options, task, sorted)) == [];
    } else {
      hide PreOrderListing, PreOrderBelow, ReadDirent, PrepareRow;
      assert [sorted[0]][1..] == [];
      var first := PrepareRow(ReadDirent(options, task, sorted[0]));
      var rest := PrepareRows(Rows(options, task, sorted[1..]));
      assert PrepareRows(Rows(options, task, sorted)) == [first] + rest;
      EntriesArePreOrder(options, task, sorted[1..], bound);
      DirentWalk(options, task, sorted[0], bound);
      PreOrderCons(options, task, sorted);
      Program(options).WalkCons(first, rest, bound);
    }
  }

  /** The order in which the operating system lists a directory never shows. */
  lemma ListingOrderIrrelevant(options: WalkOptions, task: DirectoryTask, listing: seq<Dirent>)
    requires multiset(listing) == multiset(task.listing)
    requires forall a, b | a in listing && b in listing && a != b :: !a.Broken? && !b.Broken? ==> a.name != b.name
    ensures PreOrder(options, task.path, task.depth, task.readable, listing)
         == PreOrder(options, task.path, task.depth, task.readable, task.listing)
  {
    TextStrictTotal();
    DirentOrder();
    SortSorts(DirentLess, listing);
    SortSorts(DirentLess, task.listing);
    var sorted := Sort(DirentLess, listing);
    forall a, b | a in sorted && b in sorted && a != b
      ensures DirentLess(a, b) || DirentLess(b, a)
    {
      assert a in multiset(listing) && b in multiset(listing);
    }
    SortedUnique(DirentLess, sorted, Sort(DirentLess, task.listing));
  }

  /** `read_directory` as the loop that drains the one-directory walker. */
  method ReadBatch(options: WalkOptions, task: DirectoryTask) returns (entries: seq<Row>)
    ensures entries == ReadDirectoryRows(options, task)
  {
    if !task.readable {
      return [Row(Err(WalkError(task.path, task.depth, ReadDirectory)), None)];
    }
    entries := [];
    var i := 0;
    while i < |task.listing|
      invariant 0 <= i <= |task.listing|
      invariant entries + Rows(options, task, task.listing[i..]) == Rows(options, task, task.listing)
    {
      assert task.listing[i..][1..] == task.listing[i + 1..];
      entries := entries + [ReadDirent(options, task, task.listing[i])];
      i := i + 1;
    }
  }

  function Policy(options: WalkOptions): PullScheduler.Policy<WalkItem> {
    PullScheduler.Policy(
      (item: WalkItem) =>
        item.Err? || (item.value.depth >= options.minDepth && !(item.value.isFile && item.value.stdout)),
      (item: WalkItem) => options.errorPolicy == Abort && item.Err?)
  }

  /** What a consumer is to see of a walk: every error, and the entries from `minDepth` on that are not the
      redirected output. */
  ghost function Delivered(options: WalkOptions, items: seq<WalkItem>): seq<WalkItem> {
    if items == [] then []
    else
      (match items[0]
       case Err(_) => [items[0]]
       case Ok(entry) => if entry.depth < options.minDepth || (entry.isFile && entry.stdout) then [] else [items[0]])
      + Delivered(options, items[1..])
  }

  /** The part of a walk that a consumer is to see: all of it, or under `Abort` up to the first error. */
  ghost function Stream(options: WalkOptions, walk: seq<WalkItem>): seq<WalkItem> {
    Delivered(options, match options.errorPolicy case Continue => walk case Abort => UpToError(walk))
  }

  lemma {:induction false} VisibleIsDelivered(options: WalkOptions, items: seq<WalkItem>)
    ensures Policy(options).Visible(items) == Delivered(options, items)
  {
    if items != [] { VisibleIsDelivered(options, items[1..]); }
  }

  lemma {:induction false} CutIsUpToError(options: WalkOptions, items: seq<WalkItem>)
    ensures Policy(options).Cut(items) == match options.errorPolicy case Continue => items case Abort => UpToError(items)
  {
    if items != [] { CutIsUpToError(options, items[1..]); }
  }

  /** The scheduler's policy shows exactly the stream that is meant. */
  lemma StreamIs(options: WalkOptions, walk: seq<WalkItem>)
    ensures Policy(options).Visible(Policy(options).Cut(walk)) == Stream(options, walk)
  {
    CutIsUpToError(options, walk);
    VisibleIsDelivered(options, Policy(options).Cut(walk));
  }

  /** What a complete walk of the root yields: the root, then everything below it. */
  ghost function FullWalk(options: WalkOptions, path: Path, root: Tree): seq<WalkItem> {
    [Ok(Visit(path, 0, root, options.maxDepth))] + PreOrderBelow(options, path, 0, root)
  }

  /** Below the root there is the scheduler's walk, or nothing. */
  lemma BelowRoot(options: WalkOptions, path: Path, root: Tree)
    requires Program(options).WellFounded()
    ensures PreOrderBelow(options, path, 0, root)
         == if Descends(Ok(Visit(path, 0, root, options.maxDepth)))
            then Program(options).Walk(DirectoryTask(path, 0, root.readable, root.listing)) else []
  {
    VisitTells(path, 0, root, options.maxDepth);
    if Entered(root, options.maxDepth, 0) {
      WalkIsPreOrder(options, DirectoryTask(path, 0, root.readable, root.listing));
    }
  }

  /** The directory holds a subdirectory that the walk enters. */
  ghost predicate HasSubdirectory(options: WalkOptions, task: DirectoryTask) {
    exists row | row in ReadDirectoryRows(options, task) :: Child(row).Some?
  }

  lemma FrameHasChild(options: WalkOptions, task: DirectoryTask)
    requires HasSubdirectory(options, task)
    ensures PullScheduler.HasChild(Program(options).Frame(task))
  {
    var rows := ReadDirectoryRows(options, task);
    var row :| row in rows && Child(row).Some?;
    RowOrder();
    SortSorts(RowLess, rows);
    var sorted := Sort(RowLess, rows);
    assert row in multiset(sorted);
    var i :| 0 <= i < |sorted| && sorted[i] == row;
    assert Program(options).Frame(task)[i] == PrepareRow(row);
  }

  /** `ordered_parallel`: sends the root, then lets the scheduler replay the directories.  When the executor
      refuses the first subdirectory, the stream ends behind the root and nothing tells the consumer. */
  method OrderedParallel(options: WalkOptions, path: Path, root: Tree, available: nat, parallelism: nat,
                         env: PullScheduler.Environment)
    returns (sent: seq<PullScheduler.Sent<WalkItem>>, blocked: bool, ghost taken: seq<WalkItem>, ghost interrupted: bool,
             ghost refusal: Option<PullScheduler.Caller>, ghost dropped: bool)
    requires root.File? || (root.Directory? && root.boundary.None?)
    ensures Policy(options).Streams(FullWalk(options, path, root), taken, sent, interrupted, refusal, dropped)
    ensures PullScheduler.Caused(env, interrupted, refusal, dropped)
    ensures blocked ==> interrupted && env.cancels && taken == [Ok(Visit(path, 0, root, options.maxDepth))]
    ensures PullScheduler.BeginningOf(Stream(options, FullWalk(options, path, root)), sent)
    ensures env.Calm() ==> !blocked && sent == PullScheduler.SentItems(Stream(options, FullWalk(options, path, root)))
    ensures !env.cancels && !env.hangsUp && Descends(Ok(Visit(path, 0, root, options.maxDepth))) ==>
      var item: WalkItem := Ok(Visit(path, 0, root, options.maxDepth));
      && !blocked
      && (!env.accepts(0) ==>
            sent == PullScheduler.SentItems(Policy(options).Visible([item])) + [PullScheduler.SentScheduleError])
      && (env.accepts(0) && !env.accepts(1)
          && HasSubdirectory(options, DirectoryTask(path, 0, root.readable, root.listing)) ==>
            refusal.Some? && sent == PullScheduler.SentItems(Policy(options).Visible([item])))
  {
    hide PullScheduler.OrderedScheduler.Valid, PullScheduler.Program.Walk, PullScheduler.Program.WellFounded;
    hide HasSubdirectory, ReadDirectoryRows, PreOrderBelow, PullScheduler.HasChild;
    FiniteTree(options);
    BelowRoot(options, path, root);
    var policy := Policy(options);
    ghost var walk := FullWalk(options, path, root);
    StreamIs(options, walk);
    var rootItem: WalkItem := Ok(Visit(path, 0, root, options.maxDepth));
    sent, blocked, taken, interrupted, refusal, dropped := [], false, [], false, None, false;
    if policy.visible(rootItem) {
      var delivered: bool := *;
      if env.hangsUp && !delivered {
        interrupted, dropped := true, true;
        policy.StreamsBegin(walk, taken, sent, interrupted, refusal, dropped);
        return;
      }
      sent := [PullScheduler.SentItem(rootItem)];
    }
    taken := [rootItem];
    assert policy.Visible(taken) == if policy.visible(rootItem) then taken else [];
    assert sent == PullScheduler.SentItems(policy.Visible(taken));
    policy.CutAppend(taken, PreOrderBelow(options, path, 0, root));
    var cancelled: bool := *;
    cancelled := cancelled && env.cancels;
    if !Descends(rootItem) || cancelled {
      interrupted := Descends(rootItem) && cancelled;
      policy.StreamsBegin(walk, taken, sent, interrupted, refusal, dropped);
      return;
    }
    var task := DirectoryTask(path, 0, root.readable, root.listing);
    if HasSubdirectory(options, task) { FrameHasChild(options, task); }
    var limit := PullScheduler.RequestedWorkers(available, parallelism, options.maxOpen, 8);
    var scheduler := new PullScheduler.OrderedScheduler(Program(options), policy, limit, task, sent, env);
    blocked, taken := scheduler.Run(task, taken);
    sent, interrupted, refusal, dropped := scheduler.sent, scheduler.interrupted, scheduler.refusal, scheduler.dropped;
    policy.StreamsBegin(walk, taken, sent, interrupted, refusal, dropped);
  }

  /** A run whose refusal nobody learns of: the root holds a directory with a file, and the executor takes the
      root only.  The consumer gets the root and the end of the stream instead of three entries. */
  method RefusalUnreported() returns (sent: seq<PullScheduler.Sent<WalkItem>>)
    ensures |FullWalk(WalkOptions(0, None, 1, Continue), ["r"], NESTED)| == 3
    ensures sent == [PullScheduler.SentItem(Ok(Visit(["r"], 0, NESTED, None)))]
  {
    var options := WalkOptions(0, None, 1, Continue);
    ghost var walk := FullWalk(options, ["r"], NESTED);
    NestedWalk(options);
    var env := PullScheduler.Environment(false, false, id => id == 0);
    var blocked;
    ghost var taken, interrupted, refusal, dropped;
    sent, blocked, taken, interrupted, refusal, dropped := OrderedParallel(options, ["r"], NESTED, 1, 1, env);
    assert Policy(options).Visible([walk[0]]) == [walk[0]];
  }

  const NESTED := Directory(None, true, [Dirent("a", Directory(None, true, [Dirent("f", File(false))]))])

  lemma NestedWalk(options: WalkOptions)
    requires options == WalkOptions(0, None, 1, Continue)
    ensures var walk := FullWalk(options, ["r"], NESTED);
      |walk| == 3 && Descends(walk[0]) && walk[0] == Ok(Visit(["r"], 0, NESTED, None))
    ensures HasSubdirectory(options, DirectoryTask(["r"], 0, true, NESTED.listing))
  {
    var rows := ReadDirectoryRows(options, DirectoryTask(["r"], 0, true, NESTED.listing));
    assert |rows| == 1 && rows[0] in rows && Child(rows[0]).Some?;
  }

  /** A cancellation between the root and the first refill leaves the walk waiting for good. */
  method CancelledRunBlocks(options: WalkOptions, path: Path, root: Tree, limit: nat) returns (blocked: bool)
    requires root.Directory? && limit >= 1
    ensures blocked
  {
    FiniteTree(options);
    var task := DirectoryTask(path, 0, root.readable, root.listing);
    var env := PullScheduler.Environment(true, false, _ => true);
    var scheduler := new PullScheduler.OrderedScheduler(Program(options), Policy(options), limit, task, [], env);
    scheduler.cancelled, scheduler.interrupted := true, true;
    ghost var taken;
    blocked, taken := scheduler.Run(task, []);
  }
}
