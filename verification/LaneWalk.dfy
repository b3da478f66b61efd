/**
 The collected parallel walk: a shallow read, frontier expansion until there is work for every worker,
 and lanes whose outputs are reassembled in task order.
 */
module LaneWalk {
  import opened Wrappers
  import opened FileTree
  import Ordering
  import OrderedPull

  datatype DirectoryTask = DirectoryTask(path: Path, depth: nat, tree: Tree)

  datatype ShallowWalk = ShallowWalk(entries: seq<WalkEntry>, errors: seq<WalkError>, tasks: seq<DirectoryTask>)

  datatype Report = Report(entries: seq<WalkEntry>, errors: seq<WalkError>)

  // The serial walk ----------------------------------------------------------------------------

  /** Everything below a directory, in the order a serial walk meets it. */
  function Below(path: Path, depth: nat, tree: Tree, maxDepth: Option<nat>): seq<WalkItem>
    requires tree.Directory?
    decreases tree, 1
  {
    if !tree.readable then [Err(WalkError(path, depth, ReadDirectory))]
    else Listed(path, depth, tree.listing, maxDepth)
  }

  function Listed(path: Path, depth: nat, listing: seq<Dirent>, maxDepth: Option<nat>): seq<WalkItem>
    decreases listing, 0
  {
    if listing == [] then [] else One(path, depth, listing[0], maxDepth) + Listed(path, depth, listing[1..], maxDepth)
  }

  /** One directory entry and everything below it. */
  function One(path: Path, depth: nat, dirent: Dirent, maxDepth: Option<nat>): seq<WalkItem>
    decreases dirent, 2
  {
    match dirent
    case Broken => [Err(WalkError(path, depth + 1, ReadEntry))]
    case Untyped(name) => [Err(WalkError(path + [name], depth + 1, ReadMetadata))]
    case Dirent(name, tree) =>
      var entry := Visit(path + [name], depth + 1, tree, maxDepth);
      [Ok(entry)] + (if Descends(Ok(entry)) then Below(path + [name], depth + 1, tree, maxDepth) else [])
  }

  function Whole(path: Path, tree: Tree, maxDepth: Option<nat>): seq<WalkItem> {
    var entry := Visit(path, 0, tree, maxDepth);
    [Ok(entry)] + (if Descends(Ok(entry)) then Below(path, 0, tree, maxDepth) else [])
  }

  /** Entries above the minimal depth are left out, errors never. */
  function Shown(items: seq<WalkItem>, minDepth: nat): seq<WalkItem> {
    if items == [] then [] else ShownItem(items[0], minDepth) + Shown(items[1..], minDepth)
  }

  function ShownItem(item: WalkItem, minDepth: nat): seq<WalkItem> {
    if item.Err? || item.value.depth >= minDepth then [item] else []
  }

  lemma {:induction false} ShownAppend(a: seq<WalkItem>, b: seq<WalkItem>, minDepth: nat)
    ensures Shown(a + b, minDepth) == Shown(a, minDepth) + Shown(b, minDepth)
  {
    hide ShownItem;
    if a == [] {
      assert a + b == b;
    } else {
      assert (a + b)[0] == a[0] && (a + b)[1..] == a[1..] + b;
      ShownAppend(a[1..], b, minDepth);
      var head, rest, last := ShownItem(a[0], minDepth), Shown(a[1..], minDepth), Shown(b, minDepth);
      assert head + rest + last == head + (rest + last);
    }
  }

  function Entries(items: seq<WalkItem>): seq<WalkEntry> {
    if items == [] then [] else (if items[0].Ok? then [items[0].value] else []) + Entries(items[1..])
  }

  function Errors(items: seq<WalkItem>): seq<WalkError> {
    if items == [] then [] else (if items[0].Err? then [items[0].error] else []) + Errors(items[1..])
  }

  /** What one task will report. */
  function TaskItems(task: DirectoryTask, options: WalkOptions): seq<WalkItem> {
    if task.tree.Directory? then Shown(Below(task.path, task.depth, task.tree, options.maxDepth), options.minDepth) else []
  }

  // Conservation -------------------------------------------------------------------------------

  function Oks(entries: seq<WalkEntry>): seq<WalkItem> { seq(|entries|, i requires 0 <= i < |entries| => Ok(entries[i])) }

  function Errs(errors: seq<WalkError>): seq<WalkItem> { seq(|errors|, i requires 0 <= i < |errors| => Err(errors[i])) }

  ghost function Held(entries: seq<WalkEntry>, errors: seq<WalkError>): multiset<WalkItem> {
    multiset(Oks(entries)) + multiset(Errs(errors))
  }

  /** Everything below the pending tasks. */
  ghost function Pending(tasks: seq<DirectoryTask>, options: WalkOptions): multiset<WalkItem> {
    if tasks == [] then multiset{}
    else Pending(tasks[..|tasks| - 1], options) + multiset(TaskItems(tasks[|tasks| - 1], options))
  }

  /** What has been reported and what the tasks will report. */
  ghost function Total(shallow: ShallowWalk, options: WalkOptions): multiset<WalkItem> {
    Held(shallow.entries, shallow.errors) + Pending(shallow.tasks, options)
  }

  lemma HoldEntry(entries: seq<WalkEntry>, errors: seq<WalkError>, entry: WalkEntry)
    ensures Held(entries + [entry], errors) == Held(entries, errors) + multiset{Ok(entry)}
  {
    assert Oks(entries + [entry]) == Oks(entries) + [Ok(entry)];
  }

  lemma HoldError(entries: seq<WalkEntry>, errors: seq<WalkError>, error: WalkError)
    ensures Held(entries, errors + [error]) == Held(entries, errors) + multiset{Err(error)}
  {
    assert Errs(errors + [error]) == Errs(errors) + [Err(error)];
  }

  lemma PendTask(tasks: seq<DirectoryTask>, task: DirectoryTask, options: WalkOptions)
    ensures Pending(tasks + [task], options) == Pending(tasks, options) + multiset(TaskItems(task, options))
  {
    assert (tasks + [task])[..|tasks|] == tasks;
  }

  /** The options a shallow read works with are normalized: a task is pushed only if its directory may be entered. */
  function ReadItem(path: Path, depth: nat, dirent: Dirent, maxDepth: Option<nat>): WalkItem {
    match dirent
    case Broken => Err(WalkError(path, depth + 1, ReadEntry))
    case Untyped(name) => Err(WalkError(path + [name], depth + 1, ReadMetadata))
    case Dirent(name, tree) => Ok(Visit(path + [name], depth + 1, tree, WorkerMaxDepth(maxDepth, depth)))
  }

  /** `can_descend`: only the reader's own limit has stopped it here. */
  predicate CanDescend(entry: WalkEntry, maxDepth: Option<nat>) {
    entry.isDirectory && entry.skip == Some(MaxDepth) && (maxDepth.None? || entry.depth < maxDepth.value)
  }

  /** What one directory entry adds to the shallow walk. */
  function Added(shallow: ShallowWalk, path: Path, depth: nat, dirent: Dirent, options: WalkOptions): ShallowWalk {
    match ReadItem(path, depth, dirent, options.maxDepth)
    case Err(error) => shallow.(errors := shallow.errors + [error])
    case Ok(entry) =>
      var descend := CanDescend(entry, options.maxDepth);
      var shown := if descend then entry.(skip := None) else entry;
      shallow.(
        tasks := if descend then shallow.tasks + [DirectoryTask(entry.path, entry.depth, dirent.tree)] else shallow.tasks,
        entries := if shown.depth >= options.minDepth then shallow.entries + [shown] else shallow.entries)
  }

  /** The shallow read of an entry keeps everything that the serial walk would report for it. */
  lemma AddedConserves(shallow: ShallowWalk, path: Path, depth: nat, dirent: Dirent, options: WalkOptions)
    requires options.maxDepth.Some? ==> depth < options.maxDepth.value
    ensures Total(Added(shallow, path, depth, dirent, options), options)
         == Total(shallow, options) + multiset(Shown(One(path, depth, dirent, options.maxDepth), options.minDepth))
    ensures Size(Added(shallow, path, depth, dirent, options).tasks) <= Size(shallow.tasks) + DirentSize(dirent)
  {
    hide Held, Pending, TaskItems, Below;
    match ReadItem(path, depth, dirent, options.maxDepth)
    case Err(error) =>
      HoldError(shallow.entries, shallow.errors, error);
      var item: WalkItem := Err(error);
      assert [item][1..] == [];
      assert Shown([item], options.minDepth) == [item];
      Shuffle(Held(shallow.entries, shallow.errors), Pending(shallow.tasks, options), multiset{item}, multiset{});
    case Ok(entry) =>
      AddedEntry(shallow, path, depth, dirent, options);
  }

  /** The entry of a named directory entry, and what is below it if it may be entered. */
  function Named(path: Path, depth: nat, dirent: Dirent, maxDepth: Option<nat>): WalkEntry
    requires dirent.Dirent?
  {
    Visit(path + [dirent.name], depth + 1, dirent.tree, maxDepth)
  }

  function Rest(path: Path, depth: nat, dirent: Dirent, maxDepth: Option<nat>): seq<WalkItem>
    requires dirent.Dirent?
  {
    if Descends(Ok(Named(path, depth, dirent, maxDepth))) then Below(path + [dirent.name], depth + 1, dirent.tree, maxDepth)
    else []
  }

  lemma OneIs(path: Path, depth: nat, dirent: Dirent, options: WalkOptions)
    requires dirent.Dirent?
    ensures var entry := Named(path, depth, dirent, options.maxDepth);
      multiset(Shown(One(path, depth, dirent, options.maxDepth), options.minDepth))
      == (if entry.depth >= options.minDepth then multiset{Ok(entry)} else multiset{})
         + multiset(Shown(Rest(path, depth, dirent, options.maxDepth), options.minDepth))
  {
    hide Below, Visit;
    var entry := Named(path, depth, dirent, options.maxDepth);
    ShownAppend([Ok(entry)], Rest(path, depth, dirent, options.maxDepth), options.minDepth);
    ShownOne(entry, options.minDepth);
  }

  /** The limited read shows the same entry and pushes a task exactly when the walk would enter it. */
  lemma AddedIs(shallow: ShallowWalk, path: Path, depth: nat, dirent: Dirent, options: WalkOptions)
    requires (options.maxDepth.Some? ==> depth < options.maxDepth.value) && dirent.Dirent?
    ensures var entry := Named(path, depth, dirent, options.maxDepth);
      var task := DirectoryTask(entry.path, entry.depth, dirent.tree);
      Added(shallow, path, depth, dirent, options)
      == ShallowWalk(
           if entry.depth >= options.minDepth then shallow.entries + [entry] else shallow.entries,
           shallow.errors,
           if Descends(Ok(entry)) then shallow.tasks + [task] else shallow.tasks)
  {
  }

  lemma AddedEntry(shallow: ShallowWalk, path: Path, depth: nat, dirent: Dirent, options: WalkOptions)
    requires (options.maxDepth.Some? ==> depth < options.maxDepth.value) && dirent.Dirent?
    ensures Total(Added(shallow, path, depth, dirent, options), options)
         == Total(shallow, options) + multiset(Shown(One(path, depth, dirent, options.maxDepth), options.minDepth))
    ensures Size(Added(shallow, path, depth, dirent, options).tasks) <= Size(shallow.tasks) + DirentSize(dirent)
  {
    AddedIs(shallow, path, depth, dirent, options);
    OneIs(path, depth, dirent, options);
    var entry := Named(path, depth, dirent, options.maxDepth);
    var task := DirectoryTask(entry.path, entry.depth, dirent.tree);
    var rest := Shown(Rest(path, depth, dirent, options.maxDepth), options.minDepth);
    TaskIsRest(path, depth, dirent, options);
    hide Added, One, Held, Pending, Below, Size, TaskItems, Rest, Visit, Shown, Named;
    PendTask(shallow.tasks, task, options);
    SizeAppend(shallow.tasks, task);
    HoldEntry(shallow.entries, shallow.errors, entry);
    Shuffle(Held(shallow.entries, shallow.errors), Pending(shallow.tasks, options),
            if entry.depth >= options.minDepth then multiset{Ok(entry)} else multiset{}, multiset(rest));
  }

  lemma TaskIsRest(path: Path, depth: nat, dirent: Dirent, options: WalkOptions)
    requires dirent.Dirent?
    ensures var entry := Named(path, depth, dirent, options.maxDepth);
      var rest := Shown(Rest(path, depth, dirent, options.maxDepth), options.minDepth);
      if Descends(Ok(entry)) then TaskItems(DirectoryTask(entry.path, entry.depth, dirent.tree), options) == rest
      else rest == []
  {
  }

  lemma ShownOne(entry: WalkEntry, minDepth: nat)
    ensures Shown([Ok(entry)], minDepth) == if entry.depth >= minDepth then [Ok(entry)] else []
  {
  }

  lemma Shuffle<T>(a: multiset<T>, b: multiset<T>, c: multiset<T>, d: multiset<T>)
    ensures (a + c) + (b + d) == (a + b) + (c + d) && (a + c) + b == (a + b) + c && a + (b + d) == (a + b) + d
  {
  }

  function DirentSize(dirent: Dirent): nat { if dirent.Dirent? then TreeSize(dirent.tree) else 0 }

  function Size(tasks: seq<DirectoryTask>): nat {
    if tasks == [] then 0 else Size(tasks[..|tasks| - 1]) + TreeSize(tasks[|tasks| - 1].tree)
  }

  lemma SizeAppend(tasks: seq<DirectoryTask>, task: DirectoryTask)
    ensures Size(tasks + [task]) == Size(tasks) + TreeSize(task.tree)
  {
    assert (tasks + [task])[..|tasks|] == tasks;
  }

  /** The tasks of a walk may be entered. */
  ghost predicate Enterable(tasks: seq<DirectoryTask>, options: WalkOptions) {
    forall t | t in tasks :: t.tree.Directory? && t.tree.boundary.None? && (options.maxDepth.Some? ==> t.depth < options.maxDepth.value)
  }

  /** The task of a directory entry that may be entered. */
  function ChildOf(path: Path, depth: nat, dirent: Dirent, maxDepth: Option<nat>): seq<DirectoryTask> {
    if dirent.Dirent? && Descends(Ok(Named(path, depth, dirent, maxDepth)))
    then [DirectoryTask(path + [dirent.name], depth + 1, dirent.tree)] else []
  }

  /** The subdirectories that become tasks. */
  function Subdirectories(path: Path, depth: nat, listing: seq<Dirent>, maxDepth: Option<nat>): seq<DirectoryTask> {
    if listing == [] then []
    else
      Subdirectories(path, depth, listing[..|listing| - 1], maxDepth) + ChildOf(path, depth, listing[|listing| - 1], maxDepth)
  }

  function Children(task: DirectoryTask, options: WalkOptions): seq<DirectoryTask>
    requires task.tree.Directory?
  {
    if task.tree.readable then Subdirectories(task.path, task.depth, task.tree.listing, options.maxDepth) else []
  }

  /** Reading the directory itself meets an error. */
  predicate ReadFails(tree: Tree)
    requires tree.Directory?
  {
    !tree.readable || exists d | d in tree.listing :: !d.Dirent?
  }

  /** `expand_task`: one directory is read, its subdirectories become tasks. */
  method ExpandTask(task: DirectoryTask, options: WalkOptions, before: ShallowWalk) returns (shallow: ShallowWalk)
    requires task.tree.Directory? && (options.maxDepth.Some? ==> task.depth < options.maxDepth.value)
    requires Enterable(before.tasks, options)
    ensures Total(shallow, options) == Total(before, options) + multiset(TaskItems(task, options))
    ensures Enterable(shallow.tasks, options) && Size(shallow.tasks) < Size(before.tasks) + TreeSize(task.tree)
    ensures shallow.tasks == before.tasks + Children(task, options)
    ensures shallow.errors == [] <==> before.errors == [] && !ReadFails(task.tree)
  {
    hide Total, Added, One, Size;
    shallow := before;
    if !task.tree.readable {
      var error := WalkError(task.path, task.depth, ReadDirectory);
      UnreadableConserves(task, options, shallow);
      return shallow.(errors := shallow.errors + [error]);
    }
    var listing := task.tree.listing;
    ghost var path, depth := task.path, task.depth;
    ShownNothing(options.minDepth);
    assert listing[..0] == [];
    for i := 0 to |listing|
      invariant Enterable(shallow.tasks, options)
      invariant Total(shallow, options)
             == Total(before, options) + multiset(Shown(Listed(path, depth, listing[..i], options.maxDepth), options.minDepth))
      invariant Size(shallow.tasks) <= Size(before.tasks) + ListingSize(listing[..i])
      invariant shallow.tasks == before.tasks + Subdirectories(path, depth, listing[..i], options.maxDepth)
      invariant shallow.errors == [] <==> before.errors == [] && forall d | d in listing[..i] :: d.Dirent?
    {
      AddedTasks(shallow, before.tasks, path, depth, listing, i, options);
      AddedConserves(shallow, task.path, task.depth, listing[i], options);
      AddedEnterable(shallow, task.path, task.depth, listing[i], options);
      ListedSnoc(path, depth, listing, i, options);
      shallow := Added(shallow, task.path, task.depth, listing[i], options);
    }
    assert listing[..|listing|] == listing;
  }

  lemma AddedTasks(shallow: ShallowWalk, before: seq<DirectoryTask>, path: Path, depth: nat, listing: seq<Dirent>, i: nat,
                   options: WalkOptions)
    requires i < |listing| && (options.maxDepth.Some? ==> depth < options.maxDepth.value)
    requires shallow.tasks == before + Subdirectories(path, depth, listing[..i], options.maxDepth)
    ensures Added(shallow, path, depth, listing[i], options).tasks
         == before + Subdirectories(path, depth, listing[..i + 1], options.maxDepth)
    ensures Added(shallow, path, depth, listing[i], options).errors == [] <==> shallow.errors == [] && listing[i].Dirent?
    ensures listing[..i + 1] == listing[..i] + [listing[i]]
  {
    hide Added, ChildOf;
    AddedTask(shallow, path, depth, listing[i], options);
    assert listing[..i + 1][..i] == listing[..i] && listing[..i + 1][i] == listing[i];
    var child, init := ChildOf(path, depth, listing[i], options.maxDepth), Subdirectories(path, depth, listing[..i], options.maxDepth);
    assert before + init + child == before + (init + child);
  }

  lemma AddedTask(shallow: ShallowWalk, path: Path, depth: nat, dirent: Dirent, options: WalkOptions)
    requires options.maxDepth.Some? ==> depth < options.maxDepth.value
    ensures Added(shallow, path, depth, dirent, options).tasks == shallow.tasks + ChildOf(path, depth, dirent, options.maxDepth)
    ensures Added(shallow, path, depth, dirent, options).errors == [] <==> shallow.errors == [] && dirent.Dirent?
  {
    if dirent.Dirent? {
      AddedIs(shallow, path, depth, dirent, options);
      NamedIs(path, depth, dirent, options.maxDepth);
      hide Added, Visit, Descends;
    }
  }

  lemma NamedIs(path: Path, depth: nat, dirent: Dirent, maxDepth: Option<nat>)
    requires dirent.Dirent?
    ensures var entry := Named(path, depth, dirent, maxDepth); entry.path == path + [dirent.name] && entry.depth == depth + 1
  {
  }

  lemma ShownNothing(minDepth: nat)
    ensures Shown([], minDepth) == []
  {
  }

  lemma UnreadableConserves(task: DirectoryTask, options: WalkOptions, shallow: ShallowWalk)
    requires task.tree.Directory? && !task.tree.readable
    ensures var error := WalkError(task.path, task.depth, ReadDirectory);
      Total(shallow.(errors := shallow.errors + [error]), options) == Total(shallow, options) + multiset(TaskItems(task, options))
  {
    var error := WalkError(task.path, task.depth, ReadDirectory);
    var item: WalkItem := Err(error);
    HoldError(shallow.entries, shallow.errors, error);
    assert [item][1..] == [];
    assert Below(task.path, task.depth, task.tree, options.maxDepth) == [item] && Shown([item], options.minDepth) == [item];
    Shuffle(Held(shallow.entries, shallow.errors), Pending(shallow.tasks, options), multiset{item}, multiset{});
  }

  lemma AddedEnterable(shallow: ShallowWalk, path: Path, depth: nat, dirent: Dirent, options: WalkOptions)
    requires Enterable(shallow.tasks, options)
    ensures Enterable(Added(shallow, path, depth, dirent, options).tasks, options)
  {
    if dirent.Dirent? && dirent.tree.Directory? {
      match dirent.tree.boundary
      case None =>
      case Some(OtherFileSystem) =>
      case Some(OutsideRoot) =>
    }
  }

  lemma {:induction false} ListedAppend(path: Path, depth: nat, a: seq<Dirent>, b: seq<Dirent>, maxDepth: Option<nat>)
    ensures Listed(path, depth, a + b, maxDepth) == Listed(path, depth, a, maxDepth) + Listed(path, depth, b, maxDepth)
    ensures ListingSize(a + b) == ListingSize(a) + ListingSize(b)
    decreases |a|
  {
    if a == [] {
      assert a + b == b;
    } else {
      hide One;
      assert (a + b)[0] == a[0] && (a + b)[1..] == a[1..] + b;
      ListedAppend(path, depth, a[1..], b, maxDepth);
      var head, rest, last :=
        One(path, depth, a[0], maxDepth), Listed(path, depth, a[1..], maxDepth), Listed(path, depth, b, maxDepth);
      assert head + rest + last == head + (rest + last);
    }
  }

  lemma ListedSnoc(path: Path, depth: nat, listing: seq<Dirent>, i: nat, options: WalkOptions)
    requires i < |listing|
    ensures multiset(Shown(Listed(path, depth, listing[..i + 1], options.maxDepth), options.minDepth))
         == multiset(Shown(Listed(path, depth, listing[..i], options.maxDepth), options.minDepth))
            + multiset(Shown(One(path, depth, listing[i], options.maxDepth), options.minDepth))
    ensures ListingSize(listing[..i + 1]) == ListingSize(listing[..i]) + DirentSize(listing[i])
  {
    assert listing[..i + 1] == listing[..i] + [listing[i]];
    ListedAppend(path, depth, listing[..i], [listing[i]], options.maxDepth);
    ListedOne(path, depth, listing[i], options.maxDepth);
    ShownAppend(Listed(path, depth, listing[..i], options.maxDepth), One(path, depth, listing[i], options.maxDepth),
                options.minDepth);
  }

  lemma ListedOne(path: Path, depth: nat, dirent: Dirent, maxDepth: Option<nat>)
    ensures Listed(path, depth, [dirent], maxDepth) == One(path, depth, dirent, maxDepth)
    ensures ListingSize([dirent]) == DirentSize(dirent)
  {
  }

  /** The tasks after one round of expansion. */
  function Round(tasks: seq<DirectoryTask>, options: WalkOptions): seq<DirectoryTask>
    requires forall t | t in tasks :: t.tree.Directory?
  {
    if tasks == [] then []
    else
      assert tasks[|tasks| - 1] in tasks;
      Round(tasks[..|tasks| - 1], options) + Children(tasks[|tasks| - 1], options)
  }

  lemma SizeConcat(a: seq<DirectoryTask>, b: seq<DirectoryTask>)
    ensures Size(a + b) == Size(a) + Size(b)
    decreases |b|
  {
    if b == [] {
      assert a + b == a;
    } else {
      assert (a + b)[..|a + b| - 1] == a + b[..|b| - 1];
      SizeConcat(a, b[..|b| - 1]);
    }
  }

  lemma NamedDirectory(path: Path, depth: nat, dirent: Dirent, maxDepth: Option<nat>)
    requires dirent.Dirent?
    ensures Descends(Ok(Named(path, depth, dirent, maxDepth))) ==> dirent.tree.Directory?
  {
  }

  lemma ListingSizeSnoc(listing: seq<Dirent>)
    requires listing != []
    ensures ListingSize(listing) == ListingSize(listing[..|listing| - 1]) + DirentSize(listing[|listing| - 1])
  {
    var init, last := listing[..|listing| - 1], listing[|listing| - 1];
    assert listing == init + [last];
    ListedAppend([], 0, init, [last], None);
    ListedOne([], 0, last, None);
  }

  lemma {:induction false} SubdirectoriesShrink(path: Path, depth: nat, listing: seq<Dirent>, maxDepth: Option<nat>)
    ensures Size(Subdirectories(path, depth, listing, maxDepth)) <= ListingSize(listing)
    ensures forall t | t in Subdirectories(path, depth, listing, maxDepth) :: t.tree.Directory?
    decreases |listing|
  {
    if listing != [] {
      hide Visit, Descends, TreeSize, ListingSize, Size;
      var init, last := listing[..|listing| - 1], listing[|listing| - 1];
      SubdirectoriesShrink(path, depth, init, maxDepth);
      ListingSizeSnoc(listing);
      var before := Subdirectories(path, depth, init, maxDepth);
      if last.Dirent? && Descends(Ok(Named(path, depth, last, maxDepth))) {
        var task := DirectoryTask(path + [last.name], depth + 1, last.tree);
        NamedDirectory(path, depth, last, maxDepth);
        SizeAppend(before, task);
        assert Subdirectories(path, depth, listing, maxDepth) == before + [task];
      } else {
        assert Subdirectories(path, depth, listing, maxDepth) == before;
      }
    }
  }

  lemma {:induction false} RoundShrinks(tasks: seq<DirectoryTask>, options: WalkOptions)
    requires forall t | t in tasks :: t.tree.Directory?
    ensures Size(Round(tasks, options)) + |tasks| <= Size(tasks)
    ensures forall t | t in Round(tasks, options) :: t.tree.Directory?
  {
    if tasks != [] {
      var init, last := tasks[..|tasks| - 1], tasks[|tasks| - 1];
      RoundShrinks(init, options);
      assert last in tasks;
      if last.tree.readable { SubdirectoriesShrink(last.path, last.depth, last.tree.listing, options.maxDepth); }
      SizeConcat(Round(init, options), Children(last, options));
    }
  }

  /** The frontier: rounds until there are enough tasks or none. */
  function Frontier(tasks: seq<DirectoryTask>, options: WalkOptions, targetTasks: nat): seq<DirectoryTask>
    requires forall t | t in tasks :: t.tree.Directory?
    decreases Size(tasks)
  {
    RoundShrinks(tasks, options);
    if tasks == [] || |tasks| >= targetTasks then tasks else Frontier(Round(tasks, options), options, targetTasks)
  }

  /** `expand_frontier`: rounds of expansion conserve the walk, whatever the target. */
  method ExpandFrontier(start: ShallowWalk, options: WalkOptions, targetTasks: nat) returns (shallow: ShallowWalk)
    requires Enterable(start.tasks, options)
    ensures Total(shallow, options) == Total(start, options) && Enterable(shallow.tasks, options)
    ensures shallow.tasks == Frontier(start.tasks, options, targetTasks)
  {
    hide Total, Round;
    shallow := start;
    while shallow.tasks != [] && |shallow.tasks| < targetTasks
      invariant Total(shallow, options) == Total(start, options) && Enterable(shallow.tasks, options)
      invariant Frontier(start.tasks, options, targetTasks) == Frontier(shallow.tasks, options, targetTasks)
      decreases Size(shallow.tasks)
    {
      shallow := ExpandRound(shallow, options);
    }
  }

  /** One round: every task of the frontier is replaced by its subdirectories. */
  method ExpandRound(start: ShallowWalk, options: WalkOptions) returns (shallow: ShallowWalk)
    requires Enterable(start.tasks, options) && start.tasks != []
    ensures Total(shallow, options) == Total(start, options) && Enterable(shallow.tasks, options)
    ensures Size(shallow.tasks) < Size(start.tasks) && shallow.tasks == Round(start.tasks, options)
  {
    hide Total, TaskItems, Children;
    var current := start.tasks;
    shallow := start.(tasks := []);
    RoundStarts(start, options);
    for i := 0 to |current|
      invariant Enterable(shallow.tasks, options)
      invariant Total(shallow, options) == Total(start.(tasks := []), options) + Pending(current[..i], options)
      invariant Size(shallow.tasks) + i <= Size(current[..i])
      invariant shallow.tasks == Round(current[..i], options)
    {
      assert current[i] in current && current[..i + 1][..i] == current[..i];
      Shuffle(Total(start.(tasks := []), options), Pending(current[..i], options), multiset{},
              multiset(TaskItems(current[i], options)));
      shallow := ExpandTask(current[i], options, shallow);
    }
    assert current[..|current|] == current;
  }

  lemma RoundStarts(start: ShallowWalk, options: WalkOptions)
    ensures Total(start, options) == Total(start.(tasks := []), options) + Pending(start.tasks, options)
    ensures Pending(start.tasks[..0], options) == multiset{}
  {
  }

  /** The tasks of the shallow read. */
  function RootTasks(path: Path, tree: Tree, options: WalkOptions): seq<DirectoryTask> {
    if Descends(Ok(Visit(path, 0, tree, options.maxDepth))) then Children(DirectoryTask(path, 0, tree), options) else []
  }

  /** The shallow read meets an error. */
  predicate RootFails(path: Path, tree: Tree, options: WalkOptions) {
    Descends(Ok(Visit(path, 0, tree, options.maxDepth))) && ReadFails(tree)
  }

  /** `collect_shallow`: the root and its direct children. */
  method CollectShallow(path: Path, tree: Tree, options: WalkOptions) returns (shallow: ShallowWalk)
    ensures Total(shallow, options) == multiset(Shown(Whole(path, tree, options.maxDepth), options.minDepth))
    ensures Enterable(shallow.tasks, options) && shallow.tasks == RootTasks(path, tree, options)
    ensures shallow.errors == [] <==> !RootFails(path, tree, options)
  {
    hide Total, Below, Children, ReadFails;
    var limit := if options.maxDepth.Some? && options.maxDepth.value < 1 then options.maxDepth.value else 1;
    var root := Visit(path, 0, tree, Some(limit));
    RootRead(path, tree, options, limit);
    shallow := ShallowWalk([], [], []);
    if root.depth >= options.minDepth {
      shallow := shallow.(entries := [root]);
    }
    if Descends(Ok(root)) {
      shallow := ExpandTask(DirectoryTask(path, 0, tree), options, shallow);
    }
  }

  lemma RootRead(path: Path, tree: Tree, options: WalkOptions, limit: nat)
    requires limit == if options.maxDepth.Some? && options.maxDepth.value < 1 then options.maxDepth.value else 1
    ensures var root := Visit(path, 0, tree, Some(limit));
      && root == Visit(path, 0, tree, options.maxDepth)
      && Total(ShallowWalk(if root.depth >= options.minDepth then [root] else [], [], []), options)
         + (if Descends(Ok(root)) then multiset(TaskItems(DirectoryTask(path, 0, tree), options)) else multiset{})
         == multiset(Shown(Whole(path, tree, options.maxDepth), options.minDepth))
  {
    hide Below, TaskItems, Total, Whole, Shown, Visit;
    var root := Visit(path, 0, tree, options.maxDepth);
    var first := if root.depth >= options.minDepth then [root] else [];
    RootVisit(path, tree, options.maxDepth, limit);
    WholeShown(path, tree, options);
    TotalOfRoot(first, options);
  }

  lemma RootVisit(path: Path, tree: Tree, maxDepth: Option<nat>, limit: nat)
    requires limit == if maxDepth.Some? && maxDepth.value < 1 then maxDepth.value else 1
    ensures Visit(path, 0, tree, Some(limit)) == Visit(path, 0, tree, maxDepth)
  {
  }

  lemma TotalOfRoot(first: seq<WalkEntry>, options: WalkOptions)
    ensures Total(ShallowWalk(first, [], []), options) == multiset(Oks(first))
  {
    assert Errs([]) == [];
  }

  lemma WholeShown(path: Path, tree: Tree, options: WalkOptions)
    ensures var root := Visit(path, 0, tree, options.maxDepth);
      var first := if root.depth >= options.minDepth then [root] else [];
      multiset(Shown(Whole(path, tree, options.maxDepth), options.minDepth))
      == multiset(Oks(first))
         + (if Descends(Ok(root)) then multiset(TaskItems(DirectoryTask(path, 0, tree), options)) else multiset{})
  {
    var root := Visit(path, 0, tree, options.maxDepth);
    var below := if Descends(Ok(root)) then Below(path, 0, tree, options.maxDepth) else [];
    var first := if root.depth >= options.minDepth then [root] else [];
    hide Below, Shown, Visit;
    ShownAppend([Ok(root)], below, options.minDepth);
    ShownOne(root, options.minDepth);
    ShownNothing(options.minDepth);
    assert Oks(first) == Shown([Ok(root)], options.minDepth);
  }

  // Lanes --------------------------------------------------------------------------------------

  datatype Segment = Segment(entries: nat, errors: nat)

  datatype LaneReport = LaneReport(report: Report, segments: seq<Segment>)

  /** The entries of some tasks, one task after the other. */
  function TaskEntries(tasks: seq<DirectoryTask>, options: WalkOptions): seq<WalkEntry> {
    if tasks == [] then [] else Entries(TaskItems(tasks[0], options)) + TaskEntries(tasks[1..], options)
  }

  function TaskErrors(tasks: seq<DirectoryTask>, options: WalkOptions): seq<WalkError> {
    if tasks == [] then [] else Errors(TaskItems(tasks[0], options)) + TaskErrors(tasks[1..], options)
  }

  function Segments(tasks: seq<DirectoryTask>, options: WalkOptions): seq<Segment> {
    seq(|tasks|, i requires 0 <= i < |tasks| =>
      Segment(|Entries(TaskItems(tasks[i], options))|, |Errors(TaskItems(tasks[i], options))|))
  }

  function LaneOf(tasks: seq<DirectoryTask>, options: WalkOptions): LaneReport {
    LaneReport(Report(TaskEntries(tasks, options), TaskErrors(tasks, options)), Segments(tasks, options))
  }

  lemma {:induction false} LaneSnoc(tasks: seq<DirectoryTask>, task: DirectoryTask, options: WalkOptions)
    ensures TaskEntries(tasks + [task], options) == TaskEntries(tasks, options) + Entries(TaskItems(task, options))
    ensures TaskErrors(tasks + [task], options) == TaskErrors(tasks, options) + Errors(TaskItems(task, options))
  {
    hide TaskItems, Entries, Errors;
    if tasks == [] {
      assert [task][1..] == [] && [] + [task] == [task];
    } else {
      assert (tasks + [task])[1..] == tasks[1..] + [task];
      LaneSnoc(tasks[1..], task, options);
    }
  }

  /** `collect_lane`. */
  method CollectLane(tasks: seq<DirectoryTask>, options: WalkOptions, sameFileSystem: bool) returns (lane: LaneReport)
    requires Enterable(tasks, options)
    ensures lane == LaneOf(tasks, options)
  {
    hide TaskItems, Enterable;
    var report, segments := Report([], []), [];
    for i := 0 to |tasks|
      invariant report.entries == TaskEntries(tasks[..i], options) && report.errors == TaskErrors(tasks[..i], options)
      invariant segments == Segments(tasks[..i], options)
    {
      var items := WalkTask(tasks, i, options, sameFileSystem);
      assert tasks[..i + 1] == tasks[..i] + [tasks[i]];
      LaneSnoc(tasks[..i], tasks[i], options);
      report := Report(report.entries + Entries(items), report.errors + Errors(items));
      segments := segments + [Segment(|Entries(items)|, |Errors(items)|)];
    }
    assert tasks[..|tasks|] == tasks;
    lane := LaneReport(report, segments);
  }

  /** One lane task: on one file system a fresh walk with shifted limits, rebased; else a walk from a known directory. */
  method WalkTask(tasks: seq<DirectoryTask>, i: nat, options: WalkOptions, sameFileSystem: bool) returns (items: seq<WalkItem>)
    requires i < |tasks| && Enterable(tasks, options)
    ensures items == TaskItems(tasks[i], options)
  {
    var task := tasks[i];
    assert task in tasks;
    if sameFileSystem {
      var maxDepth := if options.maxDepth.Some? then Some(options.maxDepth.value - task.depth) else None;
      var minDepth := if options.minDepth < task.depth then 0 else options.minDepth - task.depth;
      RebasedTask(task, options);
      items := Rebased(Shown(Whole(task.path, task.tree, maxDepth), minDepth), task.depth);
    } else {
      items := Shown(Below(task.path, task.depth, task.tree, options.maxDepth), options.minDepth);
    }
  }

  /** `collect_rebased`: the root entry is dropped, depths are shifted. */
  function Rebased(items: seq<WalkItem>, shift: nat): seq<WalkItem> {
    if items == [] then [] else RebasedItem(items[0], shift) + Rebased(items[1..], shift)
  }

  function RebasedItem(item: WalkItem, shift: nat): seq<WalkItem> {
    match item
    case Ok(entry) => if entry.depth == 0 then [] else [Ok(entry.(depth := entry.depth + shift))]
    case Err(error) => [Err(error.(depth := error.depth + shift))]
  }

  lemma {:induction false} RebasedAppend(a: seq<WalkItem>, b: seq<WalkItem>, shift: nat)
    ensures Rebased(a + b, shift) == Rebased(a, shift) + Rebased(b, shift)
  {
    hide RebasedItem;
    if a == [] {
      assert a + b == b;
    } else {
      assert (a + b)[0] == a[0] && (a + b)[1..] == a[1..] + b;
      RebasedAppend(a[1..], b, shift);
      var head, rest, last := RebasedItem(a[0], shift), Rebased(a[1..], shift), Rebased(b, shift);
      assert head + rest + last == head + (rest + last);
    }
  }

  function Shift(limit: Option<nat>, shift: nat): Option<nat> {
    if limit.Some? then Some(limit.value + shift) else None
  }

  /** A walk deeper down is the same walk with shifted depths and limits. */
  lemma {:induction false} RebasedBelow(path: Path, depth: nat, tree: Tree, maxDepth: Option<nat>, shift: nat)
    requires tree.Directory?
    ensures Rebased(Below(path, depth, tree, maxDepth), shift) == Below(path, depth + shift, tree, Shift(maxDepth, shift))
    decreases tree, 1
  {
    if tree.readable {
      RebasedListed(path, depth, tree.listing, maxDepth, shift);
    } else {
      RebasedError(WalkError(path, depth, ReadDirectory), shift);
    }
  }

  lemma RebasedError(error: WalkError, shift: nat)
    ensures Rebased([Err(error)], shift) == [Err(error.(depth := error.depth + shift))]
  {
  }

  lemma RebasedEntry(entry: WalkEntry, shift: nat)
    requires entry.depth > 0
    ensures Rebased([Ok(entry)], shift) == [Ok(entry.(depth := entry.depth + shift))]
  {
  }

  lemma {:induction false} RebasedListed(path: Path, depth: nat, listing: seq<Dirent>, maxDepth: Option<nat>, shift: nat)
    ensures Rebased(Listed(path, depth, listing, maxDepth), shift) == Listed(path, depth + shift, listing, Shift(maxDepth, shift))
    decreases listing, 0
  {
    if listing != [] {
      RebasedAppend(One(path, depth, listing[0], maxDepth), Listed(path, depth, listing[1..], maxDepth), shift);
      RebasedListed(path, depth, listing[1..], maxDepth, shift);
      RebasedOne(path, depth, listing[0], maxDepth, shift);
    }
  }

  lemma VisitShifts(path: Path, depth: nat, tree: Tree, maxDepth: Option<nat>, shift: nat)
    ensures var entry := Visit(path, depth, tree, maxDepth);
      && entry.depth == depth && entry.path == path
      && Visit(path, depth + shift, tree, Shift(maxDepth, shift)) == entry.(depth := depth + shift)
      && (Descends(Ok(entry)) ==> tree.Directory?)
  {
  }

  lemma {:induction false} RebasedOne(path: Path, depth: nat, dirent: Dirent, maxDepth: Option<nat>, shift: nat)
    ensures Rebased(One(path, depth, dirent, maxDepth), shift) == One(path, depth + shift, dirent, Shift(maxDepth, shift))
    decreases dirent, 2
  {
    match dirent
    case Broken => RebasedError(WalkError(path, depth + 1, ReadEntry), shift);
    case Untyped(name) => RebasedError(WalkError(path + [name], depth + 1, ReadMetadata), shift);
    case Dirent(name, tree) =>
      hide Below, Visit;
      var entry := Visit(path + [name], depth + 1, tree, maxDepth);
      VisitShifts(path + [name], depth + 1, tree, maxDepth, shift);
      RebasedEntry(entry, shift);
      if Descends(Ok(entry)) {
        RebasedBelow(path + [name], depth + 1, tree, maxDepth, shift);
        RebasedAppend([Ok(entry)], Below(path + [name], depth + 1, tree, maxDepth), shift);
      } else {
        var alone: seq<WalkItem> := [Ok(entry)];
        assert alone + [] == alone;
      }
  }

  lemma {:induction false} ShownRebased(items: seq<WalkItem>, minDepth: nat, shift: nat)
    requires forall i | i in items && i.Ok? :: i.value.depth > 0
    ensures Rebased(Shown(items, if minDepth < shift then 0 else minDepth - shift), shift) == Shown(Rebased(items, shift), minDepth)
  {
    if items != [] {
      var low := if minDepth < shift then 0 else minDepth - shift;
      assert items[0] in items && forall i | i in items[1..] :: i in items;
      ShownRebased(items[1..], minDepth, shift);
      var head := items[..1];
      assert items == head + items[1..] && head == [items[0]] && head[1..] == [];
      ShownAppend(head, items[1..], low);
      RebasedAppend(Shown(head, low), Shown(items[1..], low), shift);
      RebasedAppend(head, items[1..], shift);
      ShownAppend(Rebased(head, shift), Rebased(items[1..], shift), minDepth);
      HeadRebased(items[0], minDepth, shift);
    }
  }

  lemma HeadRebased(item: WalkItem, minDepth: nat, shift: nat)
    requires item.Ok? ==> item.value.depth > 0
    ensures Rebased(Shown([item], if minDepth < shift then 0 else minDepth - shift), shift)
         == Shown(Rebased([item], shift), minDepth)
  {
  }

  /** Entries below a root are not the root, and no walker reports a refused submission. */
  predicate DeepOrLocal(item: WalkItem) {
    (item.Ok? ==> item.value.depth > 0) && (item.Err? ==> item.error.operation != ScheduleWorker)
  }

  lemma {:induction false} BelowIsDeep(path: Path, depth: nat, tree: Tree, maxDepth: Option<nat>)
    requires tree.Directory?
    ensures forall i | i in Below(path, depth, tree, maxDepth) :: DeepOrLocal(i)
    decreases tree, 1
  {
    if tree.readable { ListedIsDeep(path, depth, tree.listing, maxDepth); }
  }

  lemma {:induction false} ListedIsDeep(path: Path, depth: nat, listing: seq<Dirent>, maxDepth: Option<nat>)
    ensures forall i | i in Listed(path, depth, listing, maxDepth) :: DeepOrLocal(i)
    decreases listing, 0
  {
    if listing != [] {
      ListedIsDeep(path, depth, listing[1..], maxDepth);
      if listing[0].Dirent? && listing[0].tree.Directory? {
        assert listing[0].tree < listing[0];
        BelowIsDeep(path + [listing[0].name], depth + 1, listing[0].tree, maxDepth);
      }
    }
  }

  lemma RebasedTask(task: DirectoryTask, options: WalkOptions)
    requires task.tree.Directory? && task.tree.boundary.None?
    requires options.maxDepth.Some? ==> task.depth < options.maxDepth.value
    ensures var maxDepth := if options.maxDepth.Some? then Some(options.maxDepth.value - task.depth) else None;
      var minDepth := if options.minDepth < task.depth then 0 else options.minDepth - task.depth;
      Rebased(Shown(Whole(task.path, task.tree, maxDepth), minDepth), task.depth) == TaskItems(task, options)
  {
    var maxDepth := if options.maxDepth.Some? then Some(options.maxDepth.value - task.depth) else None;
    var minDepth := if options.minDepth < task.depth then 0 else options.minDepth - task.depth;
    var root := Visit(task.path, 0, task.tree, maxDepth);
    var below := Below(task.path, 0, task.tree, maxDepth);
    hide *;
    WholeOfTask(task, options, maxDepth);
    DropRoot(root, below, minDepth, task.depth);
    BelowIsDeep(task.path, 0, task.tree, maxDepth);
    ShownRebasedBelow(task, below, maxDepth, options.minDepth);
  }

  lemma DropRoot(root: WalkEntry, below: seq<WalkItem>, minDepth: nat, shift: nat)
    requires root.depth == 0
    ensures Rebased(Shown([Ok(root)] + below, minDepth), shift) == Rebased(Shown(below, minDepth), shift)
  {
    hide *;
    ShownAppend([Ok(root)], below, minDepth);
    RebasedAppend(Shown([Ok(root)], minDepth), Shown(below, minDepth), shift);
    RootDropped(root, minDepth, shift);
    var rest := Rebased(Shown(below, minDepth), shift);
    assert [] + rest == rest;
  }

  lemma ShownRebasedBelow(task: DirectoryTask, below: seq<WalkItem>, maxDepth: Option<nat>, minDepth: nat)
    requires task.tree.Directory? && below == Below(task.path, 0, task.tree, maxDepth)
    requires forall i | i in below :: DeepOrLocal(i)
    ensures Rebased(Shown(below, if minDepth < task.depth then 0 else minDepth - task.depth), task.depth)
         == Shown(Below(task.path, task.depth, task.tree, Shift(maxDepth, task.depth)), minDepth)
  {
    hide Below, Shown, Rebased;
    ShownRebased(below, minDepth, task.depth);
    RebasedBelow(task.path, 0, task.tree, maxDepth, task.depth);
  }

  lemma WholeOfTask(task: DirectoryTask, options: WalkOptions, maxDepth: Option<nat>)
    requires task.tree.Directory? && task.tree.boundary.None?
    requires Shift(maxDepth, task.depth) == options.maxDepth && (maxDepth.Some? ==> maxDepth.value > 0)
    ensures var root := Visit(task.path, 0, task.tree, maxDepth);
      root.depth == 0 && Whole(task.path, task.tree, maxDepth) == [Ok(root)] + Below(task.path, 0, task.tree, maxDepth)
    ensures TaskItems(task, options) == Shown(Below(task.path, task.depth, task.tree, Shift(maxDepth, task.depth)), options.minDepth)
  {
    hide Below, Shown;
  }

  lemma RootDropped(root: WalkEntry, minDepth: nat, shift: nat)
    requires root.depth == 0
    ensures Rebased(Shown([Ok(root)], minDepth), shift) == []
  {
  }

  // Distribution and reassembly ----------------------------------------------------------------

  /** The tasks of a lane from task `from` on: every `workers`-th task. */
  function LaneFrom(tasks: seq<DirectoryTask>, workers: nat, lane: nat, from: nat): seq<DirectoryTask>
    requires workers > 0
    decreases |tasks| - from
  {
    if from >= |tasks| then []
    else (if from % workers == lane then [tasks[from]] else []) + LaneFrom(tasks, workers, lane, from + 1)
  }

  /** The first `i` tasks handed out, followed by the others, are the whole lane. */
  ghost predicate Dealt(tasks: seq<DirectoryTask>, workers: nat, lanes: seq<seq<DirectoryTask>>, i: nat)
    requires workers > 0
  {
    && |lanes| == workers
    && forall w | 0 <= w < workers :: lanes[w] + LaneFrom(tasks, workers, w, i) == LaneFrom(tasks, workers, w, 0)
  }

  lemma DealOne(tasks: seq<DirectoryTask>, workers: nat, lanes: seq<seq<DirectoryTask>>, i: nat)
    requires workers > 0 && i < |tasks| && Dealt(tasks, workers, lanes, i)
    ensures Dealt(tasks, workers, lanes[i % workers := lanes[i % workers] + [tasks[i]]], i + 1)
  {
    var dealt := lanes[i % workers := lanes[i % workers] + [tasks[i]]];
    forall w | 0 <= w < workers
      ensures dealt[w] + LaneFrom(tasks, workers, w, i + 1) == LaneFrom(tasks, workers, w, 0)
    {
      var rest := LaneFrom(tasks, workers, w, i + 1);
      if w == i % workers {
        assert lanes[w] + ([tasks[i]] + rest) == lanes[w] + [tasks[i]] + rest;
      } else {
        assert LaneFrom(tasks, workers, w, i) == [] + rest == rest;
      }
    }
  }

  lemma DealtAll(tasks: seq<DirectoryTask>, workers: nat, lanes: seq<seq<DirectoryTask>>)
    requires workers > 0 && Dealt(tasks, workers, lanes, |tasks|)
    ensures forall w | 0 <= w < workers :: lanes[w] == LaneFrom(tasks, workers, w, 0)
  {
    forall w | 0 <= w < workers
      ensures lanes[w] == LaneFrom(tasks, workers, w, 0)
    {
      assert lanes[w] + LaneFrom(tasks, workers, w, |tasks|) == lanes[w] + [] == lanes[w];
    }
  }

  /** Task `i` leads what its lane still has to give; the other lanes are unaffected. */
  lemma LaneStep(tasks: seq<DirectoryTask>, workers: nat, options: WalkOptions, w: nat, i: nat)
    requires workers > 0 && i < |tasks| && w < workers
    ensures w != i % workers ==> LaneFrom(tasks, workers, w, i) == LaneFrom(tasks, workers, w, i + 1)
    ensures w == i % workers ==>
      var items := TaskItems(tasks[i], options);
      var lane, rest := LaneOf(LaneFrom(tasks, workers, w, i), options), LaneOf(LaneFrom(tasks, workers, w, i + 1), options);
      && lane.segments == [Segment(|Entries(items)|, |Errors(items)|)] + rest.segments
      && lane.report.entries == Entries(items) + rest.report.entries
      && lane.report.errors == Errors(items) + rest.report.errors
  {
    hide TaskItems, Entries, Errors;
    var rest := LaneFrom(tasks, workers, w, i + 1);
    assert [] + rest == rest;
    if w == i % workers {
      assert ([tasks[i]] + rest)[1..] == rest;
    }
  }

  /** Every lane still holds the output of its tasks from `i` on. */
  ghost predicate Ready(tasks: seq<DirectoryTask>, workers: nat, options: WalkOptions, lanes: seq<LaneReport>, i: nat)
    requires workers > 0
  {
    && |lanes| == workers
    && forall w | 0 <= w < workers :: lanes[w] == LaneOf(LaneFrom(tasks, workers, w, i), options)
  }

  lemma {:induction false} TaskPrefix(tasks: seq<DirectoryTask>, i: nat, options: WalkOptions)
    requires i < |tasks|
    ensures TaskEntries(tasks[..i + 1], options) == TaskEntries(tasks[..i], options) + Entries(TaskItems(tasks[i], options))
    ensures TaskErrors(tasks[..i + 1], options) == TaskErrors(tasks[..i], options) + Errors(TaskItems(tasks[i], options))
  {
    assert tasks[..i + 1] == tasks[..i] + [tasks[i]];
    LaneSnoc(tasks[..i], tasks[i], options);
  }

  /** Hands the tasks out round robin. */
  method Deal(tasks: seq<DirectoryTask>, workers: nat) returns (lanes: seq<seq<DirectoryTask>>)
    requires workers > 0
    ensures |lanes| == workers && forall w | 0 <= w < workers :: lanes[w] == LaneFrom(tasks, workers, w, 0)
  {
    lanes := seq(workers, _ => []);
    assert forall w | 0 <= w < workers :: lanes[w] + LaneFrom(tasks, workers, w, 0) == LaneFrom(tasks, workers, w, 0);
    for i := 0 to |tasks|
      invariant Dealt(tasks, workers, lanes, i)
    {
      DealOne(tasks, workers, lanes, i);
      lanes := lanes[i % workers := lanes[i % workers] + [tasks[i]]];
    }
    DealtAll(tasks, workers, lanes);
  }

  /** Runs the lanes; they complete in any order and land at their index. */
  method RunLanes(lanes: seq<seq<DirectoryTask>>, options: WalkOptions, sameFileSystem: bool) returns (reports: seq<LaneReport>)
    requires forall w | 0 <= w < |lanes| :: Enterable(lanes[w], options)
    ensures |reports| == |lanes| && forall w | 0 <= w < |lanes| :: reports[w] == LaneOf(lanes[w], options)
  {
    var completed: seq<Option<LaneReport>> := seq(|lanes|, _ => None);
    var running: set<nat> := set w: nat {:trigger lanes[w]} | 0 <= w < |lanes|;
    while running != {}
      invariant |completed| == |lanes| && forall w | w in running :: w < |lanes|
      invariant forall w: nat | w < |lanes| && w !in running :: completed[w] == Some(LaneOf(lanes[w], options))
    {
      var index :| index in running;
      running := running - {index};
      var report := CollectLane(lanes[index], options, sameFileSystem);
      completed := completed[index := Some(report)];
    }
    reports := seq(|lanes|, w requires 0 <= w < |lanes| && completed[w].Some? => completed[w].value);
  }

  lemma LaneEnterable(tasks: seq<DirectoryTask>, workers: nat, lane: nat, from: nat, options: WalkOptions)
    requires workers > 0 && Enterable(tasks, options)
    ensures Enterable(LaneFrom(tasks, workers, lane, from), options)
    decreases |tasks| - from
  {
  }

  /** `walk_lanes`: the shallow entries, then every task's output in task order, for every number of
      workers and every order in which lanes complete. */
  method WalkLanes(shallow: ShallowWalk, options: WalkOptions, sameFileSystem: bool, workers: nat) returns (report: Report)
    requires workers > 0 && Enterable(shallow.tasks, options)
    ensures report.entries == shallow.entries + TaskEntries(shallow.tasks, options)
    ensures report.errors == shallow.errors + TaskErrors(shallow.tasks, options)
  {
    hide TaskItems, Enterable, LaneFrom, LaneOf;
    var tasks := shallow.tasks;
    var dealt := Deal(tasks, workers);
    forall w | 0 <= w < workers ensures Enterable(dealt[w], options) { LaneEnterable(tasks, workers, w, 0, options); }
    var lanes := RunLanes(dealt, options, sameFileSystem);
    report := Report(shallow.entries, shallow.errors);
    assert tasks[..0] == [];
    for i := 0 to |tasks|
      invariant Ready(tasks, workers, options, lanes, i)
      invariant report.entries == shallow.entries + TaskEntries(tasks[..i], options)
      invariant report.errors == shallow.errors + TaskErrors(tasks[..i], options)
    {
      var w := i % workers;
      var lane := lanes[w];
      ghost var items := TaskItems(tasks[i], options);
      TakeSegment(tasks, workers, options, lanes, i);
      TaskPrefix(tasks, i, options);
      var segment := lane.segments[0];
      report := Report(report.entries + lane.report.entries[..segment.entries], report.errors + lane.report.errors[..segment.errors]);
      lanes := lanes[w := LaneReport(Report(lane.report.entries[segment.entries..], lane.report.errors[segment.errors..]),
                                     lane.segments[1..])];
    }
    assert tasks[..|tasks|] == tasks;
  }

  lemma TakeSegment(tasks: seq<DirectoryTask>, workers: nat, options: WalkOptions, lanes: seq<LaneReport>, i: nat)
    requires workers > 0 && i < |tasks| && Ready(tasks, workers, options, lanes, i)
    ensures var lane := lanes[i % workers];
      && lane.segments != [] && lane.segments[0].entries <= |lane.report.entries| && lane.segments[0].errors <= |lane.report.errors|
      && lane.report.entries[..lane.segments[0].entries] == Entries(TaskItems(tasks[i], options))
      && lane.report.errors[..lane.segments[0].errors] == Errors(TaskItems(tasks[i], options))
      && Ready(tasks, workers, options,
               lanes[i % workers := LaneReport(Report(lane.report.entries[lane.segments[0].entries..],
                                                      lane.report.errors[lane.segments[0].errors..]), lane.segments[1..])], i + 1)
  {
    hide TaskItems, LaneFrom, LaneOf;
    forall w | 0 <= w < workers
      ensures w != i % workers ==> LaneFrom(tasks, workers, w, i) == LaneFrom(tasks, workers, w, i + 1)
    {
      LaneStep(tasks, workers, options, w, i);
    }
    LaneStep(tasks, workers, options, i % workers, i);
  }

  // The whole walk -----------------------------------------------------------------------------

  lemma HeldCons(item: WalkItem, entries: seq<WalkEntry>, errors: seq<WalkError>)
    ensures item.Ok? ==> Held([item.value] + entries, errors) == multiset{item} + Held(entries, errors)
    ensures item.Err? ==> Held(entries, [item.error] + errors) == multiset{item} + Held(entries, errors)
  {
    match item
    case Ok(entry) => assert Oks([entry] + entries) == [item] + Oks(entries);
    case Err(error) => assert Errs([error] + errors) == [item] + Errs(errors);
  }

  lemma {:induction false} ItemsSplit(items: seq<WalkItem>)
    ensures Held(Entries(items), Errors(items)) == multiset(items)
  {
    if items == [] {
      assert Oks([]) == [] && Errs([]) == [];
    } else {
      hide Held;
      var rest := items[1..];
      ItemsSplit(rest);
      assert items == [items[0]] + rest;
      HeldCons(items[0], Entries(rest), Errors(rest));
      assert [] + Entries(rest) == Entries(rest) && [] + Errors(rest) == Errors(rest);
    }
  }

  lemma HeldAppend(a: seq<WalkEntry>, b: seq<WalkEntry>, c: seq<WalkError>, d: seq<WalkError>)
    ensures Held(a + b, c + d) == Held(a, c) + Held(b, d)
  {
    assert Oks(a + b) == Oks(a) + Oks(b) && Errs(c + d) == Errs(c) + Errs(d);
  }

  lemma {:induction false} TasksHeld(tasks: seq<DirectoryTask>, options: WalkOptions)
    ensures Held(TaskEntries(tasks, options), TaskErrors(tasks, options)) == Pending(tasks, options)
  {
    hide TaskItems;
    if tasks == [] {
      assert Oks([]) == [] && Errs([]) == [];
    } else {
      var init, last := tasks[..|tasks| - 1], tasks[|tasks| - 1];
      hide Held;
      TasksHeld(init, options);
      assert tasks == init + [last];
      LaneSnoc(init, last, options);
      var items := TaskItems(last, options);
      ItemsSplit(items);
      HeldAppend(TaskEntries(init, options), Entries(items), TaskErrors(init, options), Errors(items));
    }
  }

  const FRONTIER_TASKS_PER_WORKER: nat := 2

  /** The serial walk meets an error. */
  ghost predicate HasError(items: seq<WalkItem>) { exists i | i in items :: i.Err? }

  /** Expansion has used up all tasks, so no lane runs. */
  predicate Drained(path: Path, tree: Tree, options: WalkOptions, sameFileSystem: bool, requestedWorkers: nat) {
    RootTasksAreDirectories(path, tree, options);
    var tasks := RootTasks(path, tree, options);
    tasks == [] || (!sameFileSystem && Frontier(tasks, options, 2 * requestedWorkers) == [])
  }

  lemma RootTasksAreDirectories(path: Path, tree: Tree, options: WalkOptions)
    ensures forall t | t in RootTasks(path, tree, options) :: t.tree.Directory?
  {
    if Descends(Ok(Visit(path, 0, tree, options.maxDepth))) && tree.readable {
      SubdirectoriesShrink(path, 0, tree.listing, options.maxDepth);
    }
  }

  /** The walk before the redirected output is taken out. */
  method CollectWalk(path: Path, tree: Tree, options: WalkOptions, sameFileSystem: bool, requestedWorkers: nat,
                     refused: bool)
    returns (result: Result<Report, WalkError>)
    requires requestedWorkers >= 1
    ensures result.Ok? ==>
      Held(result.value.entries, result.value.errors) == multiset(Shown(Whole(path, tree, options.maxDepth), options.minDepth))
    ensures result.Err? && result.error.operation != ScheduleWorker ==> Err(result.error) in Whole(path, tree, options.maxDepth)
    ensures (result.Err? && result.error.operation == ScheduleWorker) <==>
      && refused && !Drained(path, tree, options, sameFileSystem, requestedWorkers)
      && !(options.errorPolicy == Abort && RootFails(path, tree, options))
    ensures !(result.Err? && result.error.operation == ScheduleWorker) ==>
      (result.Err? <==>
        && options.errorPolicy == Abort && HasError(Whole(path, tree, options.maxDepth))
        && (RootFails(path, tree, options) || !Drained(path, tree, options, sameFileSystem, requestedWorkers)))
  {
    hide Total, Shown, Whole, Held, Pending, Frontier, RootTasks, RootFails, HasError;
    RootTasksAreDirectories(path, tree, options);
    WholeIsLocal(path, tree, options.maxDepth);
    var shallow := CollectShallow(path, tree, options);
    if options.errorPolicy == Abort && shallow.errors != [] {
      ErrorIsReal(shallow, options, path, tree);
      return Err(shallow.errors[0]);
    }
    if !sameFileSystem {
      var target := requestedWorkers * FRONTIER_TASKS_PER_WORKER;
      if |shallow.tasks| < target {
        shallow := ExpandFrontier(shallow, options, target);
      } else {
        EnoughTasks(shallow.tasks, options, target);
      }
    }
    NoFrontier(options, requestedWorkers * FRONTIER_TASKS_PER_WORKER);
    if shallow.tasks == [] {
      NoTasks(shallow, options);
      return Ok(Report(shallow.entries, shallow.errors));
    }
    var workers := if requestedWorkers < |shallow.tasks| then requestedWorkers else |shallow.tasks|;
    if refused {
      return Err(WalkError(path, 0, ScheduleWorker));
    }
    var report := WalkLanes(shallow, options, sameFileSystem, workers);
    LanesHeld(shallow, options, report);
    ErrorsKnown(report.entries, report.errors, Whole(path, tree, options.maxDepth), options.minDepth);
    if options.errorPolicy == Abort && report.errors != [] {
      return Err(report.errors[0]);
    }
    return Ok(report);
  }

  /** `matches_stdout`. */
  predicate Redirected(entry: WalkEntry) { entry.isFile && entry.stdout }

  function KeptEntries(entries: seq<WalkEntry>): seq<WalkEntry> {
    if entries == [] then []
    else
      var last := entries[|entries| - 1];
      KeptEntries(entries[..|entries| - 1]) + (if Redirected(last) then [] else [last])
  }

  /** The items of a walk without the redirected output. */
  function Kept(items: seq<WalkItem>): seq<WalkItem> {
    if items == [] then []
    else
      var last := items[|items| - 1];
      Kept(items[..|items| - 1]) + (if last.Ok? && Redirected(last.value) then [] else [last])
  }

  /** `without_stdout`. */
  method WithoutStdout(report: Report, skipStdout: bool) returns (kept: Report)
    ensures kept == Report(if skipStdout then KeptEntries(report.entries) else report.entries, report.errors)
  {
    if !skipStdout {
      return report;
    }
    var entries := [];
    for i := 0 to |report.entries|
      invariant entries == KeptEntries(report.entries[..i])
    {
      assert report.entries[..i + 1][..i] == report.entries[..i];
      if !Redirected(report.entries[i]) {
        entries := entries + [report.entries[i]];
      }
    }
    assert report.entries[..|report.entries|] == report.entries;
    kept := Report(entries, report.errors);
  }

  lemma {:induction false} KeptCount(items: seq<WalkItem>, item: WalkItem)
    ensures multiset(Kept(items))[item] == if item.Ok? && Redirected(item.value) then 0 else multiset(items)[item]
  {
    if items != [] {
      var init, last := items[..|items| - 1], items[|items| - 1];
      KeptCount(init, item);
      assert items == init + [last];
    }
  }

  lemma {:induction false} KeptOks(entries: seq<WalkEntry>, item: WalkItem)
    ensures multiset(Oks(KeptEntries(entries)))[item]
         == if item.Ok? && Redirected(item.value) then 0 else multiset(Oks(entries))[item]
  {
    if entries == [] {
      assert Oks([]) == [];
    } else {
      var init, last := entries[..|entries| - 1], entries[|entries| - 1];
      KeptOks(init, item);
      assert Oks(entries) == Oks(init) + [Ok(last)];
      var kept := KeptEntries(init);
      assert Oks(kept + [last]) == Oks(kept) + [Ok(last)] && kept + [] == kept;
    }
  }

  /** Taking the redirected output out of a report is taking it out of the walk. */
  lemma KeptHeld(entries: seq<WalkEntry>, errors: seq<WalkError>, items: seq<WalkItem>)
    requires Held(entries, errors) == multiset(items)
    ensures Held(KeptEntries(entries), errors) == multiset(Kept(items))
  {
    forall item: WalkItem
      ensures Held(KeptEntries(entries), errors)[item] == multiset(Kept(items))[item]
    {
      KeptOks(entries, item);
      KeptCount(items, item);
      assert item.Ok? ==> item !in Errs(errors);
      assert Held(entries, errors)[item] == multiset(items)[item];
    }
  }

  // The ordered walk as the reference ------------------------------------------------------------

  lemma PreOrderSplits(options: WalkOptions, path: Path, depth: nat, dirent: Dirent, rest: seq<Dirent>)
    ensures OrderedPull.PreOrderListing(options, path, depth, [dirent] + rest)
         == OrderedPull.PreOrderListing(options, path, depth, [dirent]) + OrderedPull.PreOrderListing(options, path, depth, rest)
  {
    assert ([dirent] + rest)[1..] == rest && [dirent][1..] == [];
  }

  /** A directory entry has the same items below it wherever it is sorted in. */
  lemma {:induction false} InsertAdds(options: WalkOptions, path: Path, depth: nat, dirent: Dirent, sorted: seq<Dirent>)
    ensures multiset(OrderedPull.PreOrderListing(options, path, depth, Ordering.Insert(OrderedPull.DirentLess, dirent, sorted)))
         == multiset(OrderedPull.PreOrderListing(options, path, depth, [dirent]))
            + multiset(OrderedPull.PreOrderListing(options, path, depth, sorted))
  {
    hide OrderedPull.PreOrderListing;
    if sorted == [] || !OrderedPull.DirentLess(sorted[0], dirent) {
      PreOrderSplits(options, path, depth, dirent, sorted);
    } else {
      InsertAdds(options, path, depth, dirent, sorted[1..]);
      PreOrderSplits(options, path, depth, sorted[0], sorted[1..]);
      PreOrderSplits(options, path, depth, sorted[0], Ordering.Insert(OrderedPull.DirentLess, dirent, sorted[1..]));
      assert [sorted[0]] + sorted[1..] == sorted;
    }
  }

  lemma {:induction false} BelowIsPreOrder(options: WalkOptions, path: Path, depth: nat, tree: Tree)
    requires tree.Directory?
    ensures multiset(Below(path, depth, tree, options.maxDepth))
         == multiset(OrderedPull.PreOrder(options, path, depth, tree.readable, tree.listing))
    decreases ListingSize(tree.listing), 1, 0
  {
    if tree.readable { ListedIsPreOrder(options, path, depth, tree.listing); }
  }

  lemma {:induction false} ListedIsPreOrder(options: WalkOptions, path: Path, depth: nat, listing: seq<Dirent>)
    ensures multiset(Listed(path, depth, listing, options.maxDepth))
         == multiset(OrderedPull.PreOrderListing(options, path, depth, Ordering.Sort(OrderedPull.DirentLess, listing)))
    decreases ListingSize(listing), 0, |listing|
  {
    if listing != [] {
      ListedIsPreOrder(options, path, depth, listing[1..]);
      OneIsPreOrder(options, path, depth, listing[0]);
      InsertAdds(options, path, depth, listing[0], Ordering.Sort(OrderedPull.DirentLess, listing[1..]));
    }
  }

  lemma {:induction false} OneIsPreOrder(options: WalkOptions, path: Path, depth: nat, dirent: Dirent)
    ensures multiset(One(path, depth, dirent, options.maxDepth))
         == multiset(OrderedPull.PreOrderListing(options, path, depth, [dirent]))
    decreases DirentSize(dirent), 0, 0
  {
    assert [dirent][1..] == [];
    if dirent.Dirent? {
      VisitTells(path + [dirent.name], depth + 1, dirent.tree, options.maxDepth);
      if Entered(dirent.tree, options.maxDepth, depth + 1) {
        BelowIsPreOrder(options, path + [dirent.name], depth + 1, dirent.tree);
      }
    }
  }

  /** The serial walk and the ordered walk meet the same items. */
  lemma WholeIsFullWalk(options: WalkOptions, path: Path, tree: Tree)
    ensures multiset(Whole(path, tree, options.maxDepth)) == multiset(OrderedPull.FullWalk(options, path, tree))
    ensures HasError(Whole(path, tree, options.maxDepth)) <==> HasError(OrderedPull.FullWalk(options, path, tree))
    ensures forall item :: item in Whole(path, tree, options.maxDepth) <==> item in OrderedPull.FullWalk(options, path, tree)
  {
    var whole, walk := Whole(path, tree, options.maxDepth), OrderedPull.FullWalk(options, path, tree);
    VisitTells(path, 0, tree, options.maxDepth);
    if Entered(tree, options.maxDepth, 0) { BelowIsPreOrder(options, path, 0, tree); }
    assert multiset(whole) == multiset(walk);
    hide Whole, OrderedPull.FullWalk;
    assert forall item :: item in whole <==> item in multiset(whole);
    assert forall item :: item in walk <==> item in multiset(walk);
  }

  /** The walk is to report the entry: it lies at or below `minDepth` and is not the redirected output. */
  ghost predicate Wanted(options: WalkOptions, skipStdout: bool, entry: WalkEntry) {
    entry.depth >= options.minDepth && (skipStdout ==> !(entry.isFile && entry.stdout))
  }

  /** The report holds every error of the walk and every wanted entry of it, each as often as it occurs there. */
  ghost predicate Reports(options: WalkOptions, skipStdout: bool, walk: seq<WalkItem>, report: Report) {
    && (forall entry :: multiset(report.entries)[entry] == if Wanted(options, skipStdout, entry) then multiset(walk)[Ok(entry)] else 0)
    && (forall error :: multiset(report.errors)[error] == multiset(walk)[Err(error)])
  }

  lemma {:induction false} OksCount(entries: seq<WalkEntry>, item: WalkItem)
    ensures multiset(Oks(entries))[item] == if item.Ok? then multiset(entries)[item.value] else 0
  {
    if entries == [] {
      assert Oks(entries) == [];
    } else {
      OksCount(entries[1..], item);
      assert entries == [entries[0]] + entries[1..] && Oks(entries) == [Ok(entries[0])] + Oks(entries[1..]);
    }
  }

  lemma {:induction false} ErrsCount(errors: seq<WalkError>, item: WalkItem)
    ensures multiset(Errs(errors))[item] == if item.Err? then multiset(errors)[item.error] else 0
  {
    if errors == [] {
      assert Errs(errors) == [];
    } else {
      ErrsCount(errors[1..], item);
      assert errors == [errors[0]] + errors[1..] && Errs(errors) == [Err(errors[0])] + Errs(errors[1..]);
    }
  }

  lemma {:induction false} ShownCount(items: seq<WalkItem>, minDepth: nat, item: WalkItem)
    ensures multiset(Shown(items, minDepth))[item]
         == if item.Err? || item.value.depth >= minDepth then multiset(items)[item] else 0
  {
    if items != [] {
      ShownCount(items[1..], minDepth, item);
      assert items == [items[0]] + items[1..];
    }
  }

  lemma HeldReports(path: Path, tree: Tree, options: WalkOptions, skipStdout: bool, report: Report)
    requires var items := Shown(Whole(path, tree, options.maxDepth), options.minDepth);
      Held(report.entries, report.errors) == multiset(if skipStdout then Kept(items) else items)
    ensures Reports(options, skipStdout, OrderedPull.FullWalk(options, path, tree), report)
  {
    hide Whole, OrderedPull.FullWalk, Shown, Kept;
    var whole := Whole(path, tree, options.maxDepth);
    var items := Shown(whole, options.minDepth);
    WholeIsFullWalk(options, path, tree);
    forall item: WalkItem
      ensures Held(report.entries, report.errors)[item]
           == if item.Err? || Wanted(options, skipStdout, item.value) then multiset(whole)[item] else 0
    {
      ShownCount(whole, options.minDepth, item);
      KeptCount(items, item);
      assert Held(report.entries, report.errors)[item] == multiset(if skipStdout then Kept(items) else items)[item];
    }
    forall entry
      ensures multiset(report.entries)[entry] == Held(report.entries, report.errors)[Ok(entry)]
    {
      OksCount(report.entries, Ok(entry));
      ErrsCount(report.errors, Ok(entry));
    }
    forall error
      ensures multiset(report.errors)[error] == Held(report.entries, report.errors)[Err(error)]
    {
      OksCount(report.entries, Err(error));
      ErrsCount(report.errors, Err(error));
    }
  }

  /** `ParallelWalker::walk` without followed links: it reports exactly what the ordered walk meets.
      Under `Abort` an error ends it, except errors that only the expansion of the frontier met when that
      expansion left no task.  `refused` says whether the executor refuses a lane. */
  method Walk(path: Path, tree: Tree, options: WalkOptions, sameFileSystem: bool, requestedWorkers: nat,
              refused: bool, skipStdout: bool)
    returns (result: Result<Report, WalkError>)
    requires requestedWorkers >= 1
    ensures result.Ok? ==> Reports(options, skipStdout, OrderedPull.FullWalk(options, path, tree), result.value)
    ensures result.Err? && result.error.operation != ScheduleWorker ==>
      Err(result.error) in OrderedPull.FullWalk(options, path, tree)
    ensures (result.Err? && result.error.operation == ScheduleWorker) <==>
      && refused && !Drained(path, tree, options, sameFileSystem, requestedWorkers)
      && !(options.errorPolicy == Abort && RootFails(path, tree, options))
    ensures !(result.Err? && result.error.operation == ScheduleWorker) ==>
      (result.Err? <==>
        && options.errorPolicy == Abort && HasError(OrderedPull.FullWalk(options, path, tree))
        && (RootFails(path, tree, options) || !Drained(path, tree, options, sameFileSystem, requestedWorkers)))
  {
    hide Held, Shown, Whole, Drained, RootFails, HasError, Kept, KeptEntries, Reports, OrderedPull.FullWalk;
    WholeIsFullWalk(options, path, tree);
    result := CollectWalk(path, tree, options, sameFileSystem, requestedWorkers, refused);
    if result.Ok? {
      KeptHeld(result.value.entries, result.value.errors, Shown(Whole(path, tree, options.maxDepth), options.minDepth));
      var kept := WithoutStdout(result.value, skipStdout);
      result := Ok(kept);
      HeldReports(path, tree, options, skipStdout, kept);
    }
  }

  lemma WholeIsLocal(path: Path, tree: Tree, maxDepth: Option<nat>)
    ensures forall i | i in Whole(path, tree, maxDepth) && i.Err? :: i.error.operation != ScheduleWorker
  {
    if Descends(Ok(Visit(path, 0, tree, maxDepth))) { BelowIsDeep(path, 0, tree, maxDepth); }
  }

  lemma EnoughTasks(tasks: seq<DirectoryTask>, options: WalkOptions, targetTasks: nat)
    requires (forall t | t in tasks :: t.tree.Directory?) && |tasks| >= targetTasks
    ensures Frontier(tasks, options, targetTasks) == tasks
  {
  }

  lemma NoFrontier(options: WalkOptions, targetTasks: nat)
    ensures Frontier([], options, targetTasks) == []
  {
  }

  lemma NoTasks(shallow: ShallowWalk, options: WalkOptions)
    requires shallow.tasks == []
    ensures Total(shallow, options) == Held(shallow.entries, shallow.errors)
  {
  }

  lemma LanesHeld(shallow: ShallowWalk, options: WalkOptions, report: Report)
    requires report.entries == shallow.entries + TaskEntries(shallow.tasks, options)
    requires report.errors == shallow.errors + TaskErrors(shallow.tasks, options)
    ensures Held(report.entries, report.errors) == Total(shallow, options)
  {
    hide Held, Pending;
    TasksHeld(shallow.tasks, options);
    HeldAppend(shallow.entries, TaskEntries(shallow.tasks, options), shallow.errors, TaskErrors(shallow.tasks, options));
  }

  lemma {:induction false} ErrorShown(items: seq<WalkItem>, minDepth: nat, item: WalkItem)
    ensures item in Shown(items, minDepth) ==> item in items
    ensures item.Err? && item in items ==> item in Shown(items, minDepth)
  {
    if items != [] {
      assert items == [items[0]] + items[1..];
      ErrorShown(items[1..], minDepth, item);
    }
  }

  /** The reported errors are errors of the walk, and there is one if the walk has one; none is a refused submission. */
  lemma ErrorsKnown(entries: seq<WalkEntry>, errors: seq<WalkError>, items: seq<WalkItem>, minDepth: nat)
    requires Held(entries, errors) == multiset(Shown(items, minDepth))
    requires forall i | i in items && i.Err? :: i.error.operation != ScheduleWorker
    ensures errors != [] <==> HasError(items)
    ensures forall e | e in errors :: e.operation != ScheduleWorker
    ensures forall e | e in errors :: Err(e) in items
  {
    forall e | e in errors
      ensures Err(e) in items
    {
      var i :| 0 <= i < |errors| && errors[i] == e;
      assert Errs(errors)[i] == Err(e);
      assert Err(e) in multiset(Shown(items, minDepth));
      ErrorShown(items, minDepth, Err(e));
    }
    if errors != [] { assert errors[0] in errors && Err(errors[0]) in items; }
    if HasError(items) {
      var item :| item in items && item.Err?;
      ErrorShown(items, minDepth, item);
      assert item in Held(entries, errors);
      assert item in Oks(entries) || item in Errs(errors);
      if item in Errs(errors) {
        var i :| 0 <= i < |Errs(errors)| && Errs(errors)[i] == item;
        assert errors[i] in errors;
      }
    }
  }

  lemma ErrorIsReal(shallow: ShallowWalk, options: WalkOptions, path: Path, tree: Tree)
    requires shallow.errors != []
    requires forall i | i in Whole(path, tree, options.maxDepth) && i.Err? :: i.error.operation != ScheduleWorker
    requires Total(shallow, options) == multiset(Shown(Whole(path, tree, options.maxDepth), options.minDepth))
    ensures Err(shallow.errors[0]) in Whole(path, tree, options.maxDepth) && HasError(Whole(path, tree, options.maxDepth))
    ensures shallow.errors[0].operation != ScheduleWorker
  {
    assert Errs(shallow.errors)[0] == Err(shallow.errors[0]);
    assert Err(shallow.errors[0]) in Held(shallow.entries, shallow.errors);
    assert Err(shallow.errors[0]) in Total(shallow, options);
    ErrorShown(Whole(path, tree, options.maxDepth), options.minDepth, Err(shallow.errors[0]));
  }

  /** A directory whose only child cannot be read is walked to the end although errors abort. */
  lemma AbortIsMissed()
    ensures var tree := Directory(None, true, [Dirent("a", Directory(None, false, []))]);
      var options := WalkOptions(0, None, 1, Abort);
      && HasError(OrderedPull.FullWalk(options, ["r"], tree))
      && !RootFails(["r"], tree, options) && Drained(["r"], tree, options, false, 1)
  {
    WholeIsFullWalk(WalkOptions(0, None, 1, Abort), ["r"], Directory(None, true, [Dirent("a", Directory(None, false, []))]));
    MissedError();
    MissedDrained();
  }

  lemma MissedError()
    ensures HasError(Whole(["r"], Directory(None, true, [Dirent("a", Directory(None, false, []))]), None))
  {
    var inner := Directory(None, false, []);
    var tree := Directory(None, true, [Dirent("a", inner)]);
    var error: WalkItem := Err(WalkError(["r"] + ["a"], 1, ReadDirectory));
    var entry: WalkItem := Ok(Visit(["r"] + ["a"], 1, inner, None));
    assert One(["r"], 0, Dirent("a", inner), None) == [entry, error];
    assert tree.listing[1..] == [] && Listed(["r"], 0, tree.listing, None) == [entry, error] + Listed(["r"], 0, [], None);
    assert Below(["r"], 0, tree, None)[1] == error;
    assert Whole(["r"], tree, None)[2] == error;
  }

  lemma MissedDrained()
    ensures Drained(["r"], Directory(None, true, [Dirent("a", Directory(None, false, []))]), WalkOptions(0, None, 1, Abort), false, 1)
  {
    var inner := Directory(None, false, []);
    var tree := Directory(None, true, [Dirent("a", inner)]);
    var options := WalkOptions(0, None, 1, Abort);
    var task := DirectoryTask(["r"] + ["a"], 1, inner);
    var tasks := RootTasks(["r"], tree, options);
    hide Frontier;
    assert tree.listing[..|tree.listing| - 1] == [] && tree.listing[|tree.listing| - 1] == Dirent("a", inner);
    assert ChildOf(["r"], 0, Dirent("a", inner), None) == [task];
    assert Subdirectories(["r"], 0, [], None) == [] && [] + [task] == [task];
    assert Subdirectories(["r"], 0, tree.listing, None) == [task] == tasks;
    assert Children(task, options) == [] && tasks[..0] == [];
    assert Round(tasks, options) == [];
    MissedFrontier(tasks, options);
  }

  lemma MissedFrontier(tasks: seq<DirectoryTask>, options: WalkOptions)
    requires |tasks| == 1 && tasks[0].tree.Directory? && Round(tasks, options) == []
    ensures Frontier(tasks, options, 2) == []
  {
    assert Frontier(tasks, options, 2) == Frontier([], options, 2);
  }
}
