/**
 The directory visit behind the dynamic work queue: which entries the visitor sees, which
 directories are queued and what is counted.
 */
module DynamicVisit {
  import opened Wrappers
  import opened FileTree
  import opened OrderedPull
  import DynamicWalk

  datatype WalkControl = Descend | Skip | Quit

  datatype BatchControl = BatchControl(entries: seq<WalkControl>, quit: bool)

  type Visitor = (seq<WalkEntry>, seq<WalkError>) -> BatchControl

  /** The entries of a batch that were read, with the trees behind them. */
  function Entries(rows: seq<Row>): seq<Row> {
    if rows == [] then []
    else (if rows[0].item.Ok? then [rows[0]] else []) + Entries(rows[1..])
  }

  function Errors(rows: seq<Row>): seq<WalkError> {
    if rows == [] then []
    else (if rows[0].item.Err? then [rows[0].item.error] else []) + Errors(rows[1..])
  }

  function Seen(entries: seq<Row>): seq<WalkEntry> {
    if entries == [] then []
    else (if entries[0].item.Ok? then [entries[0].item.value] else []) + Seen(entries[1..])
  }

  /** `Vec::resize` with `Continue`: a visitor that answers too little descends everywhere. */
  function Resize(controls: seq<WalkControl>, length: nat): (resized: seq<WalkControl>)
    ensures |resized| == length
    ensures forall i | 0 <= i < length :: resized[i] == if i < |controls| then controls[i] else Descend
  {
    seq(length, i requires 0 <= i < length => if i < |controls| then controls[i] else Descend)
  }

  function Directories(entries: seq<Row>, controls: seq<WalkControl>, quit: bool): seq<DirectoryTask>
    requires |entries| == |controls|
  {
    if entries == [] then []
    else
      (if Child(entries[0]).Some? && controls[0] == Descend && !quit then [Child(entries[0]).value] else [])
      + Directories(entries[1..], controls[1..], quit)
  }

  function Decide(options: WalkOptions, visitor: Visitor, task: DirectoryTask, rows: seq<Row>): BatchControl {
    var visible := task.depth + 1 >= options.minDepth;
    var entries, errors := Entries(rows), Errors(rows);
    var decision :=
      if visible || errors != [] then visitor(if visible then Seen(entries) else [], errors)
      else BatchControl(Resize([], |entries|), false);
    BatchControl(Resize(if visible then decision.entries else [], |entries|), decision.quit)
  }

  /** `report_for`. */
  function ReportFor(options: WalkOptions, visitor: Visitor, task: DirectoryTask, rows: seq<Row>)
    : DynamicWalk.TaskReport<DirectoryTask>
  {
    var entries, errors := Entries(rows), Errors(rows);
    var decision := Decide(options, visitor, task, rows);
    DynamicWalk.TaskReport(
      Directories(entries, decision.entries, decision.quit),
      if task.depth + 1 >= options.minDepth then |entries| else 0,
      errors != [],
      decision.quit || (options.errorPolicy == Abort && errors != []))
  }

  function Source(options: WalkOptions, visitor: Visitor): DynamicWalk.Source<DirectoryTask> {
    DynamicWalk.Source(
      (task: DirectoryTask) => ReportFor(options, visitor, task, ReadDirectoryRows(options, task)),
      TaskSize,
      options.errorPolicy == Abort)
  }

  /** Exactly the directories that may be entered and that the visitor did not refuse are queued. */
  lemma {:induction false} QueuedExactly(entries: seq<Row>, controls: seq<WalkControl>, quit: bool, child: DirectoryTask)
    requires |entries| == |controls|
    ensures child in Directories(entries, controls, quit)
      <==> !quit && exists i :: 0 <= i < |entries| && Child(entries[i]) == Some(child) && controls[i] == Descend
  {
    if entries != [] {
      QueuedExactly(entries[1..], controls[1..], quit, child);
      if i :| 0 <= i < |entries[1..]| && Child(entries[1..][i]) == Some(child) && controls[1..][i] == Descend {
        assert Child(entries[i + 1]) == Some(child) && controls[i + 1] == Descend;
      }
      if i :| 0 < i < |entries| && Child(entries[i]) == Some(child) && controls[i] == Descend {
        assert entries[1..][i - 1] == entries[i] && controls[1..][i - 1] == controls[i];
      }
    }
  }

  lemma {:induction false} EntriesWithin(rows: seq<Row>)
    ensures forall row | row in Entries(rows) :: row in rows && row.item.Ok?
  {
    if rows != [] { EntriesWithin(rows[1..]); }
  }

  lemma FiniteSource(options: WalkOptions, visitor: Visitor)
    ensures Source(options, visitor).WellFounded()
  {
    forall task: DirectoryTask, child | child in Source(options, visitor).report(task).directories
      ensures TaskSize(child) < TaskSize(task)
    {
      var rows := ReadDirectoryRows(options, task);
      var decision := Decide(options, visitor, task, rows);
      QueuedExactly(Entries(rows), decision.entries, decision.quit, child);
      var i :| 0 <= i < |Entries(rows)| && Child(Entries(rows)[i]) == Some(child);
      EntriesWithin(rows);
      assert Entries(rows)[i] in Entries(rows);
      ChildSmaller(options, task, Entries(rows)[i]);
    }
  }

  // The reference: what a directory contributes, in terms of its contents and the visitor's answer --------------

  /** The entries of a listing that can be read, in order. */
  ghost function Named(listing: seq<Dirent>): (named: seq<Dirent>)
    ensures forall d | d in named :: d.Dirent? && TreeSize(d.tree) <= ListingSize(listing)
  {
    if listing == [] then []
    else if listing[0].Dirent? then [listing[0]] + Named(listing[1..])
    else Named(listing[1..])
  }

  /** What cannot be read of a listing. */
  ghost function Failures(task: DirectoryTask, listing: seq<Dirent>): seq<WalkError> {
    if listing == [] then []
    else
      (match listing[0]
       case Broken => [WalkError(task.path, task.depth + 1, ReadEntry)]
       case Untyped(name) => [WalkError(task.path + [name], task.depth + 1, ReadMetadata)]
       case Dirent(_, _) => [])
      + Failures(task, listing[1..])
  }

  ghost function ReadableEntries(task: DirectoryTask): seq<Dirent> { if task.readable then Named(task.listing) else [] }

  ghost function AllFailures(task: DirectoryTask): seq<WalkError> {
    if task.readable then Failures(task, task.listing) else [WalkError(task.path, task.depth, ReadDirectory)]
  }

  /** The entries the visitor sees, in listing order; none above `minDepth`. */
  ghost function ShownEntries(options: WalkOptions, task: DirectoryTask): (shown: seq<WalkEntry>)
    ensures task.depth + 1 >= options.minDepth ==> |shown| == |ReadableEntries(task)|
    ensures task.depth + 1 < options.minDepth ==> shown == []
  {
    var named := ReadableEntries(task);
    if task.depth + 1 < options.minDepth then []
    else
      seq(|named|, k requires 0 <= k < |named| =>
        Visit(task.path + [named[k].name], task.depth + 1, named[k].tree, options.maxDepth))
  }

  /** The visitor's answer.  A directory above `minDepth` without errors is not announced to it. */
  ghost function Answer(options: WalkOptions, visitor: Visitor, task: DirectoryTask): BatchControl {
    if task.depth + 1 < options.minDepth && AllFailures(task) == [] then BatchControl([], false)
    else visitor(ShownEntries(options, task), AllFailures(task))
  }

  /** The visitor has not refused entry `k`: where it sees nothing or answers too little it refuses nothing. */
  ghost predicate NotRefused(options: WalkOptions, visitor: Visitor, task: DirectoryTask, k: nat) {
    task.depth + 1 >= options.minDepth && k < |Answer(options, visitor, task).entries| ==>
      Answer(options, visitor, task).entries[k] == Descend
  }

  /** The directory of readable entry `k` is to be visited: it may be entered, and the visitor has not refused it. */
  ghost predicate LetThrough(options: WalkOptions, visitor: Visitor, task: DirectoryTask, k: nat)
    requires k < |ReadableEntries(task)|
  {
    && Entered(ReadableEntries(task)[k].tree, options.maxDepth, task.depth + 1)
    && NotRefused(options, visitor, task, k)
  }

  ghost function DirectoryOf(task: DirectoryTask, d: Dirent): DirectoryTask
    requires d.Dirent? && d.tree.Directory?
  {
    DirectoryTask(task.path + [d.name], task.depth + 1, d.tree.readable, d.tree.listing)
  }

  /** The directories that are let through from readable entry `k` on, in listing order. */
  ghost function Accepted(options: WalkOptions, visitor: Visitor, task: DirectoryTask, k: nat): (accepted: seq<DirectoryTask>)
    requires k <= |ReadableEntries(task)|
    ensures forall t | t in accepted :: ListingSize(t.listing) < ListingSize(task.listing)
    decreases |ReadableEntries(task)| - k
  {
    if k == |ReadableEntries(task)| then []
    else
      (if LetThrough(options, visitor, task, k) then [DirectoryOf(task, ReadableEntries(task)[k])] else [])
      + Accepted(options, visitor, task, k + 1)
  }

  /** The directories to visit next: none if the visitor quits. */
  ghost function NextDirectories(options: WalkOptions, visitor: Visitor, task: DirectoryTask): (next: seq<DirectoryTask>)
    ensures forall t | t in next :: ListingSize(t.listing) < ListingSize(task.listing)
  {
    if Answer(options, visitor, task).quit then [] else Accepted(options, visitor, task, 0)
  }

  /** A directory is visited next exactly if the visitor did not quit and let through an entry that leads to it. */
  lemma {:induction false} AcceptedExactly(
    options: WalkOptions, visitor: Visitor, task: DirectoryTask, k: nat, child: DirectoryTask)
    requires k <= |ReadableEntries(task)|
    ensures child in Accepted(options, visitor, task, k)
      <==> exists i :: k <= i < |ReadableEntries(task)| && LetThrough(options, visitor, task, i)
                       && child == DirectoryOf(task, ReadableEntries(task)[i])
    decreases |ReadableEntries(task)| - k
  {
    if k < |ReadableEntries(task)| {
      AcceptedExactly(options, visitor, task, k + 1, child);
      hide NotRefused, Entered, DirectoryOf, ReadableEntries;
    }
  }

  /** The row of a readable entry. */
  ghost function EntryRow(options: WalkOptions, task: DirectoryTask, d: Dirent): Row
    requires d.Dirent?
  {
    Row(Ok(Visit(task.path + [d.name], task.depth + 1, d.tree, options.maxDepth)), Some(d.tree))
  }

  /** The rows are those of the readable entries, one by one. */
  ghost predicate RowsOf(options: WalkOptions, task: DirectoryTask, entries: seq<Row>, named: seq<Dirent>) {
    && |entries| == |named|
    && forall k | 0 <= k < |named| :: named[k].Dirent? && entries[k] == EntryRow(options, task, named[k])
  }

  lemma {:induction false} EntriesAre(options: WalkOptions, task: DirectoryTask, listing: seq<Dirent>)
    ensures RowsOf(options, task, Entries(Rows(options, task, listing)), Named(listing))
  {
    if listing != [] {
      EntriesAre(options, task, listing[1..]);
      var rows := Rows(options, task, listing);
      assert rows[1..] == Rows(options, task, listing[1..]) && rows[0] == ReadDirent(options, task, listing[0]);
      RowIs(options, task, listing[0]);
      hide Rows, ReadDirent, EntryRow, RowsOf;
      RowsOfCons(options, task, Entries(rows[1..]), Named(listing[1..]), listing[0]);
    }
  }

  lemma RowIs(options: WalkOptions, task: DirectoryTask, d: Dirent)
    ensures ReadDirent(options, task, d).item.Ok? <==> d.Dirent?
    ensures d.Dirent? ==> ReadDirent(options, task, d) == EntryRow(options, task, d)
  {
    if d.Dirent? { WorkerLimitInvisible(task.path, task.depth, d.name, d.tree, options.maxDepth); }
  }

  lemma RowsOfCons(options: WalkOptions, task: DirectoryTask, entries: seq<Row>, named: seq<Dirent>, d: Dirent)
    requires RowsOf(options, task, entries, named)
    ensures [] + entries == entries
    ensures d.Dirent? ==> RowsOf(options, task, [EntryRow(options, task, d)] + entries, [d] + named)
  {
    hide EntryRow;
  }

  lemma {:induction false} ErrorsAre(options: WalkOptions, task: DirectoryTask, listing: seq<Dirent>)
    ensures Errors(Rows(options, task, listing)) == Failures(task, listing)
  {
    if listing != [] {
      ErrorsAre(options, task, listing[1..]);
      assert Rows(options, task, listing)[1..] == Rows(options, task, listing[1..]);
    }
  }

  /** The rows of a directory hold its readable entries, with their trees, and its failures. */
  lemma RowsReadable(options: WalkOptions, task: DirectoryTask)
    ensures RowsOf(options, task, Entries(ReadDirectoryRows(options, task)), ReadableEntries(task))
    ensures Errors(ReadDirectoryRows(options, task)) == AllFailures(task)
  {
    if task.readable {
      EntriesAre(options, task, task.listing);
      ErrorsAre(options, task, task.listing);
    } else {
      var rows := ReadDirectoryRows(options, task);
      assert rows[1..] == [] && Entries(rows) == [] && Errors(rows) == [rows[0].item.error];
    }
  }

  lemma {:induction false} SeenAt(entries: seq<Row>)
    requires forall row | row in entries :: row.item.Ok?
    ensures |Seen(entries)| == |entries| && forall k | 0 <= k < |entries| :: Seen(entries)[k] == entries[k].item.value
  {
    if entries != [] { SeenAt(entries[1..]); }
  }

  /** The decision of `report_for` is the visitor's answer, filled up with `Descend`. */
  lemma DecideIs(options: WalkOptions, visitor: Visitor, task: DirectoryTask)
    ensures var rows := ReadDirectoryRows(options, task);
      var decision, answer := Decide(options, visitor, task, rows), Answer(options, visitor, task);
      && decision.quit == answer.quit && |decision.entries| == |Entries(rows)|
      && forall k | 0 <= k < |Entries(rows)| ::
           decision.entries[k] == Descend <==> NotRefused(options, visitor, task, k)
  {
    var rows := ReadDirectoryRows(options, task);
    RowsReadable(options, task);
    SeenIsShown(options, task);
    hide ReadDirectoryRows, ShownEntries, AllFailures, Entries, Errors, Seen;
  }

  lemma SeenIsShown(options: WalkOptions, task: DirectoryTask)
    ensures ShownEntries(options, task)
         == if task.depth + 1 >= options.minDepth then Seen(Entries(ReadDirectoryRows(options, task))) else []
  {
    var rows := ReadDirectoryRows(options, task);
    RowsReadable(options, task);
    EntriesWithin(rows);
    SeenAt(Entries(rows));
    hide ReadDirectoryRows, Entries, Seen;
    if task.depth + 1 >= options.minDepth {
      assert Seen(Entries(rows)) == ShownEntries(options, task);
    }
  }

  /** The controls say what the visitor has not refused, from entry `k` on. */
  ghost predicate AnswersFrom(options: WalkOptions, visitor: Visitor, task: DirectoryTask, controls: seq<WalkControl>, k: nat) {
    forall j | 0 <= j < |controls| :: controls[j] == Descend <==> NotRefused(options, visitor, task, k + j)
  }

  lemma AnswersTail(options: WalkOptions, visitor: Visitor, task: DirectoryTask, controls: seq<WalkControl>, k: nat)
    requires AnswersFrom(options, visitor, task, controls, k) && controls != []
    ensures controls[0] == Descend <==> NotRefused(options, visitor, task, k)
    ensures AnswersFrom(options, visitor, task, controls[1..], k + 1)
  {
    hide NotRefused;
    assert k + 0 == k;
    forall j | 0 <= j < |controls[1..]|
      ensures controls[1..][j] == Descend <==> NotRefused(options, visitor, task, k + 1 + j)
    {
      assert k + 1 + j == k + (j + 1) && controls[1..][j] == controls[j + 1];
    }
  }

  lemma {:induction false} DirectoriesAre(options: WalkOptions, visitor: Visitor, task: DirectoryTask,
                                          entries: seq<Row>, controls: seq<WalkControl>, k: nat)
    requires k <= |ReadableEntries(task)| && |controls| == |entries|
    requires RowsOf(options, task, entries, ReadableEntries(task)[k..])
    requires AnswersFrom(options, visitor, task, controls, k)
    ensures Directories(entries, controls, false) == Accepted(options, visitor, task, k)
    decreases |entries|
  {
    if entries != [] {
      var d := ReadableEntries(task)[k];
      RowLeads(options, task, d);
      assert ReadableEntries(task)[k..][0] == d && ReadableEntries(task)[k + 1..] == ReadableEntries(task)[k..][1..];
      RowsOfTail(options, task, entries, ReadableEntries(task)[k..]);
      AnswersTail(options, visitor, task, controls, k);
      hide AnswersFrom, NotRefused, EntryRow, Child, DirectoryOf, Entered, RowsOf, ReadableEntries;
      DirectoriesAre(options, visitor, task, entries[1..], controls[1..], k + 1);
    }
  }

  lemma RowsOfTail(options: WalkOptions, task: DirectoryTask, entries: seq<Row>, named: seq<Dirent>)
    requires RowsOf(options, task, entries, named) && entries != []
    ensures named != [] && named[0].Dirent? && entries[0] == EntryRow(options, task, named[0])
    ensures RowsOf(options, task, entries[1..], named[1..])
  {
    hide EntryRow;
  }

  /** The row of a readable entry leads to a directory exactly if that may be entered. */
  lemma RowLeads(options: WalkOptions, task: DirectoryTask, d: Dirent)
    requires d.Dirent?
    ensures Child(EntryRow(options, task, d)).Some? <==> Entered(d.tree, options.maxDepth, task.depth + 1)
    ensures Entered(d.tree, options.maxDepth, task.depth + 1) ==>
      d.tree.Directory? && Child(EntryRow(options, task, d)).value == DirectoryOf(task, d)
  {
    VisitTells(task.path + [d.name], task.depth + 1, d.tree, options.maxDepth);
  }

  lemma {:induction false} NoDirectories(entries: seq<Row>, controls: seq<WalkControl>)
    requires |entries| == |controls|
    ensures Directories(entries, controls, true) == []
  {
    if entries != [] { NoDirectories(entries[1..], controls[1..]); }
  }

  /** The report of a directory, in terms of its contents and the visitor's answer only. */
  lemma ReportIs(options: WalkOptions, visitor: Visitor, task: DirectoryTask)
    ensures Source(options, visitor).report(task) == DynamicWalk.TaskReport(
      NextDirectories(options, visitor, task),
      |ShownEntries(options, task)|,
      AllFailures(task) != [],
      Answer(options, visitor, task).quit || (options.errorPolicy == Abort && AllFailures(task) != []))
  {
    var rows := ReadDirectoryRows(options, task);
    var decision := Decide(options, visitor, task, rows);
    RowsReadable(options, task);
    DecideIs(options, visitor, task);
    hide Decide, Answer, NotRefused;
    if decision.quit {
      NoDirectories(Entries(rows), decision.entries);
    } else {
      DirectoriesAre(options, visitor, task, Entries(rows), decision.entries, 0);
    }
  }

  /** All directories a traversal visits from `task` on, each as often as it is let through. */
  ghost function Reached(options: WalkOptions, visitor: Visitor, task: DirectoryTask): multiset<DirectoryTask>
    decreases ListingSize(task.listing), 1, 0
  {
    multiset{task} + ReachedFrom(options, visitor, NextDirectories(options, visitor, task), ListingSize(task.listing))
  }

  ghost function ReachedFrom(options: WalkOptions, visitor: Visitor, tasks: seq<DirectoryTask>, bound: nat)
    : multiset<DirectoryTask>
    requires forall t | t in tasks :: ListingSize(t.listing) < bound
    decreases bound, 0, |tasks|
  {
    if tasks == [] then multiset{}
    else Reached(options, visitor, tasks[0]) + ReachedFrom(options, visitor, tasks[1..], bound)
  }

  /** The entries the visitor sees of the directories. */
  ghost function ShownCount(options: WalkOptions, tasks: seq<DirectoryTask>): nat {
    if tasks == [] then 0 else |ShownEntries(options, tasks[0])| + ShownCount(options, tasks[1..])
  }

  lemma {:induction false} TreeIsReached(options: WalkOptions, visitor: Visitor, task: DirectoryTask)
    requires Source(options, visitor).WellFounded()
    ensures Source(options, visitor).Tree(task) == Reached(options, visitor, task)
    decreases ListingSize(task.listing), 1, 0
  {
    ReportIs(options, visitor, task);
    Source(options, visitor).TreeUnfolds(task);
    TreesAreReached(options, visitor, NextDirectories(options, visitor, task), ListingSize(task.listing));
  }

  lemma {:induction false} TreesAreReached(options: WalkOptions, visitor: Visitor, tasks: seq<DirectoryTask>, bound: nat)
    requires Source(options, visitor).WellFounded() && forall t | t in tasks :: ListingSize(t.listing) < bound
    ensures Source(options, visitor).Trees(tasks) == ReachedFrom(options, visitor, tasks, bound)
    decreases bound, 0, |tasks|
  {
    if tasks != [] {
      TreeIsReached(options, visitor, tasks[0]);
      TreesAreReached(options, visitor, tasks[1..], bound);
    }
  }

  lemma {:induction false} VisitedIsShown(options: WalkOptions, visitor: Visitor, tasks: seq<DirectoryTask>)
    ensures Source(options, visitor).Visited(tasks) == ShownCount(options, tasks)
  {
    if tasks != [] {
      ReportIs(options, visitor, tasks[0]);
      VisitedIsShown(options, visitor, tasks[1..]);
    }
  }

  /** The traversal goes on behind the directory: the visitor does not quit, and no error aborts. */
  ghost predicate GoesOn(options: WalkOptions, visitor: Visitor, task: DirectoryTask) {
    !Answer(options, visitor, task).quit && (options.errorPolicy == Abort ==> AllFailures(task) == [])
  }

  /** The first directory to read.  A root that is a regular file is queued like a directory, too. */
  function RootTask(path: Path, root: Tree): DirectoryTask {
    if root.Directory? then DirectoryTask(path, 0, root.readable, root.listing) else DirectoryTask(path, 0, false, [])
  }

  /** An accepted regular-file root is read as a directory, which fails: the visit of a single file reports an
      error, and fails as a whole where errors abort. */
  lemma FileRootReadAsDirectory(options: WalkOptions, visitor: Visitor, path: Path, stdout: bool)
    ensures var report := Source(options, visitor).report(RootTask(path, File(stdout)));
      report.errors && report.directories == [] && report.visited == 0 && (options.errorPolicy == Abort ==> report.quit)
    ensures ReadDirectoryRows(options, RootTask(path, File(stdout))) == [Row(Err(WalkError(path, 0, ReadDirectory)), None)]
  {
    var rows := ReadDirectoryRows(options, RootTask(path, File(stdout)));
    assert rows[1..] == [] && Entries(rows) == [] && Errors(rows) == [rows[0].item.error];
  }

  predicate RootAccepted(options: WalkOptions, visitor: Visitor, path: Path, root: Tree) {
    var entry := Visit(path, 0, root, options.maxDepth);
    && entry.skip.None?
    && (options.minDepth == 0 ==>
          var decision := visitor([entry], []);
          !decision.quit && (decision.entries != [] ==> decision.entries[0] == Descend))
  }

  /** The visitor ends the traversal when it sees the root. */
  predicate RootQuits(options: WalkOptions, visitor: Visitor, path: Path, root: Tree) {
    options.minDepth == 0 &&
    var decision := visitor([Visit(path, 0, root, options.maxDepth)], []);
    decision.quit || (decision.entries != [] && decision.entries[0] == Quit)
  }

  /** What a traversal visits below its root entry. */
  ghost function Below(options: WalkOptions, visitor: Visitor, path: Path, root: Tree): multiset<DirectoryTask> {
    if RootAccepted(options, visitor, path, root) then Reached(options, visitor, RootTask(path, root)) else multiset{}
  }

  /** Every directory is the root or was let through by the visitor in a directory before it. */
  ghost predicate LedTo(options: WalkOptions, visitor: Visitor, root: DirectoryTask, finished: seq<DirectoryTask>) {
    forall i | 0 <= i < |finished| ::
      finished[i] == root || exists j | 0 <= j < i :: finished[i] in NextDirectories(options, visitor, finished[j])
  }

  /** `run_batched`: the visitor sees the root first; below it every directory reachable through
      accepted entries is visited once and every visible entry is counted once.  A traversal that the visitor or
      an error ends early has still come to every directory it finished through accepted entries. */
  method RunBatched(options: WalkOptions, visitor: Visitor, path: Path, root: Tree, workers: nat, spuriousWakes: nat,
                    disturbed: bool)
    returns (visited: nat, quit: bool, ghost finished: seq<DirectoryTask>, ghost clean: bool)
    requires workers >= 1 && (root.File? || (root.Directory? && root.boundary.None?))
    ensures multiset(finished) <= Below(options, visitor, path, root)
    ensures clean ==>
      && multiset(finished) == Below(options, visitor, path, root)
      && visited == (if options.minDepth == 0 then 1 else 0) + ShownCount(options, finished)
    ensures !disturbed ==>
      && visited == (if options.minDepth == 0 then 1 else 0) + ShownCount(options, finished)
      && (quit <==> RootQuits(options, visitor, path, root) || exists task :: task in finished && !GoesOn(options, visitor, task))
      && LedTo(options, visitor, RootTask(path, root), finished)
      && (finished == [] <==> !RootAccepted(options, visitor, path, root))
    ensures !disturbed && (forall task | task in Below(options, visitor, path, root) :: GoesOn(options, visitor, task)) ==> clean
  {
    FiniteSource(options, visitor);
    var entry := Visit(path, 0, root, options.maxDepth);
    visited, quit, finished, clean := 0, false, [], true;
    var cancelled: bool := *;
    if disturbed && cancelled {
      clean := false;
      return;
    }
    var control := Descend;
    if options.minDepth == 0 {
      visited := 1;
      var decision := visitor([entry], []);
      control := if decision.entries != [] then decision.entries[0] else Descend;
      if decision.quit {
        control := Quit;
      }
    }
    if entry.skip.Some? || control != Descend {
      quit := control == Quit;
      return;
    }
    var task := RootTask(path, root);
    var s := DynamicWalk.RunWorkers(Source(options, visitor), task, workers, visited, spuriousWakes, disturbed);
    visited, quit, finished, clean := s.visited, s.quit, s.finished, DynamicWalk.Clean(Source(options, visitor), s);
    TreeIsReached(options, visitor, task);
    VisitedIsShown(options, visitor, finished);
    if !disturbed {
      UndisturbedRun(options, visitor, (if options.minDepth == 0 then 1 else 0), s);
      TracedIsLedTo(options, visitor, task, s);
    }
    QuietReached(options, visitor, task);
  }

  lemma QuietReached(options: WalkOptions, visitor: Visitor, root: DirectoryTask)
    requires Source(options, visitor).WellFounded()
    ensures (forall task | task in Reached(options, visitor, root) :: GoesOn(options, visitor, task)) ==>
      DynamicWalk.Quiet(Source(options, visitor), root)
  {
    TreeIsReached(options, visitor, root);
    forall task | task in Reached(options, visitor, root) && GoesOn(options, visitor, task)
      ensures !Source(options, visitor).report(task).quit
      ensures !(options.errorPolicy == Abort && Source(options, visitor).report(task).errors)
    {
      ReportIs(options, visitor, task);
    }
  }

  lemma UndisturbedRun(options: WalkOptions, visitor: Visitor, base: nat, s: DynamicWalk.SharedState<DirectoryTask>)
    requires DynamicWalk.Undisturbed(Source(options, visitor), base, s)
    ensures s.visited == base + ShownCount(options, s.finished)
    ensures s.quit <==> exists task :: task in s.finished && !GoesOn(options, visitor, task)
  {
    VisitedIsShown(options, visitor, s.finished);
    forall task | task in s.finished
      ensures Source(options, visitor).report(task).quit == !GoesOn(options, visitor, task)
    {
      ReportIs(options, visitor, task);
    }
    hide GoesOn, Source, ShownCount;
  }

  lemma TracedIsLedTo(options: WalkOptions, visitor: Visitor, root: DirectoryTask, s: DynamicWalk.SharedState<DirectoryTask>)
    requires DynamicWalk.AllTraced(Source(options, visitor), root, s)
    ensures LedTo(options, visitor, root, s.finished)
  {
    forall i | 0 <= i < |s.finished| && s.finished[i] != root
      ensures exists j | 0 <= j < i :: s.finished[i] in NextDirectories(options, visitor, s.finished[j])
    {
      assert DynamicWalk.Traced(Source(options, visitor), root, s.finished, i, s.finished[i]);
      var j :| 0 <= j < i && s.finished[i] in Source(options, visitor).report(s.finished[j]).directories;
      ReportIs(options, visitor, s.finished[j]);
    }
  }
}
