/**
 The id / ready / outstanding protocol that the ordered pull walk and the stateful walk share.

 Directory tasks get increasing ids, at most `limit` of them are read at a time, results come
 back in any order, early results wait in `ready`, and a stack of frames replays everything in
 depth-first order.  Whatever the environment decides is chosen nondeterministically inside the
 methods, so what they ensure holds for every completion order, every moment of cancellation,
 every failing submission and every consumer that stops listening.
 */
module PullScheduler {
  import opened Wrappers

  /** An item of a prepared directory and the task behind it when the walk descends. */
  datatype Entry<+Item, +Task> = Entry(item: Item, child: Option<Task>)

  datatype Queued<+Task> = Queued(id: nat, task: Task)

  datatype Prepared<+Item> = Prepared(item: Item, child: Option<nat>)

  /** A prepared directory and the position of its iterator. */
  datatype DirectoryFrame<+Item> = DirectoryFrame(items: seq<Prepared<Item>>, next: nat)

  /** What a worker computes for a task, and how the coordinator lays a batch out as a frame.
      `rank` witnesses that the tree below a task is finite. */
  datatype Program<!Task(!new), !Batch, Item> = Program(
    read: Task -> Batch,
    prepare: Batch -> seq<Entry<Item, Task>>,
    rank: Task -> nat)
  {
    function Frame(task: Task): seq<Entry<Item, Task>> { prepare(read(task)) }

    ghost predicate WellFounded() {
      forall task :: Below(Frame(task), rank(task))
    }

    ghost predicate Below(entries: seq<Entry<Item, Task>>, bound: nat) {
      forall entry | entry in entries && entry.child.Some? :: rank(entry.child.value) < bound
    }

    /** The recursive pre-order walk: the reference for both schedulers. */
    ghost function Walk(task: Task): seq<Item>
      requires WellFounded()
      decreases rank(task), 1, 0
    {
      WalkEntries(Frame(task), rank(task))
    }

    ghost function WalkEntries(entries: seq<Entry<Item, Task>>, bound: nat): seq<Item>
      requires WellFounded() && Below(entries, bound)
      decreases bound, 0, |entries|
    {
      if entries == [] then []
      else [entries[0].item] + WalkChild(entries[0].child, bound) + WalkEntries(entries[1..], bound)
    }

    ghost function WalkChild(child: Option<Task>, bound: nat): seq<Item>
      requires WellFounded() && (child.Some? ==> rank(child.value) < bound)
      decreases bound, 0, 0
    {
      match child
      case None => []
      case Some(task) => Walk(task)
    }

    lemma WalkCons(entry: Entry<Item, Task>, rest: seq<Entry<Item, Task>>, bound: nat)
      requires WellFounded() && Below(rest, bound) && (entry.child.Some? ==> rank(entry.child.value) < bound)
      ensures Below([entry] + rest, bound)
      ensures WalkEntries([entry] + rest, bound) == [entry.item] + WalkChild(entry.child, bound) + WalkEntries(rest, bound)
    {
      assert ([entry] + rest)[1..] == rest;
    }

    /** Every child id of the frame has a task. */
    ghost predicate Known(items: seq<Prepared<Item>>, tasks: map<nat, Task>) {
      forall i | 0 <= i < |items| && items[i].child.Some? :: items[i].child.value in tasks
    }

    /** What a frame still has to emit, in order. */
    ghost function PendingItems(items: seq<Prepared<Item>>, next: nat, tasks: map<nat, Task>): seq<Item>
      requires WellFounded() && Known(items, tasks) && next <= |items|
      decreases |items| - next
    {
      if next == |items| then []
      else
        [items[next].item]
        + (match items[next].child case None => [] case Some(id) => Walk(tasks[id]))
        + PendingItems(items, next + 1, tasks)
    }

    ghost predicate KnownFrames(frames: seq<DirectoryFrame<Item>>, tasks: map<nat, Task>) {
      forall f | 0 <= f < |frames| :: frames[f].next <= |frames[f].items| && Known(frames[f].items, tasks)
    }

    /** What the whole stack still has to emit, the innermost frame first. */
    ghost function PendingFrames(frames: seq<DirectoryFrame<Item>>, tasks: map<nat, Task>): seq<Item>
      requires WellFounded() && KnownFrames(frames, tasks)
    {
      if frames == [] then []
      else
        var last := |frames| - 1;
        PendingItems(frames[last].items, frames[last].next, tasks) + PendingFrames(frames[..last], tasks)
    }

    lemma PendingPush(frames: seq<DirectoryFrame<Item>>, frame: DirectoryFrame<Item>, tasks: map<nat, Task>)
      requires WellFounded() && KnownFrames(frames, tasks)
      requires frame.next <= |frame.items| && Known(frame.items, tasks)
      ensures KnownFrames(frames + [frame], tasks)
      ensures PendingFrames(frames + [frame], tasks)
           == PendingItems(frame.items, frame.next, tasks) + PendingFrames(frames, tasks)
    {
      assert (frames + [frame])[..|frames|] == frames;
    }

    /** What follows the next item of the innermost frame. */
    ghost function PendingAfter(frames: seq<DirectoryFrame<Item>>, tasks: map<nat, Task>): seq<Item>
      requires WellFounded() && KnownFrames(frames, tasks) && frames != []
      requires frames[|frames| - 1].next < |frames[|frames| - 1].items|
    {
      var frame := frames[|frames| - 1];
      match frame.items[frame.next].child
      case None => PendingFrames(Advance(frames), tasks)
      case Some(id) => Walk(tasks[id]) + PendingFrames(Advance(frames), tasks)
    }

    lemma PendingAdvance(frames: seq<DirectoryFrame<Item>>, tasks: map<nat, Task>)
      requires WellFounded() && KnownFrames(frames, tasks) && frames != []
      requires frames[|frames| - 1].next < |frames[|frames| - 1].items|
      ensures KnownFrames(Advance(frames), tasks)
      ensures var frame := frames[|frames| - 1];
        PendingFrames(frames, tasks) == [frame.items[frame.next].item] + PendingAfter(frames, tasks)
    {
      var last := |frames| - 1;
      var frame := frames[last];
      assert Advance(frames)[..last] == frames[..last] && Advance(frames)[last] == frame.(next := frame.next + 1);
      KnownAdvance(frames, tasks);
      var inner := PendingItems(frame.items, frame.next + 1, tasks);
      var outer := PendingFrames(frames[..last], tasks);
      var child := match frame.items[frame.next].child case None => [] case Some(id) => Walk(tasks[id]);
      assert PendingItems(frame.items, frame.next, tasks) == [frame.items[frame.next].item] + child + inner;
      hide Walk, PendingItems, KnownFrames, Known, WellFounded;
      assert PendingFrames(Advance(frames), tasks) == inner + outer;
      Associate([frame.items[frame.next].item], child, inner, outer);
      assert [] + (inner + outer) == inner + outer;
    }

    lemma KnownAdvance(frames: seq<DirectoryFrame<Item>>, tasks: map<nat, Task>)
      requires KnownFrames(frames, tasks) && frames != []
      requires frames[|frames| - 1].next < |frames[|frames| - 1].items|
      ensures KnownFrames(Advance(frames), tasks)
    {
    }

    /** The stack after the innermost iterator has moved one item on. */
    function Advance(frames: seq<DirectoryFrame<Item>>): seq<DirectoryFrame<Item>>
      requires frames != []
    {
      var top := |frames| - 1;
      frames[top := frames[top].(next := frames[top].next + 1)]
    }

    /** A frame is the batch's entries, each child known by its id. */
    ghost predicate Matches(items: seq<Prepared<Item>>, entries: seq<Entry<Item, Task>>, tasks: map<nat, Task>) {
      && |items| == |entries|
      && forall i | 0 <= i < |items| ::
           && items[i].item == entries[i].item
           && items[i].child.Some? == entries[i].child.Some?
           && (items[i].child.Some? ==>
                 items[i].child.value in tasks && tasks[items[i].child.value] == entries[i].child.value)
    }

    lemma MatchesSnoc(items: seq<Prepared<Item>>, entries: seq<Entry<Item, Task>>, tasks: map<nat, Task>,
                      item: Prepared<Item>, entry: Entry<Item, Task>, grown: map<nat, Task>)
      requires Matches(items, entries, tasks) && forall id | id in tasks :: id in grown && grown[id] == tasks[id]
      requires item.item == entry.item && item.child.Some? == entry.child.Some?
      requires item.child.Some? ==> item.child.value in grown && grown[item.child.value] == entry.child.value
      ensures Matches(items + [item], entries + [entry], grown)
    {
    }

    lemma {:induction false} PendingIsWalk(
      items: seq<Prepared<Item>>, next: nat, entries: seq<Entry<Item, Task>>, tasks: map<nat, Task>, bound: nat)
      requires WellFounded() && Below(entries, bound) && Matches(items, entries, tasks) && next <= |items|
      ensures Known(items, tasks)
      ensures Below(entries[next..], bound)
      ensures PendingItems(items, next, tasks) == WalkEntries(entries[next..], bound)
      decreases |items| - next
    {
      if next < |items| {
        PendingIsWalk(items, next + 1, entries, tasks, bound);
        assert entries[next..][1..] == entries[next + 1..];
        assert entries[next] in entries;
      }
    }

    lemma {:induction false} PendingItemsStable(
      items: seq<Prepared<Item>>, next: nat, tasks: map<nat, Task>, grown: map<nat, Task>)
      requires WellFounded() && Known(items, tasks) && next <= |items|
      requires forall id | id in tasks :: id in grown && grown[id] == tasks[id]
      ensures Known(items, grown) && PendingItems(items, next, grown) == PendingItems(items, next, tasks)
      decreases |items| - next
    {
      if next < |items| {
        PendingItemsStable(items, next + 1, tasks, grown);
      }
    }

    lemma {:induction false} PendingFramesStable(
      frames: seq<DirectoryFrame<Item>>, tasks: map<nat, Task>, grown: map<nat, Task>)
      requires WellFounded() && KnownFrames(frames, tasks)
      requires forall id | id in tasks :: id in grown && grown[id] == tasks[id]
      ensures KnownFrames(frames, grown) && PendingFrames(frames, grown) == PendingFrames(frames, tasks)
    {
      if frames != [] {
        var last := |frames| - 1;
        PendingItemsStable(frames[last].items, frames[last].next, tasks, grown);
        PendingFramesStable(frames[..last], tasks, grown);
      }
    }
  }

  datatype Sent<+Item> = SentItem(item: Item) | SentScheduleError

  ghost function SentItems<Item>(items: seq<Item>): seq<Sent<Item>> {
    seq(|items|, i requires 0 <= i < |items| => SentItem(items[i]))
  }

  /** The consumer was sent the beginning of the stream and, perhaps, a schedule error after it. */
  ghost predicate BeginningOf<Item>(stream: seq<Item>, sent: seq<Sent<Item>>) {
    var all := SentItems(stream);
    sent <= all || (sent != [] && sent[|sent| - 1] == SentScheduleError && sent[..|sent| - 1] <= all)
  }

  lemma Associate<T>(a: seq<T>, b: seq<T>, c: seq<T>, d: seq<T>)
    ensures (a + b + c) + d == a + (b + (c + d))
  {
  }

  /** The frame holds a directory to enter. */
  ghost predicate HasChild<Item, Task>(entries: seq<Entry<Item, Task>>) {
    exists i :: 0 <= i < |entries| && entries[i].child.Some?
  }

  /** Where the submission was under way that the executor refused. */
  datatype Caller = AtStart | InWait | InPrepareFrame

  /** A refusal reaches the consumer as a last item. */
  predicate Reported(refusal: Option<Caller>, dropped: bool) {
    refusal.Some? && refusal.value != InPrepareFrame && !dropped
  }

  /** What may happen from outside: a cancellation at any time, a receiver that hangs up at any time, and an
      executor that accepts the reads of certain ids only. */
  datatype Environment = Environment(cancels: bool, hangsUp: bool, accepts: nat -> bool) {
    ghost predicate Calm() { !cancels && !hangsUp && forall id: nat :: accepts(id) }
  }

  ghost predicate Caused(env: Environment, interrupted: bool, refusal: Option<Caller>, dropped: bool) {
    && (interrupted ==> env.cancels || refusal.Some? || dropped)
    && (dropped ==> env.hangsUp)
    && (refusal.Some? ==> exists id: nat :: !env.accepts(id))
  }

  /** Which items the consumer sees, and which items stop the walk. */
  datatype Policy<!Item> = Policy(visible: Item -> bool, aborts: Item -> bool)
  {
    ghost function Visible(items: seq<Item>): seq<Item> {
      if items == [] then [] else IfVisible(items[0]) + Visible(items[1..])
    }

    ghost function IfVisible(item: Item): seq<Item> { if visible(item) then [item] else [] }

    /** The items up to and including the first one that aborts. */
    ghost function Cut(items: seq<Item>): seq<Item> {
      if items == [] then []
      else if aborts(items[0]) then [items[0]]
      else [items[0]] + Cut(items[1..])
    }

    /** `taken` is what a walk reached of `walk`: the consumer was sent exactly its visible items,
        in order and up to the first aborting one; all of them unless the environment interfered.
        A refused submission is reported last if the receiver is still there, but never one that was
        refused while a frame was being prepared. */
    ghost predicate Streams(
      walk: seq<Item>, taken: seq<Item>, sent: seq<Sent<Item>>, interrupted: bool, refusal: Option<Caller>, dropped: bool)
    {
      && taken <= Cut(walk)
      && (!interrupted ==> taken == Cut(walk) && refusal.None? && !dropped)
      && sent == SentItems(Visible(taken)) + (if Reported(refusal, dropped) then [SentScheduleError] else [])
    }

    /** The consumer learns of a refusal exactly if it did not happen inside `PrepareFrame`. */
    lemma RefusalsReported(
      walk: seq<Item>, taken: seq<Item>, sent: seq<Sent<Item>>, interrupted: bool, refusal: Option<Caller>, dropped: bool)
      requires Streams(walk, taken, sent, interrupted, refusal, dropped) && refusal.Some? && !dropped
      ensures SentScheduleError in sent <==> refusal != Some(InPrepareFrame)
    {
      var items := SentItems(Visible(taken));
      assert forall i | 0 <= i < |items| :: items[i].SentItem?;
      if refusal != Some(InPrepareFrame) { assert sent[|items|] == SentScheduleError; }
    }

    /** The consumer was sent the beginning of the walk and, perhaps, a schedule error after it. */
    ghost predicate Begins(walk: seq<Item>, sent: seq<Sent<Item>>) {
      BeginningOf(Visible(Cut(walk)), sent)
    }

    lemma StreamsBegin(
      walk: seq<Item>, taken: seq<Item>, sent: seq<Sent<Item>>, interrupted: bool, refusal: Option<Caller>, dropped: bool)
      requires Streams(walk, taken, sent, interrupted, refusal, dropped)
      ensures Begins(walk, sent)
      ensures !interrupted ==> sent == SentItems(Visible(Cut(walk)))
    {
      var later := Cut(walk)[|taken|..];
      assert Cut(walk) == taken + later;
      VisibleAppend(taken, later);
      assert SentItems(Visible(taken)) <= SentItems(Visible(Cut(walk)));
      if sent != SentItems(Visible(taken)) {
        assert sent[..|sent| - 1] == SentItems(Visible(taken));
      }
    }

    /** Stopping at the first aborting item loses nothing exactly when it is the last item, if any. */
    lemma {:induction false} CutComplete(items: seq<Item>)
      ensures Cut(items) == items <==> forall i | 0 <= i < |items| - 1 :: !aborts(items[i])
    {
      if |items| > 1 {
        CutComplete(items[1..]);
        assert items == [items[0]] + items[1..];
        if !aborts(items[0]) && Cut(items[1..]) == items[1..] {
          assert forall i | 0 < i < |items| - 1 :: items[i] == items[1..][i - 1];
        } else if !aborts(items[0]) {
          var i :| 0 <= i < |items[1..]| - 1 && aborts(items[1..][i]);
          assert aborts(items[i + 1]);
        }
      }
    }

    lemma {:induction false} VisibleAppend(left: seq<Item>, right: seq<Item>)
      ensures Visible(left + right) == Visible(left) + Visible(right)
    {
      if left == [] {
        assert left + right == right;
      } else {
        hide IfVisible;
        assert (left + right)[0] == left[0] && (left + right)[1..] == left[1..] + right;
        VisibleAppend(left[1..], right);
        var head, rest, last := IfVisible(left[0]), Visible(left[1..]), Visible(right);
        assert head + rest + last == head + (rest + last);
      }
    }

    lemma {:induction false} CutAppend(left: seq<Item>, right: seq<Item>)
      requires forall item | item in left :: !aborts(item)
      ensures Cut(left + right) == left + Cut(right)
    {
      if left == [] {
        assert left + right == right;
      } else {
        assert (left + right)[0] == left[0] && (left + right)[1..] == left[1..] + right;
        CutAppend(left[1..], right);
      }
    }
  }

  /** How a blocking wait ends.  `Blocked` is a receive that nobody will ever answer. */
  datatype Waited<+Batch> = Ready(batch: Batch) | Stopped | Failed | Blocked

  /** `requested_workers`: never zero, never more than the open-directory bound. */
  function RequestedWorkers(available: nat, parallelism: nat, maxOpen: nat, defaultWorkers: nat): (workers: nat)
    ensures 1 <= workers <= Max(maxOpen, 1)
    ensures parallelism != 0 ==> workers <= Max(parallelism, 1)
  {
    var requested := if parallelism == 0 then Min(available, defaultWorkers) else Min(parallelism, available);
    Max(Min(requested, Max(maxOpen, 1)), 1)
  }

  function Min(a: nat, b: nat): nat { if a <= b then a else b }

  function Max(a: nat, b: nat): nat { if a <= b then b else a }

  class OrderedScheduler<Task(!new), Batch(0), Item> {
    const program: Program<Task, Batch, Item>
    const policy: Policy<Item>
    const limit: nat
    const env: Environment

    var nextId: nat
    var queued: seq<Queued<Task>>
    var outstanding: nat
    var ready: map<nat, Batch>
    var scheduleError: bool
    var cancelled: bool

    // Submitted reads whose result has not been received yet.
    var inFlight: map<nat, Task>
    // Everything the consumer has been sent.
    var sent: seq<Sent<Item>>

    // The task every id was assigned to.
    ghost var tasks: map<nat, Task>
    // The environment cancelled, refused a submission or dropped the receiver.
    ghost var interrupted: bool
    // The refused submission, and whether the receiver has hung up.
    ghost var refusal: Option<Caller>
    ghost var dropped: bool

    /** Every interruption has its cause in the environment. */
    ghost predicate Explained()
      reads this`interrupted, this`refusal, this`dropped
    {
      && Caused(env, interrupted, refusal, dropped)
      && (dropped || refusal.Some? ==> interrupted)
    }

    ghost predicate Valid()
      reads this
    {
      && 1 <= limit
      && outstanding == |inFlight| <= limit
      && Consistent(queued, inFlight, ready.Keys, tasks, nextId)
      && (!cancelled ==> Parked(ready, tasks))
      && (scheduleError ==> cancelled && queued == [])
      && interrupted == cancelled
      && Explained() && !dropped && (scheduleError <==> refusal.Some?)
    }

    /** Every id is queued, running or parked at most once, and belongs to its task. */
    static ghost predicate Consistent(
      queued: seq<Queued<Task>>, inFlight: map<nat, Task>, parked: set<nat>, tasks: map<nat, Task>, nextId: nat)
    {
      && (forall i, j | 0 <= i < j < |queued| :: queued[i].id != queued[j].id)
      && (forall i | 0 <= i < |queued| ::
            && queued[i].id in tasks && tasks[queued[i].id] == queued[i].task
            && queued[i].id !in inFlight && queued[i].id !in parked)
      && (forall id | id in inFlight :: id in tasks && tasks[id] == inFlight[id] && id !in parked)
      && parked <= tasks.Keys
      && (forall id | id in tasks :: id < nextId)
    }

    ghost predicate Parked(ready: map<nat, Batch>, tasks: map<nat, Task>) {
      forall id | id in ready :: id in tasks && ready[id] == program.read(tasks[id])
    }

    /** The reads that are queued, running or parked. */
    ghost function Live(): set<nat>
      reads this
    {
      LiveIn(queued, inFlight, ready.Keys)
    }

    static ghost function LiveIn(
      queued: seq<Queued<Task>>, inFlight: map<nat, Task>, parked: set<nat>): set<nat>
    {
      inFlight.Keys + parked + Ids(queued)
    }

    /** No slot is idle while a task is queued. */
    ghost predicate Conserving()
      reads this
    {
      queued == [] || outstanding == limit
    }

    static ghost function Ids(queue: seq<Queued<Task>>): set<nat> {
      set i | 0 <= i < |queue| :: queue[i].id
    }

    static lemma IdsPop(queue: seq<Queued<Task>>)
      requires queue != []
      ensures Ids(queue) == {queue[0].id} + Ids(queue[1..])
    {
      var rest := queue[1..];
      forall id | id in Ids(queue)
        ensures id in {queue[0].id} + Ids(rest)
      {
        var i :| 0 <= i < |queue| && queue[i].id == id;
        if i > 0 { assert rest[i - 1].id == id; }
      }
      forall id | id in Ids(rest)
        ensures id in Ids(queue)
      {
        var i :| 0 <= i < |rest| && rest[i].id == id;
        assert queue[i + 1].id == id;
      }
    }

    static lemma SubmitKeeps(
      queued: seq<Queued<Task>>, inFlight: map<nat, Task>, parked: set<nat>, tasks: map<nat, Task>, nextId: nat)
      requires Consistent(queued, inFlight, parked, tasks, nextId) && queued != []
      ensures var submitted := inFlight[queued[0].id := queued[0].task];
        && |submitted| == |inFlight| + 1
        && Consistent(queued[1..], submitted, parked, tasks, nextId)
        && LiveIn(queued[1..], submitted, parked) == LiveIn(queued, inFlight, parked)
    {
      IdsPop(queued);
    }

    static lemma RegisterKeeps(
      queued: seq<Queued<Task>>, inFlight: map<nat, Task>, parked: set<nat>, tasks: map<nat, Task>, nextId: nat, task: Task)
      requires Consistent(queued, inFlight, parked, tasks, nextId)
      ensures nextId !in tasks && nextId !in LiveIn(queued, inFlight, parked)
      ensures Consistent(queued, inFlight, parked, tasks[nextId := task], nextId + 1)
    {
    }

    static lemma EnqueueKeeps(
      queued: seq<Queued<Task>>, inFlight: map<nat, Task>, parked: set<nat>, tasks: map<nat, Task>, nextId: nat,
      child: Queued<Task>)
      requires Consistent(queued, inFlight, parked, tasks, nextId)
      requires child.id in tasks && tasks[child.id] == child.task && child.id !in LiveIn(queued, inFlight, parked)
      ensures Consistent([child] + queued, inFlight, parked, tasks, nextId)
      ensures LiveIn([child] + queued, inFlight, parked) == LiveIn(queued, inFlight, parked) + {child.id}
    {
      assert ([child] + queued)[1..] == queued;
      assert forall i | 0 <= i < |queued| :: queued[i].id in Ids(queued);
      IdsPop([child] + queued);
    }

    static lemma ReceiveKeeps(
      queued: seq<Queued<Task>>, inFlight: map<nat, Task>, parked: set<nat>, tasks: map<nat, Task>, nextId: nat, id: nat)
      requires Consistent(queued, inFlight, parked, tasks, nextId) && id in inFlight
      ensures id in tasks && tasks[id] == inFlight[id] && id in LiveIn(queued, inFlight, parked)
      ensures |inFlight - {id}| == |inFlight| - 1
      ensures Consistent(queued, inFlight - {id}, parked, tasks, nextId)
      ensures LiveIn(queued, inFlight - {id}, parked) == LiveIn(queued, inFlight, parked) - {id}
    {
      assert inFlight.Keys == (inFlight - {id}).Keys + {id};
    }

    static lemma ParkKeeps(
      queued: seq<Queued<Task>>, inFlight: map<nat, Task>, parked: set<nat>, tasks: map<nat, Task>, nextId: nat, id: nat)
      requires Consistent(queued, inFlight, parked, tasks, nextId) && id in tasks
      requires id !in LiveIn(queued, inFlight, parked)
      ensures Consistent(queued, inFlight, parked + {id}, tasks, nextId)
      ensures LiveIn(queued, inFlight, parked + {id}) == LiveIn(queued, inFlight, parked) + {id}
    {
      assert forall i | 0 <= i < |queued| :: queued[i].id in Ids(queued);
    }

    static lemma UnparkKeeps(
      queued: seq<Queued<Task>>, inFlight: map<nat, Task>, parked: set<nat>, tasks: map<nat, Task>, nextId: nat, id: nat)
      requires Consistent(queued, inFlight, parked, tasks, nextId) && id in parked
      ensures id in tasks
      ensures Consistent(queued, inFlight, parked - {id}, tasks, nextId)
      ensures LiveIn(queued, inFlight, parked - {id}) == LiveIn(queued, inFlight, parked) - {id}
    {
    }

    static lemma LiveKnown(
      queued: seq<Queued<Task>>, inFlight: map<nat, Task>, parked: set<nat>, tasks: map<nat, Task>, nextId: nat)
      requires Consistent(queued, inFlight, parked, tasks, nextId)
      ensures forall id | id in LiveIn(queued, inFlight, parked) :: id < nextId
    {
    }

    static lemma ClearKeeps(
      queued: seq<Queued<Task>>, inFlight: map<nat, Task>, parked: set<nat>, tasks: map<nat, Task>, nextId: nat)
      requires Consistent(queued, inFlight, parked, tasks, nextId)
      ensures Consistent([], inFlight, parked, tasks, nextId)
    {
    }

    static lemma LiveWitness(queued: seq<Queued<Task>>, inFlight: map<nat, Task>, parked: set<nat>, id: nat)
      requires id in LiveIn(queued, inFlight, parked)
      ensures id in parked || inFlight != map[] || queued != []
    {
    }

    constructor (
      program: Program<Task, Batch, Item>, policy: Policy<Item>, limit: nat, root: Task, sent: seq<Sent<Item>>,
      env: Environment)
      requires 1 <= limit && program.WellFounded()
      ensures Valid() && inFlight == map[] && ready == map[] && queued == [Queued(0, root)]
      ensures !cancelled && !interrupted && !scheduleError && this.sent == sent && tasks == map[0 := root]
      ensures nextId == 1
      ensures this.program == program && this.policy == policy && this.limit == limit && this.env == env
    {
      this.program, this.policy, this.limit, this.env := program, policy, limit, env;
      nextId, outstanding, ready, scheduleError, cancelled := 1, 0, map[], false, false;
      queued := [Queued(0, root)];
      inFlight, this.sent, tasks := map[], sent, map[0 := root];
      interrupted, refusal, dropped := false, None, false;
    }

    /** Reads the shared cancellation flag, which may have been raised since the last look. */
    method IsCancelled() returns (answer: bool)
      modifies this`cancelled, this`interrupted
      ensures answer == cancelled
      ensures old(cancelled) ==> cancelled
      ensures old(interrupted == cancelled) ==> interrupted == cancelled
      ensures old(Explained()) ==> Explained()
      ensures !env.cancels ==> cancelled == old(cancelled)
    {
      var raised: bool := *;
      if env.cancels && raised && !cancelled {
        cancelled, interrupted := true, true;
      }
      answer := cancelled;
    }

    /** Hands an item to the consumer; fails once the receiver is gone. */
    method Send(item: Sent<Item>) returns (delivered: bool)
      modifies this`sent, this`interrupted, this`dropped
      ensures sent == if delivered then old(sent) + [item] else old(sent)
      ensures interrupted == (old(interrupted) || !delivered) && dropped == (old(dropped) || !delivered)
      ensures old(Explained()) ==> Explained()
      ensures !env.hangsUp ==> delivered
    {
      delivered := *;
      if delivered || !env.hangsUp {
        delivered := true;
        sent := sent + [item];
      } else {
        interrupted, dropped := true, true;
      }
    }

    /** Takes any one of the results under way.  A read that saw the cancellation is torn. */
    method Receive() returns (id: nat, batch: Batch)
      requires Valid() && inFlight != map[]
      modifies this`cancelled, this`interrupted, this`inFlight, this`outstanding
      ensures Valid()
      ensures id in old(inFlight) && inFlight == old(inFlight) - {id} && |inFlight| < old(|inFlight|)
      ensures id in tasks && id in old(Live()) && Live() == old(Live()) - {id}
      ensures old(cancelled) ==> cancelled
      ensures !env.cancels ==> cancelled == old(cancelled)
      ensures !cancelled ==> Answers(batch, id)
    {
      hide Caused, Consistent, LiveIn, Parked;
      var torn := IsCancelled();
      id :| id in inFlight;
      ReceiveKeeps(queued, inFlight, ready.Keys, tasks, nextId, id);
      if torn { batch := *; } else { batch := program.read(inFlight[id]); }
      inFlight := inFlight - {id};
      outstanding := outstanding - 1;
    }

    /** Submits queued tasks while a slot is free. */
    method Refill(ghost caller: Caller)
      requires Valid()
      modifies this`queued, this`outstanding, this`inFlight, this`scheduleError, this`refusal, this`cancelled, this`interrupted
      ensures Valid()
      ensures !cancelled ==> Conserving()
      ensures old(cancelled) ==> cancelled && queued == old(queued) && inFlight == old(inFlight) && scheduleError == old(scheduleError)
      ensures !scheduleError ==> Live() == old(Live())
      ensures |queued| + |inFlight| <= old(|queued| + |inFlight|)
      ensures !scheduleError && inFlight == map[] ==> queued == old(queued)
      ensures refusal == old(refusal) || refusal == Some(caller)
      ensures !env.cancels && old(queued) == [] ==> cancelled == old(cancelled) && queued == []
      ensures !env.cancels && old(!cancelled && queued != [] && outstanding < limit && !env.accepts(queued[0].id)) ==>
        refusal == Some(caller)
      ensures !env.cancels && (forall task | task in old(queued) :: env.accepts(task.id)) ==> cancelled == old(cancelled)
    {
      hide Caused, Consistent, LiveIn, Parked;
      while true
        invariant Valid()
        invariant old(cancelled) ==> cancelled && queued == old(queued) && inFlight == old(inFlight) && scheduleError == old(scheduleError)
        invariant !scheduleError ==> Live() == old(Live())
        invariant |queued| + |inFlight| <= old(|queued| + |inFlight|)
        invariant !scheduleError && inFlight == map[] ==> queued == old(queued)
        invariant refusal == old(refusal)
        invariant !env.cancels ==> cancelled == old(cancelled)
        invariant forall task | task in queued :: task in old(queued)
        invariant (queued == old(queued) && outstanding == old(outstanding)) || old(queued != [] && env.accepts(queued[0].id))
        decreases |queued|
      {
        var stop := IsCancelled();
        if stop || outstanding >= limit || queued == [] {
          break;
        }
        Submit(caller);
        if scheduleError {
          break;
        }
      }
    }

    /** Hands the front task to the executor, which may refuse it. */
    method Submit(ghost caller: Caller)
      requires Valid() && queued != [] && outstanding < limit && !cancelled
      modifies this`queued, this`outstanding, this`inFlight, this`scheduleError, this`refusal, this`cancelled, this`interrupted
      ensures Valid()
      ensures scheduleError == cancelled && (!scheduleError ==> inFlight != map[])
      ensures |queued| < old(|queued|)
      ensures |queued| + |inFlight| <= old(|queued| + |inFlight|)
      ensures !scheduleError ==> Live() == old(Live())
      ensures scheduleError == !old(env.accepts(queued[0].id))
      ensures refusal == if scheduleError then Some(caller) else None
      ensures !scheduleError ==> queued == old(queued)[1..]
    {
      hide Consistent, LiveIn, Parked;
      SubmitKeeps(queued, inFlight, ready.Keys, tasks, nextId);
      ClearKeeps(queued, inFlight, ready.Keys, tasks, nextId);
      var task := queued[0];
      queued := queued[1..];
      if env.accepts(task.id) {
        inFlight := inFlight[task.id := task.task];
        outstanding := outstanding + 1;
      } else {
        cancelled, interrupted := true, true;
        queued := [];
        scheduleError, refusal := true, Some(caller);
      }
    }

    /** Cancels, forgets the queue and waits for every read under way. */
    method CancelAndDrain()
      requires outstanding == |inFlight|
      modifies this`queued, this`outstanding, this`inFlight, this`cancelled
      ensures cancelled && inFlight == map[] && queued == []
    {
      cancelled := true;
      queued := [];
      while outstanding > 0
        invariant cancelled && queued == [] && outstanding == |inFlight|
      {
        var id :| id in inFlight;
        assert inFlight.Keys == (inFlight - {id}).Keys + {id};
        inFlight := inFlight - {id};
        outstanding := outstanding - 1;
      }
    }

    /** Keeps an early result for the frame that will ask for it. */
    method Park(id: nat, batch: Batch)
      requires Valid() && id in tasks && id !in Live()
      requires !cancelled ==> Answers(batch, id)
      modifies this`ready
      ensures Valid()
      ensures ready == old(ready)[id := batch] && Live() == old(Live()) + {id}
    {
      hide Caused, Consistent, LiveIn;
      ParkKeeps(queued, inFlight, ready.Keys, tasks, nextId, id);
      assert ready[id := batch].Keys == ready.Keys + {id};
      ready := ready[id := batch];
    }

    method Unpark(id: nat)
      requires Valid() && id in ready
      modifies this`ready
      ensures Valid()
      ensures ready == old(ready) - {id} && Live() == old(Live()) - {id}
      ensures !cancelled ==> Answers(old(ready)[id], id)
    {
      hide Caused, Consistent, LiveIn;
      UnparkKeeps(queued, inFlight, ready.Keys, tasks, nextId, id);
      assert (ready - {id}).Keys == ready.Keys - {id};
      ready := ready - {id};
    }

    /** Waits until the read of `id` is available, parking every other result. */
    method WaitFor(id: nat) returns (waited: Waited<Batch>)
      requires Valid()
      requires id in Live() || scheduleError
      requires !cancelled ==> Conserving()
      requires scheduleError ==> id !in ready
      requires Conserving() || (inFlight == map[] && id !in ready)
      modifies this`queued, this`outstanding, this`inFlight, this`ready, this`scheduleError, this`refusal, this`cancelled, this`interrupted
      ensures waited.Ready? || waited.Blocked? ==> Valid() && !scheduleError
      ensures old(cancelled) ==> cancelled
      ensures waited.Blocked? <==> old(!Conserving() && !scheduleError)
      ensures waited.Blocked? ==> queued == old(queued) && inFlight == map[] && interrupted
      ensures waited.Ready? && !cancelled ==> Answers(waited.batch, id) && Conserving() && Live() == old(Live()) - {id}
      ensures waited.Stopped? || waited.Failed? ==> inFlight == map[] && queued == [] && interrupted && !scheduleError
      ensures Explained() && (waited.Failed? <==> refusal.Some?)
      ensures if old(refusal.Some?) then refusal == old(refusal) else refusal in {None, Some(InWait)}
      ensures !env.cancels && old(!cancelled && queued == []) ==>
        !cancelled && queued == [] && (waited.Ready? || waited.Blocked?)
    {
      hide Caused, Consistent, LiveIn, Parked, Answers;
      if id in ready {
        waited := Ready(ready[id]);
        Unpark(id);
        return;
      }
      if scheduleError {
        scheduleError := false;
        CancelAndDrain();
        return Failed;
      }
      LiveWitness(queued, inFlight, ready.Keys, id);
      if inFlight == map[] {
        return Blocked;
      }
      waited := ReceiveUntil(id);
    }

    ghost predicate Answers(batch: Batch, id: nat)
      reads this`tasks
    {
      id in tasks && batch == program.read(tasks[id])
    }

    /** Receives one result: the awaited batch, or an early one that is parked. */
    method TakeResult(id: nat) returns (result: Option<Batch>)
      requires Valid() && !scheduleError && inFlight != map[]
      requires id in Live() && id !in ready
      modifies this`cancelled, this`interrupted, this`inFlight, this`outstanding, this`ready
      ensures Valid() && (old(cancelled) ==> cancelled) && (!env.cancels ==> cancelled == old(cancelled))
      ensures |inFlight| < old(|inFlight|)
      ensures Live() == if result.Some? then old(Live()) - {id} else old(Live())
      ensures result.Some? && !cancelled ==> Answers(result.value, id)
      ensures id !in ready
    {
      hide Caused, Consistent, LiveIn, Parked, Answers;
      var received, batch := Receive();
      if received == id {
        result := Some(batch);
      } else {
        Park(received, batch);
        result := None;
      }
    }

    method DrainParked() returns (waited: Waited<Batch>)
      requires outstanding == |inFlight| && interrupted
      modifies this`queued, this`outstanding, this`inFlight, this`scheduleError, this`cancelled
      ensures (waited.Stopped? || waited.Failed?) && (waited.Failed? <==> old(scheduleError))
      ensures inFlight == map[] && queued == [] && cancelled && !scheduleError
    {
      CancelAndDrain();
      waited := if scheduleError then Failed else Stopped;
      scheduleError := false;
    }

    /** The receive loop of `WaitFor`; with no slot idle there is always a read to wait for. */
    method ReceiveUntil(id: nat) returns (waited: Waited<Batch>)
      requires Valid() && !scheduleError && Conserving()
      requires id in Live() && id !in ready
      modifies this`queued, this`outstanding, this`inFlight, this`ready, this`scheduleError, this`refusal, this`cancelled, this`interrupted
      ensures !waited.Blocked? && (waited.Ready? ==> Valid() && !scheduleError)
      ensures old(cancelled) ==> cancelled
      ensures waited.Ready? && !cancelled ==> Answers(waited.batch, id) && Conserving() && Live() == old(Live()) - {id}
      ensures waited.Stopped? || waited.Failed? ==> inFlight == map[] && queued == [] && interrupted && !scheduleError
      ensures Explained() && (waited.Failed? <==> refusal.Some?) && refusal in {None, Some(InWait)}
      ensures !env.cancels && old(!cancelled && queued == []) ==> !cancelled && waited.Ready? && queued == []
    {
      hide Caused, Consistent, LiveIn, Parked, Answers;
      while true
        invariant Valid() && !scheduleError && Conserving() && id in Live() && id !in ready
        invariant old(cancelled) ==> cancelled
        invariant Live() == old(Live())
        invariant !env.cancels && old(!cancelled && queued == []) ==> !cancelled && queued == []
        decreases |queued| + |inFlight|
      {
        LiveWitness(queued, inFlight, ready.Keys, id);
        var result := TakeResult(id);
        Refill(InWait);
        if result.Some? {
          if scheduleError {
            scheduleError := false;
            CancelAndDrain();
            return Failed;
          }
          return Ready(result.value);
        }
        var stop := IsCancelled();
        if stop {
          waited := DrainParked();
          return;
        }
      }
    }

    static lemma HasChildSnoc(entries: seq<Entry<Item, Task>>, next: Option<Entry<Item, Task>>)
      ensures !HasChild<Item, Task>([])
      ensures next.Some? ==> (HasChild(entries + [next.value]) <==> HasChild(entries) || next.value.child.Some?)
    {
      if next.Some? {
        var all := entries + [next.value];
        assert all[|entries|] == next.value && forall i | 0 <= i < |entries| :: all[i] == entries[i];
      }
    }

    /** Gives every child directory an id, in item order. */
    method AssignIds(entries: seq<Entry<Item, Task>>)
      returns (items: seq<Prepared<Item>>, children: seq<Queued<Task>>)
      requires Valid()
      modifies this`nextId, this`tasks
      ensures Valid() && old(nextId) <= nextId
      ensures forall id | id in old(tasks) :: id in tasks && tasks[id] == old(tasks)[id]
      ensures program.Matches(items, entries, tasks)
      ensures forall i | 0 <= i < |items| && items[i].child.Some? ::
                old(nextId) <= items[i].child.value < nextId && items[i].child.value in Ids(children)
      ensures DistinctChildren(items)
      ensures Fresh(children, tasks, old(nextId), nextId)
      ensures if HasChild(entries) then children != [] && children[0].id == old(nextId) else children == []
    {
      hide Caused, Consistent, LiveIn, Program.Matches, HasChild;
      items, children := [], [];
      assert entries[..0] == [];
      HasChildSnoc([], None);
      NoMatches(program, tasks);
      for k := 0 to |entries|
        invariant Valid() && old(nextId) <= nextId
        invariant forall id | id in old(tasks) :: id in tasks && tasks[id] == old(tasks)[id]
        invariant program.Matches(items, entries[..k], tasks)
        invariant forall i | 0 <= i < |items| && items[i].child.Some? ::
                    old(nextId) <= items[i].child.value < nextId && items[i].child.value in Ids(children)
        invariant DistinctChildren(items)
        invariant Fresh(children, tasks, old(nextId), nextId)
        invariant if HasChild(entries[..k]) then children != [] && children[0].id == old(nextId)
                  else children == [] && nextId == old(nextId)
      {
        HasChildSnoc(entries[..k], Some(entries[k]));
        var child: Option<nat> := None;
        ghost var known := tasks;
        assert entries[..k + 1] == entries[..k] + [entries[k]];
        if entries[k].child.Some? {
          RegisterKeeps(queued, inFlight, ready.Keys, tasks, nextId, entries[k].child.value);
          child := Some(nextId);
          ghost var before := children;
          children := children + [Queued(nextId, entries[k].child.value)];
          assert children[|before|].id == nextId;
          assert forall i | 0 <= i < |before| :: children[i].id == before[i].id;
          tasks := tasks[nextId := entries[k].child.value];
          nextId := nextId + 1;
        }
        program.MatchesSnoc(items, entries[..k], known, Prepared(entries[k].item, child), entries[k], tasks);
        items := items + [Prepared(entries[k].item, child)];
      }
      assert entries[..|entries|] == entries;
    }

    static lemma NoMatches(program: Program<Task, Batch, Item>, tasks: map<nat, Task>)
      ensures program.Matches([], [], tasks)
    {
    }

    static ghost predicate DistinctChildren(items: seq<Prepared<Item>>) {
      forall i, j | 0 <= i < j < |items| && items[i].child.Some? && items[j].child.Some? ::
        items[i].child != items[j].child
    }

    static ghost predicate Fresh(children: seq<Queued<Task>>, tasks: map<nat, Task>, from: nat, to: nat) {
      && (forall i | 0 <= i < |children| ::
            from <= children[i].id < to && children[i].id in tasks && tasks[children[i].id] == children[i].task)
      && (forall i, j | 0 <= i < j < |children| :: children[i].id != children[j].id)
    }

    /** Queues the children in front of everything else, the first child first. */
    method Enqueue(children: seq<Queued<Task>>, ghost from: nat)
      requires Valid() && !scheduleError && Fresh(children, tasks, from, nextId)
      requires forall id | id in Live() :: id < from
      modifies this`queued
      ensures Valid()
      ensures queued == children + old(queued)
      ensures Live() == old(Live()) + Ids(children)
    {
      hide Caused, Consistent, LiveIn;
      var j := |children|;
      assert children[j..] == [];
      while j > 0
        invariant 0 <= j <= |children|
        invariant Valid()
        invariant queued == children[j..] + old(queued)
        invariant Live() == old(Live()) + Ids(children[j..])
      {
        j := j - 1;
        assert children[j..][1..] == children[j + 1..];
        IdsPop(children[j..]);
        assert children[j].id !in Ids(children[j + 1..]);
        EnqueueKeeps(queued, inFlight, ready.Keys, tasks, nextId, children[j]);
        queued := [children[j]] + queued;
      }
      assert children[0..] == children;
    }

    /** Turns a batch into a frame, queues its directories first and fills the free slots. */
    method PrepareFrame(batch: Batch) returns (frame: DirectoryFrame<Item>)
      requires Valid() && !scheduleError
      modifies this`nextId, this`tasks, this`queued, this`outstanding, this`inFlight, this`scheduleError, this`refusal, this`cancelled, this`interrupted
      ensures Valid() && (!cancelled ==> Conserving()) && (old(cancelled) ==> cancelled)
      ensures frame.next == 0
      ensures forall id | id in old(tasks) :: id in tasks && tasks[id] == old(tasks)[id]
      ensures program.Matches(frame.items, program.prepare(batch), tasks)
      ensures DistinctChildren(frame.items)
      ensures forall i | 0 <= i < |frame.items| && frame.items[i].child.Some? ::
                frame.items[i].child.value !in old(tasks)
      ensures refusal in {None, Some(InPrepareFrame)}
      ensures !env.cancels && old(!cancelled && outstanding < limit && !env.accepts(nextId)) && HasChild(program.prepare(batch)) ==>
        refusal == Some(InPrepareFrame)
      ensures !cancelled ==> old(Live()) <= Live()
      ensures !cancelled ==> forall i | 0 <= i < |frame.items| && frame.items[i].child.Some? ::
                frame.items[i].child.value in Live()
    {
      hide Caused, Explained, Fresh, DistinctChildren, HasChild, Program.Matches, Consistent, LiveIn;
      LiveKnown(queued, inFlight, ready.Keys, tasks, nextId);
      ghost var from := nextId;
      TasksBelow(queued, inFlight, ready.Keys, tasks, nextId);
      var items, children := AssignIds(program.prepare(batch));
      Enqueue(children, from);
      Refill(InPrepareFrame);
      frame := DirectoryFrame(items, 0);
    }

    static lemma TasksBelow(
      queued: seq<Queued<Task>>, inFlight: map<nat, Task>, parked: set<nat>, tasks: map<nat, Task>, nextId: nat)
      requires Consistent(queued, inFlight, parked, tasks, nextId)
      ensures forall id | id in tasks :: id < nextId
    {
    }

    /** The child ids the stack will still ask for: each once, and each read still live. */
    static ghost predicate Asks(frames: seq<DirectoryFrame<Item>>, f: nat, i: nat, id: nat) {
      f < |frames| && frames[f].next <= i < |frames[f].items| && frames[f].items[i].child == Some(id)
    }

    static ghost predicate AsksOnce(frames: seq<DirectoryFrame<Item>>) {
      forall f: nat, i: nat, g: nat, j: nat, id: nat | Asks(frames, f, i, id) && Asks(frames, g, j, id) :: f == g && i == j
    }

    static ghost predicate AsksWithin(frames: seq<DirectoryFrame<Item>>, live: set<nat>) {
      forall f: nat, i: nat, id: nat | Asks(frames, f, i, id) :: id in live
    }

    static lemma AdvanceKeeps(
      program: Program<Task, Batch, Item>, frames: seq<DirectoryFrame<Item>>, advanced: seq<DirectoryFrame<Item>>,
      live: set<nat>)
      requires frames != [] && AsksOnce(frames) && AsksWithin(frames, live)
      requires frames[|frames| - 1].next < |frames[|frames| - 1].items|
      requires advanced == program.Advance(frames)
      ensures AsksOnce(advanced) && AsksWithin(advanced, live)
      ensures var top := |frames| - 1; var child := frames[top].items[frames[top].next].child;
        child.Some? ==> child.value in live && AsksWithin(advanced, live - {child.value})
    {
      var top := |frames| - 1;
      assert forall f: nat, i: nat, id: nat | Asks(advanced, f, i, id) :: Asks(frames, f, i, id);
      var child := frames[top].items[frames[top].next].child;
      if child.Some? {
        assert Asks(frames, top, frames[top].next, child.value);
      }
    }

    static lemma PopKeeps(frames: seq<DirectoryFrame<Item>>, live: set<nat>)
      requires frames != [] && AsksOnce(frames) && AsksWithin(frames, live)
      ensures AsksOnce(frames[..|frames| - 1]) && AsksWithin(frames[..|frames| - 1], live)
    {
      var below := frames[..|frames| - 1];
      forall f: nat, i: nat, id: nat | Asks(below, f, i, id)
        ensures Asks(frames, f, i, id)
      {
        assert below[f] == frames[f];
      }
    }

    static lemma PushKeeps(
      frames: seq<DirectoryFrame<Item>>, frame: DirectoryFrame<Item>, known: set<nat>, live: set<nat>)
      requires AsksOnce(frames) && AsksWithin(frames, known) && AsksWithin(frames, live)
      requires frame.next == 0 && DistinctChildren(frame.items)
      requires forall i | 0 <= i < |frame.items| && frame.items[i].child.Some? ::
                 frame.items[i].child.value !in known && frame.items[i].child.value in live
      ensures AsksOnce(frames + [frame]) && AsksWithin(frames + [frame], live)
    {
      var pushed := frames + [frame];
      forall f: nat, i: nat, id: nat | Asks(pushed, f, i, id)
        ensures id in live && (f < |frames| ==> Asks(frames, f, i, id)) && (f == |frames| ==> id !in known)
      {
        if f < |frames| { assert Asks(frames, f, i, id); }
      }
      assert forall f: nat, i: nat, id: nat | Asks(frames, f, i, id) :: id in known;
    }

    static lemma WithinGrows(frames: seq<DirectoryFrame<Item>>, live: set<nat>)
      requires exists smaller :: smaller <= live && AsksWithin(frames, smaller)
      ensures AsksWithin(frames, live)
    {
    }

    static lemma KnownWithin(frames: seq<DirectoryFrame<Item>>, program: Program<Task, Batch, Item>, tasks: map<nat, Task>)
      requires program.KnownFrames(frames, tasks)
      ensures AsksWithin(frames, tasks.Keys)
    {
    }

    /** `items` is delivered, as far as the policy lets the consumer see it. */
    ghost function Deliver(items: seq<Item>): seq<Sent<Item>> {
      SentItems(policy.Visible(items))
    }

    lemma DeliverAppend(taken: seq<Item>, item: Item)
      ensures Deliver(taken + [item]) == Deliver(taken) + (if policy.visible(item) then [SentItem(item)] else [])
    {
      policy.VisibleAppend(taken, [item]);
      assert policy.Visible([item]) == if policy.visible(item) then [item] else [];
    }

    lemma CutOfTaken(taken: seq<Item>, rest: seq<Item>)
      requires forall item | item in taken :: !policy.aborts(item)
      ensures taken <= policy.Cut(taken + rest)
      ensures rest == [] ==> policy.Cut(taken + rest) == taken
      ensures rest != [] && policy.aborts(rest[0]) ==> policy.Cut(taken + rest) == taken + [rest[0]]
      ensures rest != [] ==> taken + [rest[0]] <= policy.Cut(taken + rest)
    {
      policy.CutAppend(taken, rest);
    }

    /** Shows the consumer an item if the policy lets it through. */
    method Emit(item: Item, ghost taken: seq<Item>) returns (delivered: bool)
      requires sent == Deliver(taken)
      modifies this`sent, this`interrupted, this`dropped
      ensures sent == if delivered then Deliver(taken + [item]) else Deliver(taken)
      ensures interrupted == (old(interrupted) || !delivered) && dropped == (old(dropped) || !delivered)
      ensures old(Explained()) ==> Explained()
    {
      DeliverAppend(taken, item);
      delivered := true;
      if policy.visible(item) {
        delivered := Send(SentItem(item));
      }
    }

    /** The stack and the tables agree on what is still to come. */
    ghost predicate Pending(frames: seq<DirectoryFrame<Item>>, rest: seq<Item>)
      requires program.WellFounded()
      reads this
    {
      && Conserving()
      && program.KnownFrames(frames, tasks)
      && rest == program.PendingFrames(frames, tasks)
      && AsksOnce(frames) && AsksWithin(frames, Live())
    }

    /** Waits for a child directory and puts its frame on the stack. */
    method Descend(frames: seq<DirectoryFrame<Item>>, id: nat, ghost rest: seq<Item>)
      returns (waited: Waited<Batch>, grown: seq<DirectoryFrame<Item>>)
      requires Valid() && program.WellFounded() && !cancelled
      requires Pending(frames, rest) && id in Live() && id in tasks && AsksWithin(frames, Live() - {id})
      modifies this`nextId, this`tasks, this`queued, this`outstanding, this`inFlight, this`ready, this`scheduleError, this`refusal, this`cancelled, this`interrupted
      ensures !waited.Blocked?
      ensures waited.Ready? ==> Valid() && (!cancelled ==> Pending(grown, program.Walk(old(tasks[id])) + rest))
      ensures !waited.Ready? ==> inFlight == map[] && queued == [] && interrupted && Explained() && !scheduleError
      ensures refusal in {None, Some(if waited.Ready? then InPrepareFrame else InWait)}
      ensures !waited.Ready? ==> (waited.Failed? <==> refusal.Some?)
    {
      hide Caused, Explained, Consistent, LiveIn, AsksOnce, AsksWithin, Parked;
      grown := frames;
      ghost var task := tasks[id];
      waited := WaitFor(id);
      if waited.Ready? {
        ghost var known := tasks;
        var frame := PrepareFrame(waited.batch);
        grown := frames + [frame];
        if !cancelled {
          var bound := program.rank(task);
          program.PendingIsWalk(frame.items, 0, program.Frame(task), tasks, bound);
          assert program.Frame(task)[0..] == program.Frame(task);
          program.PendingFramesStable(frames, known, tasks);
          program.PendingPush(frames, frame, tasks);
          KnownWithin(frames, program, known);
          WithinGrows(frames, Live());
          PushKeeps(frames, frame, known.Keys, Live());
        }
      }
    }

    lemma TopItem(frames: seq<DirectoryFrame<Item>>, before: seq<Item>, rest: seq<Item>)
      requires program.WellFounded() && Pending(frames, rest)
      requires frames != [] && frames[|frames| - 1].next < |frames[|frames| - 1].items|
      requires forall item | item in before :: !policy.aborts(item)
      ensures var top := frames[|frames| - 1].items[frames[|frames| - 1].next];
        var grown := program.Advance(frames);
        var tail := program.PendingAfter(frames, tasks);
        && rest == [top.item] + tail && |rest| == 1 + |tail|
        && before + rest == (before + [top.item]) + tail
        && before <= before + [top.item] <= policy.Cut(before + rest)
        && (policy.aborts(top.item) ==> before + [top.item] == policy.Cut(before + rest))
        && program.KnownFrames(grown, tasks)
        && Pending(grown, program.PendingFrames(grown, tasks))
        && match top.child
           case None => tail == program.PendingFrames(grown, tasks)
           case Some(id) =>
             && id in tasks && id in Live() && AsksWithin(grown, Live() - {id})
             && tail == program.Walk(tasks[id]) + program.PendingFrames(grown, tasks)
    {
      hide AsksOnce, AsksWithin, LiveIn;
      program.PendingAdvance(frames, tasks);
      AdvanceKeeps(program, frames, program.Advance(frames), Live());
      CutOfTaken(before, rest);
    }

    /** Replays one item: shows it, then enters the directory behind it. */
    method Replay(frames: seq<DirectoryFrame<Item>>, ghost before: seq<Item>, ghost rest: seq<Item>)
      returns (grown: seq<DirectoryFrame<Item>>, ended: bool, ghost taken: seq<Item>, ghost tail: seq<Item>)
      requires Valid() && program.WellFounded() && !cancelled && Pending(frames, rest)
      requires frames != [] && frames[|frames| - 1].next < |frames[|frames| - 1].items|
      requires sent == Deliver(before) && forall item | item in before :: !policy.aborts(item)
      modifies this
      ensures before <= taken <= policy.Cut(before + rest)
      ensures sent == Deliver(taken) + (if Reported(refusal, dropped) then [SentScheduleError] else [])
      ensures Explained() && (dropped || refusal.Some? ==> interrupted)
      ensures refusal.Some? ==> refusal == Some(if ended then InWait else InPrepareFrame)
      ensures ended ==> inFlight == map[] && queued == [] && (interrupted || taken == policy.Cut(before + rest))
      ensures !ended ==>
        && Valid() && (!cancelled ==> Pending(grown, tail)) && sent == Deliver(taken)
        && taken + tail == before + rest && |tail| < |rest|
        && forall item | item in taken :: !policy.aborts(item)
    {
      hide Caused, Explained, Consistent, LiveIn, AsksOnce, AsksWithin, Parked, Deliver;
      hide Program.WellFounded, Program.PendingFrames, Policy.Cut, Program.Walk;
      var top := |frames| - 1;
      var prepared := frames[top].items[frames[top].next];
      grown, ended, taken, tail := program.Advance(frames), true, before, program.PendingAfter(frames, tasks);
      TopItem(frames, before, rest);
      var delivered := Emit(prepared.item, before);
      if !delivered {
        CancelAndDrain();
        return;
      }
      taken := before + [prepared.item];
      if policy.aborts(prepared.item) {
        CancelAndDrain();
        return;
      }
      if prepared.child.Some? {
        var waited;
        waited, grown := Descend(grown, prepared.child.value, program.PendingFrames(grown, tasks));
        if waited.Failed? {
          var _ := Send(SentScheduleError);
        }
        if !waited.Ready? {
          return;
        }
      }
      ended := false;
    }

    /** `drive_scheduler`: replays the frames in depth-first order after what was sent before. */
    method Drive(first: DirectoryFrame<Item>, ghost root: Task, ghost before: seq<Item>) returns (ghost taken: seq<Item>)
      requires Valid() && program.WellFounded()
      requires sent == Deliver(before) && forall item | item in before :: !policy.aborts(item)
      requires !cancelled ==> Pending([first], program.Walk(root))
      requires refusal in {None, Some(InPrepareFrame)}
      modifies this
      ensures old(cancelled) ==> taken == before && refusal == old(refusal) && sent == old(sent)
      ensures Streamed(before, root, taken) && inFlight == map[] && queued == []
    {
      hide Caused, Explained, Consistent, LiveIn, AsksOnce, AsksWithin, Parked, Deliver, Streamed, Reported;
      hide Policy.Cut, Program.Walk, Program.WellFounded;
      var frames := [first];
      taken := before;
      ghost var rest := program.Walk(root);
      while true
        invariant Valid() && sent == Deliver(taken) && before <= taken && refusal in {None, Some(InPrepareFrame)}
        invariant old(cancelled) ==> cancelled && taken == before && refusal == old(refusal)
        invariant taken + rest == before + program.Walk(root)
        invariant forall item | item in taken :: !policy.aborts(item)
        invariant !cancelled ==> Pending(frames, rest)
        decreases |rest|, |frames|
      {
        var stop := IsCancelled();
        if stop || frames == [] {
          break;
        }
        var top := |frames| - 1;
        if frames[top].next == |frames[top].items| {
          PopKeeps(frames, Live());
          frames := frames[..top];
          continue;
        }
        var ended;
        frames, ended, taken, rest := Replay(frames, taken, rest);
        if ended {
          EndsStreamed(before, root, taken);
          return;
        }
      }
      StopsStreamed(before, root, taken, rest);
      CancelAndDrain();
    }

    lemma EndsStreamed(before: seq<Item>, root: Task, taken: seq<Item>)
      requires program.WellFounded() && before <= taken <= policy.Cut(before + program.Walk(root))
      requires sent == Deliver(taken) + (if Reported(refusal, dropped) then [SentScheduleError] else [])
      requires Explained() && (dropped || refusal.Some? ==> interrupted)
      requires interrupted || taken == policy.Cut(before + program.Walk(root))
      ensures Streamed(before, root, taken)
    {
    }

    lemma StopsStreamed(before: seq<Item>, root: Task, taken: seq<Item>, rest: seq<Item>)
      requires program.WellFounded() && before <= taken && taken + rest == before + program.Walk(root)
      requires sent == Deliver(taken) && forall item | item in taken :: !policy.aborts(item)
      requires Explained() && refusal in {None, Some(InPrepareFrame)} && !dropped && (interrupted || rest == [])
      ensures Streamed(before, root, taken)
    {
      hide Deliver, Streamed;
      CutOfTaken(taken, rest);
      assert Deliver(taken) + [] == Deliver(taken);
      EndsStreamed(before, root, taken);
    }

    ghost predicate Streamed(before: seq<Item>, root: Task, taken: seq<Item>)
      requires program.WellFounded()
      reads this`sent, this`interrupted, this`refusal, this`dropped
    {
      && before <= taken
      && Explained()
      && policy.Streams(before + program.Walk(root), taken, sent, interrupted, refusal, dropped)
    }

    /** The whole parallel walk below an already sent root.  It blocks forever exactly when the
        cancellation comes before the first submission; otherwise no read is left running.  If the executor
        refuses the first subdirectory, the walk ends there and the consumer is told nothing. */
    method Run(ghost root: Task, ghost before: seq<Item>) returns (blocked: bool, ghost taken: seq<Item>)
      requires Valid() && program.WellFounded() && !scheduleError && nextId == 1
      requires queued == [Queued(0, root)] && inFlight == map[] && ready == map[] && tasks == map[0 := root]
      requires sent == Deliver(before) && forall item | item in before :: !policy.aborts(item)
      modifies this
      ensures Streamed(before, root, taken)
      ensures blocked <==> queued != []
      ensures old(cancelled) ==> blocked
      ensures blocked ==> interrupted && (old(cancelled) || env.cancels) && queued == [Queued(0, root)] && taken == before
      ensures inFlight == map[]
      ensures !env.cancels && !old(cancelled) && !env.accepts(0) ==>
        refusal == Some(AtStart) && taken == before && (!env.hangsUp ==> sent == old(sent) + [SentScheduleError])
      ensures !env.cancels && !old(cancelled) && env.accepts(0) && !env.accepts(1) && HasChild(program.Frame(root)) ==>
        refusal == Some(InPrepareFrame) && taken == before && sent == old(sent)
    {
      hide Caused, Explained, HasChild, Consistent, LiveIn, AsksOnce, AsksWithin, Parked, Deliver, Streamed, Reported;
      taken, blocked := before, false;
      var waited := AwaitRoot(root);
      CutOfTaken(before, program.Walk(root));
      assert Deliver(before) + [] == Deliver(before) by { hide *; }
      match waited
      case Blocked =>
        blocked := true;
        StopsStreamed(before, root, before, program.Walk(root));
      case Stopped =>
        StopsStreamed(before, root, before, program.Walk(root));
      case Failed =>
        var _ := Send(SentScheduleError);
        NotReported(before);
        EndsStreamed(before, root, before);
      case Ready(batch) =>
        var frame := PrepareFrame(batch);
        if !cancelled {
          FirstFrame(frame, root);
        }
        taken := Drive(frame, root, before);
    }

    lemma NotReported(taken: seq<Item>)
      requires refusal.Some? && refusal != Some(InPrepareFrame)
      ensures Reported(refusal, dropped) == !dropped
      ensures Deliver(taken) + [] == Deliver(taken)
    {
    }

    /** Submits the root and waits for it. */
    method AwaitRoot(ghost root: Task) returns (waited: Waited<Batch>)
      requires Valid() && !scheduleError && nextId == 1
      requires queued == [Queued(0, root)] && inFlight == map[] && ready == map[] && tasks == map[0 := root]
      modifies this`queued, this`outstanding, this`inFlight, this`ready, this`scheduleError, this`refusal, this`cancelled, this`interrupted
      ensures Explained() && refusal in {None, Some(AtStart), Some(InWait)} && (waited.Failed? <==> refusal.Some?)
      ensures !waited.Ready? ==> interrupted && inFlight == map[]
      ensures waited.Blocked? <==> queued != [] && !waited.Ready?
      ensures waited.Blocked? ==> (old(cancelled) || env.cancels) && queued == [Queued(0, root)]
      ensures waited.Ready? ==> Valid() && !scheduleError
      ensures waited.Ready? && !cancelled ==> Answers(waited.batch, 0) && Conserving() && queued == [] && inFlight == map[]
      ensures old(cancelled) ==> waited.Blocked?
      ensures !env.cancels && !old(cancelled) ==>
        if env.accepts(0) then waited.Ready? && !cancelled else refusal == Some(AtStart)
    {
      hide Caused, Consistent, LiveIn, Parked;
      RootLive(root);
      Refill(AtStart);
      assert !cancelled ==> queued == [];
      waited := WaitFor(0);
      if waited.Ready? && !cancelled { NothingLive(); }
    }

    lemma NothingLive()
      requires Live() <= {}
      ensures queued == [] && inFlight == map[]
    {
      NoIds(queued);
    }

    static lemma NoIds(queue: seq<Queued<Task>>)
      ensures Ids(queue) == {} ==> queue == []
    {
      if queue != [] { assert queue[0].id in Ids(queue); }
    }

    lemma RootLive(root: Task)
      requires queued == [Queued(0, root)]
      ensures 0 in Live() && (inFlight == map[] && ready == map[] ==> Live() == {0})
    {
      assert queued[0].id == 0;
    }

    lemma FirstFrame(frame: DirectoryFrame<Item>, root: Task)
      requires program.WellFounded() && Conserving()
      requires frame.next == 0 && DistinctChildren(frame.items)
      requires program.Matches(frame.items, program.Frame(root), tasks)
      requires forall i | 0 <= i < |frame.items| && frame.items[i].child.Some? ::
                 frame.items[i].child.value in Live()
      ensures Pending([frame], program.Walk(root))
    {
      program.PendingIsWalk(frame.items, 0, program.Frame(root), tasks, program.rank(root));
      assert program.Frame(root)[0..] == program.Frame(root);
      program.PendingPush([], frame, tasks);
      assert [] + [frame] == [frame];
      PushKeeps([], frame, {}, Live());
    }
  }
}
