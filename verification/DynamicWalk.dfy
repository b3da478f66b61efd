/**
 The dynamic work queue: any number of workers share a queue behind a mutex and sleep on one
 condition variable.  Each critical section is one step of a state machine, so every interleaving
 is a sequence of steps.  Cancellation, panics, refused submissions, quitting visitors and
 spurious wake-ups are steps too.
 */
module DynamicWalk {
  /** What one directory visit reports back. */
  datatype TaskReport<+Task> = TaskReport(directories: seq<Task>, visited: nat, errors: bool, quit: bool)

  /** `report` is the directory visit; `rank` witnesses that the tree is finite. */
  datatype Source<!Task(!new)> = Source(report: Task -> TaskReport<Task>, rank: Task -> nat, abortOnError: bool)
  {
    ghost predicate WellFounded() {
      forall task :: forall child | child in report(task).directories :: rank(child) < rank(task)
    }

    /** All directories below and including a task, each as often as it occurs. */
    ghost function Tree(task: Task): multiset<Task>
      requires WellFounded()
      decreases rank(task), 1, 0
    {
      multiset{task} + Forest(report(task).directories, rank(task))
    }

    ghost function Forest(tasks: seq<Task>, bound: nat): multiset<Task>
      requires WellFounded() && forall task | task in tasks :: rank(task) < bound
      decreases bound, 0, |tasks|
    {
      if tasks == [] then multiset{} else Tree(tasks[0]) + Forest(tasks[1..], bound)
    }

    ghost function Trees(tasks: seq<Task>): multiset<Task>
      requires WellFounded()
    {
      if tasks == [] then multiset{} else Tree(tasks[0]) + Trees(tasks[1..])
    }

    lemma {:induction false} ForestIsTrees(tasks: seq<Task>, bound: nat)
      requires WellFounded() && forall task | task in tasks :: rank(task) < bound
      ensures Forest(tasks, bound) == Trees(tasks)
    {
      if tasks != [] { ForestIsTrees(tasks[1..], bound); }
    }

    lemma TreeUnfolds(task: Task)
      requires WellFounded()
      ensures Tree(task) == multiset{task} + Trees(report(task).directories)
    {
      ForestIsTrees(report(task).directories, rank(task));
    }

    lemma {:induction false} TreesAppend(left: seq<Task>, right: seq<Task>)
      requires WellFounded()
      ensures Trees(left + right) == Trees(left) + Trees(right)
    {
      if left == [] {
        assert left + right == right;
      } else {
        assert (left + right)[1..] == left[1..] + right;
        TreesAppend(left[1..], right);
      }
    }

    /** The entries reported by a list of finished directories. */
    ghost function Visited(tasks: seq<Task>): nat {
      if tasks == [] then 0 else report(tasks[0]).visited + Visited(tasks[1..])
    }

    lemma {:induction false} VisitedAppend(left: seq<Task>, right: seq<Task>)
      ensures Visited(left + right) == Visited(left) + Visited(right)
    {
      if left == [] {
        assert left + right == right;
      } else {
        assert (left + right)[0] == left[0] && (left + right)[1..] == left[1..] + right;
        VisitedAppend(left[1..], right);
      }
    }

    static lemma RemoveOne(a: seq<Task>, b: seq<Task>, i: nat)
      requires multiset(a) == multiset(b) && a != [] && i < |b| && b[i] == a[0]
      ensures multiset(b[..i] + b[i + 1..]) == multiset(a[1..])
    {
      assert a == [a[0]] + a[1..] && b == b[..i] + [b[i]] + b[i + 1..];
      assert multiset(a[1..]) == multiset(a) - multiset{a[0]};
      assert multiset(b[..i] + b[i + 1..]) == multiset(b) - multiset{a[0]};
    }

    /** `Visited` depends on the directories only, not on the order they were finished in. */
    lemma {:induction false} VisitedByContents(a: seq<Task>, b: seq<Task>)
      requires multiset(a) == multiset(b)
      ensures Visited(a) == Visited(b)
    {
      if a == [] {
        assert |multiset(b)| == |multiset(a)| == 0;
      } else {
        assert a[0] in multiset(b);
        var i :| 0 <= i < |b| && b[i] == a[0];
        var rest := b[..i] + b[i + 1..];
        RemoveOne(a, b, i);
        VisitedByContents(a[1..], rest);
        assert b == b[..i] + ([b[i]] + b[i + 1..]);
        VisitedAppend(b[..i], [b[i]] + b[i + 1..]);
        VisitedAppend(b[..i], b[i + 1..]);
        assert ([b[i]] + b[i + 1..])[1..] == b[i + 1..];
      }
    }
  }

  /** Where a worker is between critical sections.  A notified worker is `Ready` again. */
  datatype Phase<+Task> = Ready | Sleeping | Working(task: Task) | Exited

  datatype SharedState<+Task> = SharedState(
    queue: seq<Task>,
    active: nat,
    stopped: bool,
    quit: bool,
    visited: nat,
    cancelled: bool,
    workers: seq<Phase<Task>>,
    // Finished directories in the order they were finished.
    finished: seq<Task>)

  datatype Step<+Task> =
    | Next(worker: nat)
    | Finish(worker: nat, torn: TaskReport<Task>)
    | Panic(worker: nat)
    | Cancel
    | RefuseSubmission
    | SpuriousWake(worker: nat)

  /** `notify_all`. */
  function Notified<Task>(workers: seq<Phase<Task>>): seq<Phase<Task>> {
    seq(|workers|, i requires 0 <= i < |workers| => if workers[i].Sleeping? then Ready else workers[i])
  }

  predicate Enabled<Task>(s: SharedState<Task>, step: Step<Task>) {
    match step
    case Next(w) => w < |s.workers| && s.workers[w].Ready?
    case Finish(w, _) => w < |s.workers| && s.workers[w].Working?
    case Panic(w) => w < |s.workers| && s.workers[w].Working?
    case Cancel => !s.cancelled
    case RefuseSubmission => !s.stopped
    case SpuriousWake(w) => w < |s.workers| && s.workers[w].Sleeping?
  }

  /** One pass of the loop in `next_task` under the lock. */
  function NextTask<Task>(s: SharedState<Task>, w: nat): SharedState<Task>
    requires w < |s.workers|
  {
    if s.cancelled || s.stopped then s.(workers := s.workers[w := Exited])
    else if s.queue != [] then
      s.(queue := s.queue[1..], active := s.active + 1, workers := s.workers[w := Working(s.queue[0])])
    else if s.active == 0 then
      s.(stopped := true, workers := Notified(s.workers[w := Exited]))
    else s.(workers := s.workers[w := Sleeping])
  }

  /** `finish_task` under the lock, the error policy folded into `abort`. */
  function FinishTask<Task>(s: SharedState<Task>, w: nat, report: TaskReport<Task>, abortOnError: bool): SharedState<Task>
    requires w < |s.workers| && s.workers[w].Working?
  {
    var active := if s.active == 0 then 0 else s.active - 1;
    var stopped := s.stopped || report.quit || (abortOnError && report.errors) || s.cancelled;
    var queue := if stopped then s.queue else s.queue + report.directories;
    SharedState(queue, active, stopped || (active == 0 && queue == []), s.quit || report.quit,
                s.visited + report.visited, s.cancelled, Notified(s.workers[w := Ready]),
                s.finished + [s.workers[w].task])
  }

  /** A visit that saw the cancellation may report anything. */
  function ReportOf<Task(!new)>(source: Source<Task>, s: SharedState<Task>, w: nat, torn: TaskReport<Task>): TaskReport<Task>
    requires w < |s.workers| && s.workers[w].Working?
  {
    if s.cancelled then torn else source.report(s.workers[w].task)
  }

  function Apply<Task(!new)>(source: Source<Task>, s: SharedState<Task>, step: Step<Task>): SharedState<Task>
    requires Enabled(s, step)
  {
    match step
    case Next(w) => NextTask(s, w)
    case Finish(w, torn) => FinishTask(s, w, ReportOf(source, s, w, torn), source.abortOnError)
    case Panic(w) =>
      s.(active := if s.active == 0 then 0 else s.active - 1, stopped := true, quit := true,
         workers := Notified(s.workers[w := Exited]))
    case Cancel => s.(cancelled := true)
    case RefuseSubmission => s.(stopped := true, quit := true, workers := Notified(s.workers))
    case SpuriousWake(w) => s.(workers := s.workers[w := Ready])
  }

  function InitialState<Task>(root: Task, workers: nat, visited: nat): SharedState<Task> {
    SharedState([root], 0, false, false, visited, false, seq(workers, _ => Ready), [])
  }

  // Counting over the workers ------------------------------------------------------------------

  ghost function Sum<Task>(workers: seq<Phase<Task>>, weight: Phase<Task> -> nat): nat {
    if workers == [] then 0 else weight(workers[0]) + Sum(workers[1..], weight)
  }

  lemma {:induction false} SumUpdate<Task>(workers: seq<Phase<Task>>, w: nat, phase: Phase<Task>, weight: Phase<Task> -> nat)
    requires w < |workers|
    ensures Sum(workers[w := phase], weight) + weight(workers[w]) == Sum(workers, weight) + weight(phase)
  {
    if w > 0 {
      SumUpdate(workers[1..], w - 1, phase, weight);
      assert workers[w := phase][1..] == workers[1..][w - 1 := phase];
    } else {
      assert workers[w := phase][1..] == workers[1..];
    }
  }

  lemma {:induction false} SumNotified<Task>(workers: seq<Phase<Task>>, weight: Phase<Task> -> nat)
    requires weight(Sleeping) == weight(Ready)
    ensures Sum(Notified(workers), weight) == Sum(workers, weight)
  {
    if workers != [] {
      SumNotified(workers[1..], weight);
      assert Notified(workers)[1..] == Notified(workers[1..]);
    }
  }

  lemma {:induction false} SumPositive<Task>(workers: seq<Phase<Task>>, weight: Phase<Task> -> nat)
    ensures Sum(workers, weight) > 0 <==> exists w :: 0 <= w < |workers| && weight(workers[w]) > 0
  {
    if workers != [] {
      SumPositive(workers[1..], weight);
      if Sum(workers[1..], weight) > 0 {
        var w :| 0 <= w < |workers[1..]| && weight(workers[1..][w]) > 0;
        assert weight(workers[w + 1]) > 0;
      }
      forall w | 0 < w < |workers| && weight(workers[w]) > 0
        ensures Sum(workers[1..], weight) > 0
      {
        assert workers[1..][w - 1] == workers[w];
      }
    }
  }

  /** The directories below the tasks being visited. */
  ghost function InHand<Task(!new)>(source: Source<Task>, workers: seq<Phase<Task>>): multiset<Task>
    requires source.WellFounded()
  {
    if workers == [] then multiset{} else Hand(source, workers[0]) + InHand(source, workers[1..])
  }

  ghost function Hand<Task(!new)>(source: Source<Task>, phase: Phase<Task>): multiset<Task>
    requires source.WellFounded()
  {
    if phase.Working? then source.Tree(phase.task) else multiset{}
  }

  lemma AddBoth<T>(head: multiset<T>, a: multiset<T>, b: multiset<T>, c: multiset<T>, d: multiset<T>)
    requires a + b == c + d
    ensures (head + a) + b == (head + c) + d
  {
    assert (head + a) + b == head + (a + b);
    assert (head + c) + d == head + (c + d);
  }

  lemma {:induction false} InHandUpdate<Task(!new)>(source: Source<Task>, workers: seq<Phase<Task>>, w: nat, phase: Phase<Task>)
    requires source.WellFounded() && w < |workers|
    ensures InHand(source, workers[w := phase]) + Hand(source, workers[w]) == InHand(source, workers) + Hand(source, phase)
  {
    if w > 0 {
      InHandUpdate(source, workers[1..], w - 1, phase);
      assert workers[w := phase][1..] == workers[1..][w - 1 := phase];
      AddBoth(Hand(source, workers[0]), InHand(source, workers[1..][w - 1 := phase]), Hand(source, workers[w]),
              InHand(source, workers[1..]), Hand(source, phase));
    } else {
      assert workers[w := phase][1..] == workers[1..];
    }
  }

  lemma {:induction false} InHandNotified<Task(!new)>(source: Source<Task>, workers: seq<Phase<Task>>)
    requires source.WellFounded()
    ensures InHand(source, Notified(workers)) == InHand(source, workers)
  {
    if workers != [] {
      InHandNotified(source, workers[1..]);
      assert Notified(workers)[1..] == Notified(workers[1..]);
    }
  }

  // What every step keeps ----------------------------------------------------------------------

  ghost function IsWorking<Task>(phase: Phase<Task>): nat { if phase.Working? then 1 else 0 }

  ghost function IsReady<Task>(phase: Phase<Task>): nat { if phase.Ready? then 1 else 0 }

  ghost function IsRunning<Task>(phase: Phase<Task>): nat { if phase.Exited? then 0 else 1 }

  /** The directories that are queued, in a worker's hands, or below one of those. */
  ghost function Outstanding<Task(!new)>(source: Source<Task>, s: SharedState<Task>): multiset<Task>
    requires source.WellFounded()
  {
    source.Trees(s.queue) + InHand(source, s.workers)
  }

  /** Nobody quit, cancelled, panicked, was refused or aborted. */
  ghost predicate Clean<Task(!new)>(source: Source<Task>, s: SharedState<Task>) {
    && !s.quit && !s.cancelled
    && forall i | 0 <= i < |s.finished| :: !(source.abortOnError && source.report(s.finished[i]).errors)
  }

  ghost predicate Counted<Task>(s: SharedState<Task>) {
    && s.active == Sum(s.workers, IsWorking)
    && (forall w | 0 <= w < |s.workers| :: s.workers[w].Sleeping? ==> !s.stopped && s.active > 0)
    && (forall w | 0 <= w < |s.workers| :: s.workers[w].Exited? ==> s.stopped || s.cancelled)
  }

  ghost predicate Conserved<Task(!new)>(source: Source<Task>, root: Task, base: nat, s: SharedState<Task>)
    requires source.WellFounded()
  {
    && multiset(s.finished) + Outstanding(source, s) <= source.Tree(root)
    && (Clean(source, s) ==>
          && multiset(s.finished) + Outstanding(source, s) == source.Tree(root)
          && s.visited == base + source.Visited(s.finished)
          && (s.stopped ==> s.queue == [] && s.active == 0))
  }

  lemma {:induction false} SumConstant<Task>(workers: nat, weight: Phase<Task> -> nat)
    ensures Sum(seq(workers, _ => Ready), weight) == workers * weight(Ready)
  {
    if workers > 0 {
      assert seq(workers, _ => Phase<Task>.Ready)[1..] == seq(workers - 1, _ => Ready);
      SumConstant(workers - 1, weight);
    }
  }

  lemma {:induction false} NothingInHand<Task(!new)>(source: Source<Task>, workers: seq<Phase<Task>>)
    requires source.WellFounded() && forall w | 0 <= w < |workers| :: !workers[w].Working?
    ensures InHand(source, workers) == multiset{}
  {
    if workers != [] { NothingInHand(source, workers[1..]); }
  }

  lemma InitialKeeps<Task(!new)>(source: Source<Task>, root: Task, workers: nat, visited: nat)
    requires source.WellFounded()
    ensures Counted(InitialState(root, workers, visited))
    ensures Conserved(source, root, visited, InitialState(root, workers, visited))
  {
    SumConstant<Task>(workers, IsWorking);
    var s := InitialState(root, workers, visited);
    NothingInHand(source, s.workers);
    assert source.Trees([root]) == source.Tree(root) + source.Trees([]) by { assert [root][1..] == []; }
  }

  lemma NextKeepsCounted<Task(!new)>(s: SharedState<Task>, w: nat)
    requires Counted(s) && w < |s.workers| && s.workers[w].Ready?
    ensures Counted(NextTask(s, w))
  {
    if s.cancelled || s.stopped || s.queue == [] {
      SumUpdate(s.workers, w, Exited, IsWorking);
      SumUpdate(s.workers, w, Sleeping, IsWorking);
      SumNotified(s.workers[w := Exited], IsWorking);
    } else {
      SumUpdate(s.workers, w, Working(s.queue[0]), IsWorking);
    }
  }

  lemma FinishKeepsCounted<Task(!new)>(s: SharedState<Task>, w: nat, report: TaskReport<Task>, abortOnError: bool)
    requires Counted(s) && w < |s.workers| && s.workers[w].Working?
    ensures Counted(FinishTask(s, w, report, abortOnError))
  {
    SumUpdate(s.workers, w, Ready, IsWorking);
    SumNotified(s.workers[w := Ready], IsWorking);
    SumPositive(s.workers, IsWorking);
  }

  lemma PanicKeepsCounted<Task(!new)>(source: Source<Task>, s: SharedState<Task>, w: nat)
    requires Counted(s) && w < |s.workers| && s.workers[w].Working?
    ensures Counted(Apply(source, s, Panic(w)))
  {
    SumUpdate(s.workers, w, Exited, IsWorking);
    SumNotified(s.workers[w := Exited], IsWorking);
  }

  /** Sleepers always have an active worker that will wake them: no wake-up is lost. */
  lemma StepKeepsCounted<Task(!new)>(source: Source<Task>, s: SharedState<Task>, step: Step<Task>)
    requires Counted(s) && Enabled(s, step)
    ensures Counted(Apply(source, s, step))
  {
    match step
    case Next(w) => NextKeepsCounted(s, w);
    case Finish(w, torn) => FinishKeepsCounted(s, w, ReportOf(source, s, w, torn), source.abortOnError);
    case Panic(w) => PanicKeepsCounted(source, s, w);
    case Cancel =>
    case RefuseSubmission => SumNotified(s.workers, IsWorking);
    case SpuriousWake(w) => SumUpdate(s.workers, w, Ready, IsWorking);
  }

  lemma InHandTake<Task(!new)>(source: Source<Task>, workers: seq<Phase<Task>>, w: nat, task: Task)
    requires source.WellFounded() && w < |workers| && !workers[w].Working?
    ensures InHand(source, workers[w := Working(task)]) == InHand(source, workers) + source.Tree(task)
  {
    InHandUpdate(source, workers, w, Working(task));
  }

  lemma InHandDrop<Task(!new)>(source: Source<Task>, workers: seq<Phase<Task>>, w: nat, phase: Phase<Task>)
    requires source.WellFounded() && w < |workers| && workers[w].Working? && !phase.Working?
    ensures InHand(source, workers[w := phase]) + source.Tree(workers[w].task) == InHand(source, workers)
  {
    InHandUpdate(source, workers, w, phase);
  }

  lemma InHandSame<Task(!new)>(source: Source<Task>, workers: seq<Phase<Task>>, w: nat, phase: Phase<Task>)
    requires source.WellFounded() && w < |workers| && !workers[w].Working? && !phase.Working?
    ensures InHand(source, workers[w := phase]) == InHand(source, workers)
  {
    InHandUpdate(source, workers, w, phase);
    assert Hand(source, phase) == Hand(source, workers[w]) == multiset{};
    assert InHand(source, workers) + multiset{} == InHand(source, workers);
    assert InHand(source, workers[w := phase]) + multiset{} == InHand(source, workers[w := phase]);
  }

  lemma Rotate<T>(a: multiset<T>, b: multiset<T>, c: multiset<T>)
    ensures a + (b + c) == (c + a) + b
  {
  }

  lemma NextKeepsOutstanding<Task(!new)>(source: Source<Task>, s: SharedState<Task>, w: nat)
    requires source.WellFounded() && w < |s.workers| && s.workers[w].Ready?
    ensures Outstanding(source, NextTask(s, w)) == Outstanding(source, s)
  {
    if s.cancelled || s.stopped || s.queue == [] {
      InHandSame(source, s.workers, w, Exited);
      InHandSame(source, s.workers, w, Sleeping);
      InHandNotified(source, s.workers[w := Exited]);
    } else {
      InHandTake(source, s.workers, w, s.queue[0]);
      Rotate(source.Trees(s.queue[1..]), InHand(source, s.workers), source.Tree(s.queue[0]));
    }
  }

  /** A finished directory leaves, its children arrive unless the traversal has stopped. */
  lemma FinishOutstanding<Task(!new)>(source: Source<Task>, s: SharedState<Task>, w: nat, report: TaskReport<Task>)
    requires source.WellFounded() && w < |s.workers| && s.workers[w].Working?
    ensures var after := FinishTask(s, w, report, source.abortOnError);
      var arrived := if after.queue == s.queue then multiset{} else source.Trees(report.directories);
      Outstanding(source, after) + source.Tree(s.workers[w].task) == Outstanding(source, s) + arrived
  {
    var after := FinishTask(s, w, report, source.abortOnError);
    var task := source.Tree(s.workers[w].task);
    InHandDrop(source, s.workers, w, Ready);
    InHandNotified(source, s.workers[w := Ready]);
    var rest := InHand(source, after.workers);
    var queue := source.Trees(s.queue);
    if after.queue == s.queue {
      assert (queue + rest) + task == queue + (rest + task);
    } else {
      source.TreesAppend(s.queue, report.directories);
      var children := source.Trees(report.directories);
      assert ((queue + children) + rest) + task == (queue + (rest + task)) + children;
    }
  }

  lemma FinishShrinks<T>(
    finished: multiset<T>, task: multiset<T>, below: multiset<T>, before: multiset<T>, after: multiset<T>,
    arrived: multiset<T>, all: multiset<T>)
    requires finished + before <= all && after + (task + below) == before + arrived
    requires arrived == multiset{} || arrived == below
    ensures (finished + task) + after <= all
    ensures finished + before == all && arrived == below ==> (finished + task) + after == all
    ensures |after| + |task| <= |before|
  {
    forall x
      ensures after[x] + task[x] + below[x] == before[x] + arrived[x] && finished[x] + before[x] <= all[x]
    {
      assert (after + (task + below))[x] == (before + arrived)[x];
    }
    assert before == (after + task) + (before - (after + task));
  }

  lemma CleanBefore<Task(!new)>(source: Source<Task>, s: SharedState<Task>, w: nat, report: TaskReport<Task>)
    requires w < |s.workers| && s.workers[w].Working?
    requires Clean(source, FinishTask(s, w, report, source.abortOnError))
    requires report == ReportOf(source, s, w, report)
    ensures Clean(source, s) && report == source.report(s.workers[w].task)
    ensures !report.quit && !(source.abortOnError && report.errors)
  {
    var after := FinishTask(s, w, report, source.abortOnError);
    assert after.finished[|s.finished|] == s.workers[w].task;
    forall i | 0 <= i < |s.finished|
      ensures !(source.abortOnError && source.report(s.finished[i]).errors)
    {
      assert after.finished[i] == s.finished[i];
    }
  }

  lemma FinishAccount<Task(!new)>(
    source: Source<Task>, all: multiset<Task>, s: SharedState<Task>, w: nat, report: TaskReport<Task>)
    requires source.WellFounded() && multiset(s.finished) + Outstanding(source, s) <= all
    requires w < |s.workers| && s.workers[w].Working? && report == ReportOf(source, s, w, report)
    ensures var after := FinishTask(s, w, report, source.abortOnError);
      && multiset(after.finished) + Outstanding(source, after) <= all
      && |Outstanding(source, after)| < |Outstanding(source, s)|
      && (after.queue == s.queue + report.directories && report == source.report(s.workers[w].task)
          && multiset(s.finished) + Outstanding(source, s) == all
          ==> multiset(after.finished) + Outstanding(source, after) == all)
  {
    hide Outstanding;
    var after := FinishTask(s, w, report, source.abortOnError);
    var task := s.workers[w].task;
    var below := source.Trees(source.report(task).directories);
    var arrived := if after.queue == s.queue then multiset{} else source.Trees(report.directories);
    FinishOutstanding(source, s, w, report);
    source.TreeUnfolds(task);
    FinishShrinks(multiset(s.finished), multiset{task}, below,
                  Outstanding(source, s), Outstanding(source, after), arrived, all);
    assert multiset(after.finished) == multiset(s.finished) + multiset{task};
  }

  lemma FinishClean<Task(!new)>(
    source: Source<Task>, root: Task, base: nat, s: SharedState<Task>, w: nat, report: TaskReport<Task>)
    requires source.WellFounded() && Counted(s) && Conserved(source, root, base, s)
    requires w < |s.workers| && s.workers[w].Working? && report == ReportOf(source, s, w, report)
    requires Clean(source, FinishTask(s, w, report, source.abortOnError))
    ensures var after := FinishTask(s, w, report, source.abortOnError);
      && Clean(source, s) && report == source.report(s.workers[w].task)
      && after.queue == s.queue + report.directories
      && after.visited == base + source.Visited(after.finished)
      && (after.stopped ==> after.queue == [] && after.active == 0)
  {
    hide Outstanding;
    var task := s.workers[w].task;
    CleanBefore(source, s, w, report);
    SumPositive(s.workers, IsWorking);
    source.VisitedAppend(s.finished, [task]);
    assert [task][1..] == [];
  }

  lemma FinishKeepsConserved<Task(!new)>(
    source: Source<Task>, root: Task, base: nat, s: SharedState<Task>, w: nat, report: TaskReport<Task>)
    requires source.WellFounded() && Counted(s) && Conserved(source, root, base, s)
    requires w < |s.workers| && s.workers[w].Working? && report == ReportOf(source, s, w, report)
    ensures var after := FinishTask(s, w, report, source.abortOnError);
      Conserved(source, root, base, after) && |Outstanding(source, after)| < |Outstanding(source, s)|
  {
    hide Outstanding, FinishTask;
    FinishAccount(source, source.Tree(root), s, w, report);
    if Clean(source, FinishTask(s, w, report, source.abortOnError)) {
      FinishClean(source, root, base, s, w, report);
    }
  }

  lemma NextKeepsConserved<Task(!new)>(source: Source<Task>, root: Task, base: nat, s: SharedState<Task>, w: nat)
    requires source.WellFounded() && Counted(s) && Conserved(source, root, base, s)
    requires w < |s.workers| && s.workers[w].Ready?
    ensures Conserved(source, root, base, NextTask(s, w))
  {
    hide Outstanding;
    NextKeepsOutstanding(source, s, w);
  }

  lemma PanicKeepsConserved<Task(!new)>(source: Source<Task>, root: Task, base: nat, s: SharedState<Task>, w: nat)
    requires source.WellFounded() && Conserved(source, root, base, s)
    requires w < |s.workers| && s.workers[w].Working?
    ensures var after := Apply(source, s, Panic(w));
      Conserved(source, root, base, after) && |Outstanding(source, after)| < |Outstanding(source, s)|
  {
    var after := Apply(source, s, Panic(w));
    InHandDrop(source, s.workers, w, Exited);
    InHandNotified(source, s.workers[w := Exited]);
    source.TreeUnfolds(s.workers[w].task);
    var tree := source.Tree(s.workers[w].task);
    assert Outstanding(source, after) + tree == Outstanding(source, s);
    assert tree[s.workers[w].task] > 0;
  }

  lemma StepKeepsConserved<Task(!new)>(source: Source<Task>, root: Task, base: nat, s: SharedState<Task>, step: Step<Task>)
    requires source.WellFounded() && Counted(s) && Conserved(source, root, base, s) && Enabled(s, step)
    ensures Conserved(source, root, base, Apply(source, s, step))
  {
    hide Outstanding, FinishTask, NextTask;
    match step
    case Next(w) => NextKeepsConserved(source, root, base, s, w);
    case Finish(w, torn) => FinishKeepsConserved(source, root, base, s, w, ReportOf(source, s, w, torn));
    case Panic(w) => PanicKeepsConserved(source, root, base, s, w);
    case Cancel => CancelKeepsOutstanding(source, s);
    case RefuseSubmission => RefuseKeepsOutstanding(source, s);
    case SpuriousWake(w) => WakeKeepsOutstanding(source, s, w);
  }

  lemma CancelKeepsOutstanding<Task(!new)>(source: Source<Task>, s: SharedState<Task>)
    requires source.WellFounded()
    ensures Outstanding(source, s.(cancelled := true)) == Outstanding(source, s)
  {
  }

  lemma RefuseKeepsOutstanding<Task(!new)>(source: Source<Task>, s: SharedState<Task>)
    requires source.WellFounded()
    ensures Outstanding(source, s.(stopped := true, quit := true, workers := Notified(s.workers))) == Outstanding(source, s)
  {
    InHandNotified(source, s.workers);
  }

  lemma WakeKeepsOutstanding<Task(!new)>(source: Source<Task>, s: SharedState<Task>, w: nat)
    requires source.WellFounded() && w < |s.workers| && s.workers[w].Sleeping?
    ensures Outstanding(source, s.(workers := s.workers[w := Ready])) == Outstanding(source, s)
  {
    InHandSame(source, s.workers, w, Ready);
  }

  // Termination and the final result -----------------------------------------------------------

  predicate AllExited<Task>(s: SharedState<Task>) {
    forall w | 0 <= w < |s.workers| :: s.workers[w].Exited?
  }

  /** Until every worker has exited, some worker can enter a critical section. */
  lemma Progress<Task(!new)>(s: SharedState<Task>, torn: TaskReport<Task>)
    requires Counted(s) && !AllExited(s)
    ensures exists w: nat :: Enabled(s, Next(w)) || Enabled(s, Finish(w, torn))
  {
    var w: nat :| w < |s.workers| && !s.workers[w].Exited?;
    match s.workers[w]
    case Ready => assert Enabled(s, Next(w));
    case Working(_) => assert Enabled(s, Finish(w, torn));
    case Sleeping =>
      SumPositive(s.workers, IsWorking);
      var other :| 0 <= other < |s.workers| && IsWorking(s.workers[other]) > 0;
      assert Enabled(s, Finish(other, torn));
  }

  /** When all workers are gone and nobody interfered, every directory of the tree was processed
      exactly as often as it occurs there and `visited` counts all their entries. */
  lemma ExitedMeansDone<Task(!new)>(source: Source<Task>, root: Task, base: nat, s: SharedState<Task>, order: seq<Task>)
    requires source.WellFounded() && Counted(s) && Conserved(source, root, base, s)
    requires AllExited(s) && s.workers != [] && Clean(source, s)
    requires multiset(order) == source.Tree(root)
    ensures multiset(s.finished) == source.Tree(root)
    ensures s.visited == base + source.Visited(order)
  {
    NothingInHand(source, s.workers);
    assert s.workers[0].Exited?;
    source.VisitedByContents(s.finished, order);
  }

  ghost predicate Before(a: nat, a': nat, rest: bool) { a' < a || (a' == a && rest) }

  ghost predicate Drops<Task(!new)>(source: Source<Task>, s: SharedState<Task>, t: SharedState<Task>, tie: bool)
    requires source.WellFounded()
  {
    Before(|Outstanding(source, s)|, |Outstanding(source, t)|,
      Before(|s.queue|, |t.queue|,
        Before(Sum(s.workers, IsRunning), Sum(t.workers, IsRunning),
          Before(if s.stopped then 0 else 1, if t.stopped then 0 else 1,
            Before(if s.cancelled then 0 else 1, if t.cancelled then 0 else 1, tie)))))
  }

  lemma NextDrops<Task(!new)>(source: Source<Task>, s: SharedState<Task>, w: nat)
    requires source.WellFounded() && w < |s.workers| && s.workers[w].Ready?
    ensures var t := NextTask(s, w);
      Drops(source, s, t, Sum(t.workers, IsReady) < Sum(s.workers, IsReady))
  {
    hide Outstanding;
    NextKeepsOutstanding(source, s, w);
    SumUpdate(s.workers, w, Exited, IsRunning);
    SumNotified(s.workers[w := Exited], IsRunning);
    SumUpdate(s.workers, w, Sleeping, IsRunning);
    SumUpdate(s.workers, w, Sleeping, IsReady);
  }

  /** Every step but a spurious wake-up uses something up, so no schedule runs forever. */
  lemma StepDrops<Task(!new)>(source: Source<Task>, root: Task, base: nat, s: SharedState<Task>, step: Step<Task>)
    requires source.WellFounded() && Counted(s) && Conserved(source, root, base, s) && Enabled(s, step)
    ensures var t := Apply(source, s, step);
      Drops(source, s, t, step.SpuriousWake? || Sum(t.workers, IsReady) < Sum(s.workers, IsReady))
  {
    hide Outstanding, FinishTask, NextTask;
    match step
    case Next(w) => NextDrops(source, s, w);
    case Finish(w, torn) => FinishKeepsConserved(source, root, base, s, w, ReportOf(source, s, w, torn));
    case Panic(w) => PanicKeepsConserved(source, root, base, s, w);
    case Cancel => CancelKeepsOutstanding(source, s);
    case RefuseSubmission =>
      RefuseKeepsOutstanding(source, s);
      SumNotified(s.workers, IsRunning);
    case SpuriousWake(w) =>
      WakeKeepsOutstanding(source, s, w);
      SumUpdate(s.workers, w, Ready, IsRunning);
  }

  /** Steps that come from outside the traversal. */
  predicate Outside<Task>(step: Step<Task>) { step.Panic? || step.Cancel? || step.RefuseSubmission? }

  /** Nobody cancelled, the traversal quits exactly if some finished directory asked for it, and all entries of
      the finished directories are counted. */
  ghost predicate Undisturbed<Task(!new)>(source: Source<Task>, base: nat, s: SharedState<Task>) {
    && !s.cancelled
    && (s.quit <==> exists i :: 0 <= i < |s.finished| && source.report(s.finished[i]).quit)
    && s.visited == base + source.Visited(s.finished)
  }

  lemma StepKeepsUndisturbed<Task(!new)>(source: Source<Task>, base: nat, s: SharedState<Task>, step: Step<Task>)
    requires Enabled(s, step) && !Outside(step) && Undisturbed(source, base, s)
    ensures Undisturbed(source, base, Apply(source, s, step))
  {
    var t := Apply(source, s, step);
    if step.Finish? {
      var task := s.workers[step.worker].task;
      assert t.finished == s.finished + [task] && t.finished[|s.finished|] == task;
      assert forall i | 0 <= i < |s.finished| :: t.finished[i] == s.finished[i];
      source.VisitedAppend(s.finished, [task]);
      assert [task][1..] == [];
    }
  }

  /** The task is the root or was reported by one of the first `count` finished directories. */
  ghost predicate Traced<Task(!new)>(source: Source<Task>, root: Task, finished: seq<Task>, count: nat, task: Task)
    requires count <= |finished|
  {
    if count == 0 then task == root
    else task == root || exists j | 0 <= j < count :: task in source.report(finished[j]).directories
  }

  /** Whatever is finished, queued or being visited came from the root: its parent was finished before. */
  ghost predicate AllTraced<Task(!new)>(source: Source<Task>, root: Task, s: SharedState<Task>) {
    && (forall i | 0 <= i < |s.finished| :: Traced(source, root, s.finished, i, s.finished[i]))
    && (forall task | task in s.queue :: Traced(source, root, s.finished, |s.finished|, task))
    && (forall w | 0 <= w < |s.workers| && s.workers[w].Working? ::
          Traced(source, root, s.finished, |s.finished|, s.workers[w].task))
  }

  lemma TracedGrows<Task(!new)>(source: Source<Task>, root: Task, finished: seq<Task>, more: seq<Task>, count: nat,
                                grown: nat, task: Task)
    requires count <= |finished| && count <= grown <= |finished + more| && Traced(source, root, finished, count, task)
    ensures Traced(source, root, finished + more, grown, task)
  {
    if task != root {
      var j :| 0 <= j < count && task in source.report(finished[j]).directories;
      assert (finished + more)[j] == finished[j];
    }
  }

  lemma TracedToLast<Task(!new)>(source: Source<Task>, root: Task, finished: seq<Task>, last: Task, task: Task)
    requires task in source.report(last).directories
    ensures Traced(source, root, finished + [last], |finished| + 1, task)
  {
    assert (finished + [last])[|finished|] == last;
  }

  lemma StepKeepsTraced<Task(!new)>(source: Source<Task>, root: Task, s: SharedState<Task>, step: Step<Task>)
    requires Enabled(s, step) && !Outside(step) && !s.cancelled && AllTraced(source, root, s)
    ensures AllTraced(source, root, Apply(source, s, step))
  {
    if step.Finish? { FinishKeepsTraced(source, root, s, step.worker, step.torn); }
  }

  lemma FinishKeepsTraced<Task(!new)>(source: Source<Task>, root: Task, s: SharedState<Task>, w: nat, torn: TaskReport<Task>)
    requires Enabled(s, Finish(w, torn)) && !s.cancelled && AllTraced(source, root, s)
    ensures AllTraced(source, root, Apply(source, s, Finish(w, torn)))
  {
    var task, count := s.workers[w].task, |s.finished|;
    var t := Apply(source, s, Finish(w, torn));
    assert t.finished == s.finished + [task] && t.finished[count] == task;
    hide Traced;
    forall i | 0 <= i < |t.finished| ensures Traced(source, root, t.finished, i, t.finished[i]) {
      TracedGrows(source, root, s.finished, [task], i, i, t.finished[i]);
    }
    forall queued | queued in t.queue ensures Traced(source, root, t.finished, |t.finished|, queued) {
      if queued in s.queue {
        TracedGrows(source, root, s.finished, [task], count, count + 1, queued);
      } else {
        TracedToLast(source, root, s.finished, task, queued);
      }
    }
    forall v | 0 <= v < |t.workers| && t.workers[v].Working?
      ensures Traced(source, root, t.finished, |t.finished|, t.workers[v].task)
    {
      assert t.workers[v] == s.workers[v];
      TracedGrows(source, root, s.finished, [task], count, count + 1, t.workers[v].task);
    }
  }

  /** No directory asks to quit, and none has an error that aborts. */
  ghost predicate Quiet<Task(!new)>(source: Source<Task>, root: Task)
    requires source.WellFounded()
  {
    forall task | task in source.Tree(root) ::
      !source.report(task).quit && !(source.abortOnError && source.report(task).errors)
  }

  /** One critical section of some worker, or an event from outside; spurious wake-ups are rationed. */
  method TakeStep<Task(!new)>(
    source: Source<Task>, ghost root: Task, ghost base: nat, s: SharedState<Task>, wakes: nat, disturbed: bool)
    returns (t: SharedState<Task>, left: nat, ghost step: Step<Task>)
    requires source.WellFounded() && Counted(s) && Conserved(source, root, base, s) && !AllExited(s) && |s.workers| >= 1
    ensures Enabled(s, step) && t == Apply(source, s, step) && (!disturbed ==> !Outside(step))
    ensures Counted(t) && Conserved(source, root, base, t) && |t.workers| == |s.workers|
    ensures Drops(source, s, t, left < wakes || (left == wakes && Sum(t.workers, IsReady) < Sum(s.workers, IsReady)))
  {
    hide Outstanding, Conserved, Counted, Apply, Drops, Sum;
    Progress(s, source.report(root));
    var chosen: Step<Task> :|
      Enabled(s, chosen) && (chosen.SpuriousWake? ==> wakes > 0) && (!disturbed ==> !Outside(chosen));
    step := chosen;
    StepKeepsCounted(source, s, step);
    StepKeepsConserved(source, root, base, s, step);
    StepDrops(source, root, base, s, step);
    StepKeepsWorkers(source, s, step);
    left := if chosen.SpuriousWake? then wakes - 1 else wakes;
    t := Apply(source, s, chosen);
  }

  /** `run_batched` once the workers are started: any interleaving of their critical sections, with
      any finite number of spurious wake-ups, ends with all workers gone. */
  method RunWorkers<Task(!new)>(source: Source<Task>, root: Task, workers: nat, base: nat, spuriousWakes: nat,
                                    disturbed: bool)
    returns (s: SharedState<Task>)
    requires source.WellFounded() && workers >= 1
    ensures AllExited(s) && |s.workers| == workers
    ensures multiset(s.finished) <= source.Tree(root)
    ensures Clean(source, s) ==>
      && multiset(s.finished) == source.Tree(root)
      && s.visited == base + source.Visited(s.finished)
    ensures !disturbed ==> Undisturbed(source, base, s) && (Quiet(source, root) ==> Clean(source, s))
    ensures !disturbed ==> s.finished != [] && AllTraced(source, root, s)
  {
    hide Outstanding, Conserved, Counted, Sum, Clean, Source.WellFounded, Undisturbed, Apply, Quiet, AllTraced;
    s := InitialState(root, workers, base);
    InitialKeeps(source, root, workers, base);
    StartsUndisturbed(source, root, workers, base);
    var wakes := spuriousWakes;
    while !AllExited(s)
      invariant Counted(s) && Conserved(source, root, base, s) && |s.workers| == workers
      invariant !disturbed ==> Undisturbed(source, base, s) && AllTraced(source, root, s)
      decreases |Outstanding(source, s)|, |s.queue|, Sum(s.workers, IsRunning),
                if s.stopped then 0 else 1, if s.cancelled then 0 else 1, wakes, Sum(s.workers, IsReady)
    {
      ghost var before, step := s, Step<Task>.Cancel;
      s, wakes, step := TakeStep(source, root, base, s, wakes, disturbed);
      if !disturbed {
        UndisturbedIsLive(source, base, before);
        StepKeepsUndisturbed(source, base, before, step);
        StepKeepsTraced(source, root, before, step);
      }
    }
    RunEnds(source, root, base, s);
    if !disturbed {
      SomethingFinished(source, root, base, s);
      if Quiet(source, root) { QuietIsClean(source, root, base, s); }
    }
  }

  lemma UndisturbedIsLive<Task(!new)>(source: Source<Task>, base: nat, s: SharedState<Task>)
    requires Undisturbed(source, base, s)
    ensures !s.cancelled
  {
  }

  /** An undisturbed run has at least read the root. */
  lemma SomethingFinished<Task(!new)>(source: Source<Task>, root: Task, base: nat, s: SharedState<Task>)
    requires source.WellFounded() && Undisturbed(source, base, s)
    requires Clean(source, s) ==> multiset(s.finished) == source.Tree(root)
    ensures s.finished != []
  {
    source.TreeUnfolds(root);
    assert root in source.Tree(root);
  }

  lemma StartsUndisturbed<Task(!new)>(source: Source<Task>, root: Task, workers: nat, base: nat)
    ensures Undisturbed(source, base, InitialState(root, workers, base))
    ensures AllTraced(source, root, InitialState(root, workers, base))
  {
  }

  lemma QuietIsClean<Task(!new)>(source: Source<Task>, root: Task, base: nat, s: SharedState<Task>)
    requires source.WellFounded() && Quiet(source, root) && Undisturbed(source, base, s)
    requires multiset(s.finished) <= source.Tree(root)
    ensures Clean(source, s)
  {
    forall i | 0 <= i < |s.finished| ensures s.finished[i] in source.Tree(root) {
      assert s.finished[i] in multiset(s.finished);
    }
  }

  lemma RunEnds<Task(!new)>(source: Source<Task>, root: Task, base: nat, s: SharedState<Task>)
    requires source.WellFounded() && Counted(s) && Conserved(source, root, base, s) && AllExited(s) && |s.workers| >= 1
    ensures multiset(s.finished) <= source.Tree(root)
    ensures Clean(source, s) ==> multiset(s.finished) == source.Tree(root) && s.visited == base + source.Visited(s.finished)
  {
    NothingInHand(source, s.workers);
    assert s.workers[0].Exited?;
    if Clean(source, s) {
      ExitedMeansDone(source, root, base, s, s.finished);
    }
  }

  lemma StepKeepsWorkers<Task(!new)>(source: Source<Task>, s: SharedState<Task>, step: Step<Task>)
    requires Enabled(s, step)
    ensures |Apply(source, s, step).workers| == |s.workers|
  {
  }
}
