/**
 The dispatcher: tasks are handed over by any number of threads through a list guarded by one mutex and
 one condition variable, and carried out by a single thread.
 */
module Dispatching {

  datatype ThreadState = Running | Closing | Terminated

  /** A task, with the number it was accepted under; the task of `shutdown` ends the thread. */
  datatype Task = Task(ticket: nat, front: bool, ends: bool)

  /** How far a call of addTask or shutdown has come. */
  datatype Caller =
    | Idle
    | Wanting(front: bool)
    | Checking(front: bool)
    | Pushing(front: bool)
    | Releasing(signal: bool)
    | Notifying
    | ShutWanting
    | ShutPushing
    | ShutNotifying
    | ShutReleasing
  {
    predicate Holds()
    {
      Checking? || Pushing? || Releasing? || ShutPushing? || ShutNotifying? || ShutReleasing?
    }

    predicate Shuts()
    {
      ShutWanting? || ShutPushing?
    }

    /** A task has been put into an empty list, or the ending task into any, and notify_one is still to come. */
    predicate Signals()
    {
      (Releasing? && signal) || Notifying? || ShutNotifying?
    }
  }

  /** How far the loop of the dispatcher thread has come. */
  datatype Worker =
    | Testing
    | Locking
    | Looking
    | Waiting
    | Woken
    | Deciding
    | Unlocking(task: Task)
    | UnlockingEmpty
    | Working(task: Task)
    | Exited
  {
    predicate Holds()
    {
      Looking? || Deciding? || Unlocking? || UnlockingEmpty?
    }

    predicate HasTask()
    {
      Unlocking? || Working?
    }
  }

  datatype Lock = Free | ByWorker | ByCaller(p: nat)

  datatype Ended = Ended(task: Task, ran: bool)

  /**
   The fields of the dispatcher, the threads, and what has happened: how many tasks were accepted, which
   were removed from the list, how they ended, how often the list got an ending task and stop was called,
   and whether every call of shutdown so far came after a stop.
   */
  datatype State = State(
    state: ThreadState, queue: seq<Task>, lock: Lock, worker: Worker, callers: map<nat, Caller>,
    accepted: nat, removed: seq<Task>, ended: seq<Ended>, shutdowns: nat, stops: nat, orderly: bool)
  {
    function At(p: nat): Caller
    {
      if p in callers then callers[p] else Idle
    }

    /** Every task ever accepted, in the order in which they leave the list. */
    function All(): seq<Task>
    {
      removed + queue
    }
  }

  /** Right after start(). */
  function Started(): State
  {
    State(Running, [], Free, Testing, map[], 0, [], [], 0, 0, true)
  }

  /**
   The steps that the threads can interleave between: taking or releasing the mutex, reading or storing the
   thread state (which is atomic and not guarded by the mutex), changing the list under the mutex, signalling,
   and waking up for no reason.  A task that is being carried out and calls back into the dispatcher is one
   more caller.
   */
  datatype Step =
    | Call(p: nat, front: bool)
    | CallShutdown(p: nat)
    | Acquire(p: nat)
    | ReadState(p: nat)
    | Push(p: nat)
    | Release(p: nat)
    | Notify(p: nat)
    | Stop
    | Test
    | Lock
    | Look
    | WakeUp
    | Relock
    | Decide
    | Unlock
    | Finish(expired: bool)

  predicate Enabled(s: State, step: Step)
  {
    match step
    case Call(p, _) => s.At(p).Idle?
    case CallShutdown(p) => s.At(p).Idle?
    case Acquire(p) => s.lock.Free? && (s.At(p).Wanting? || s.At(p).ShutWanting?)
    case ReadState(p) => s.At(p).Checking?
    case Push(p) => s.At(p).Pushing? || s.At(p).ShutPushing?
    case Release(p) => s.At(p).Releasing? || s.At(p).ShutReleasing?
    case Notify(p) => s.At(p).Notifying? || s.At(p).ShutNotifying?
    case Stop => true
    case Test => s.worker.Testing?
    case Lock => s.worker.Locking? && s.lock.Free?
    case Look => s.worker.Looking?
    case WakeUp => s.worker.Waiting?
    case Relock => s.worker.Woken? && s.lock.Free?
    case Decide => s.worker.Deciding?
    case Unlock => s.worker.Unlocking? || s.worker.UnlockingEmpty?
    case Finish(expired) => s.worker.Working? && (expired ==> !s.worker.task.ends)
  }

  /** The steps of addTask and shutdown. */
  function Called(s: State, step: Step): State
    requires Enabled(s, step) && (step.Call? || step.CallShutdown? || step.Acquire? || step.ReadState?)
  {
    match step
    case Call(p, front) => s.(callers := s.callers[p := Wanting(front)])
    case CallShutdown(p) => s.(callers := s.callers[p := ShutWanting], orderly := s.orderly && !s.state.Running?)
    case Acquire(p) =>
      s.(lock := ByCaller(p),
         callers := s.callers[p := if s.At(p).Wanting? then Checking(s.At(p).front) else ShutPushing])
    case ReadState(p) =>
      s.(callers := s.callers[p := if s.state.Running? then Pushing(s.At(p).front) else Releasing(false)])
  }

  function Pushed(s: State, p: nat): State
    requires Enabled(s, Push(p))
  {
    if s.At(p).Pushing? then
      var task := Task(s.accepted, s.At(p).front, false);
      s.(queue := if task.front then [task] + s.queue else s.queue + [task],
         accepted := s.accepted + 1,
         callers := s.callers[p := Releasing(s.queue == [])])
    else
      s.(queue := s.queue + [Task(s.accepted, false, true)],
         accepted := s.accepted + 1,
         shutdowns := s.shutdowns + 1,
         callers := s.callers[p := ShutNotifying])
  }

  function Released(s: State, p: nat): State
    requires Enabled(s, Release(p))
  {
    s.(lock := Free,
       callers := s.callers[p := if s.At(p).Releasing? && s.At(p).signal then Notifying else Idle])
  }

  /** notify_one: only the dispatcher thread ever waits. */
  function Notified(s: State, p: nat): State
    requires Enabled(s, Notify(p))
  {
    s.(worker := if s.worker.Waiting? then Woken else s.worker,
       callers := s.callers[p := if s.At(p).Notifying? then Idle else ShutReleasing])
  }

  /** The steps of dispatcherThread. */
  function Worked(s: State, step: Step): State
    requires Enabled(s, step)
    requires step.Test? || step.Lock? || step.Look? || step.WakeUp? || step.Relock? || step.Unlock?
  {
    match step
    case Test => s.(worker := if s.state.Terminated? then Exited else Locking)
    case Lock => s.(worker := Looking, lock := ByWorker)
    case Look => if s.queue == [] then s.(worker := Waiting, lock := Free) else s.(worker := Deciding)
    case WakeUp => s.(worker := Woken)
    case Relock => s.(worker := Deciding, lock := ByWorker)
    case Unlock =>
      s.(lock := Free, worker := if s.worker.Unlocking? then Working(s.worker.task) else Testing)
  }

  function Decided(s: State): State
    requires Enabled(s, Decide)
  {
    if s.queue == [] then s.(worker := UnlockingEmpty)
    else s.(worker := Unlocking(s.queue[0]), queue := s.queue[1..], removed := s.removed + [s.queue[0]])
  }

  /** The task is carried out unless it has expired; the ending task stores TERMINATED. */
  function Finished(s: State, expired: bool): State
    requires Enabled(s, Finish(expired))
  {
    s.(worker := Testing,
       state := if s.worker.task.ends then Terminated else s.state,
       ended := s.ended + [Ended(s.worker.task, !expired)])
  }

  function Apply(s: State, step: Step): State
    requires Enabled(s, step)
  {
    match step
    case Push(p) => Pushed(s, p)
    case Release(p) => Released(s, p)
    case Notify(p) => Notified(s, p)
    case Stop => s.(state := Closing, stops := s.stops + 1)
    case Decide => Decided(s)
    case Finish(expired) => Finished(s, expired)
    case Call(_, _) => Called(s, step)
    case CallShutdown(_) => Called(s, step)
    case Acquire(_) => Called(s, step)
    case ReadState(_) => Called(s, step)
    case _ => Worked(s, step)
  }

  /** The steps are possible one after the other. */
  predicate Possible(s: State, steps: seq<Step>)
    decreases |steps|
  {
    steps != [] ==> Enabled(s, steps[0]) && Possible(Apply(s, steps[0]), steps[1..])
  }

  function After(s: State, steps: seq<Step>): State
    requires Possible(s, steps)
    decreases |steps|
  {
    if steps == [] then s else After(Apply(s, steps[0]), steps[1..])
  }

  // ---------------------------------------------------------------- mutual exclusion

  /** Whoever is between lock and unlock is the one that holds the mutex. */
  ghost predicate Exclusive(s: State)
  {
    && (s.worker.Holds() <==> s.lock.ByWorker?)
    && forall p: nat :: s.At(p).Holds() <==> s.lock == ByCaller(p)
  }

  lemma ExclusiveKept(s: State, step: Step)
    requires Exclusive(s) && Enabled(s, step)
    ensures Exclusive(Apply(s, step))
  {
    var s' := Apply(s, step);
    assert forall p: nat :: s.At(p).Holds() <==> s.lock == ByCaller(p);
    forall p: nat
      ensures s'.At(p).Holds() <==> s'.lock == ByCaller(p)
    {
      assert s.At(p).Holds() <==> s.lock == ByCaller(p);
    }
  }

  // ---------------------------------------------------------------- no lost wakeup

  /** When the thread waits although there is work, somebody is still going to signal it. */
  ghost predicate Wakes(s: State)
  {
    s.worker.Waiting? && s.queue != [] ==> exists p: nat :: s.At(p).Signals()
  }

  lemma WakesKept(s: State, step: Step)
    requires Exclusive(s) && Wakes(s) && Enabled(s, step)
    ensures Wakes(Apply(s, step))
  {
    var s' := Apply(s, step);
    if s'.worker.Waiting? && s'.queue != [] {
      match step {
        case Push(p) =>
          if s.At(p).ShutPushing? || s.queue == [] {
            assert s'.At(p).Signals();
          } else {
            SignalsStill(s, step);
          }
        case _ => SignalsStill(s, step);
      }
    }
  }

  lemma SignalsStill(s: State, step: Step)
    requires Wakes(s) && Enabled(s, step) && s.worker.Waiting? && s.queue != [] && Apply(s, step).worker.Waiting?
    ensures exists p: nat :: Apply(s, step).At(p).Signals()
  {
    var p: nat :| s.At(p).Signals();
    assert Apply(s, step).At(p).Signals();
  }

  // ---------------------------------------------------------------- every task once, and in order

  ghost predicate Has(tasks: seq<Task>, ticket: nat)
  {
    exists i :: 0 <= i < |tasks| && tasks[i].ticket == ticket
  }

  /** Each ticket below `n` is there exactly once, and nothing else. */
  ghost predicate EachOnce(tasks: seq<Task>, n: nat)
  {
    && (forall i, j :: 0 <= i <= j < |tasks| ==> tasks[i].ticket < n && (i < j ==> tasks[i].ticket != tasks[j].ticket))
    && forall t: nat :: t < n ==> Has(tasks, t)
  }

  /** Tasks put at the back leave in the order in which they were accepted. */
  ghost predicate BackInOrder(tasks: seq<Task>)
  {
    forall i, j :: 0 <= i < j < |tasks| && !tasks[i].front && !tasks[j].front ==> tasks[i].ticket < tasks[j].ticket
  }

  /** What was removed has ended, in that order, but for the task at hand. */
  ghost predicate Accounted(s: State)
  {
    s.removed == TasksOf(s.ended) + if s.worker.HasTask() then [s.worker.task] else []
  }

  function TasksOf(ended: seq<Ended>): (tasks: seq<Task>)
    ensures |tasks| == |ended| && forall i :: 0 <= i < |tasks| ==> tasks[i] == ended[i].task
  {
    if ended == [] then [] else TasksOf(ended[..|ended| - 1]) + [ended[|ended| - 1].task]
  }

  ghost predicate Filed(s: State)
  {
    EachOnce(s.All(), s.accepted) && BackInOrder(s.All()) && Accounted(s)
  }

  /** Putting the next ticket in somewhere: at the end, or in front of the tasks still listed. */
  lemma FiledMore(before: seq<Task>, after: seq<Task>, task: Task, n: nat)
    requires EachOnce(before + after, n) && BackInOrder(before + after) && task.ticket == n
    requires after == [] || task.front
    ensures EachOnce(before + [task] + after, n + 1) && BackInOrder(before + [task] + after)
  {
    var tasks, tasks' := before + after, before + [task] + after;
    assert forall i :: 0 <= i < |before| ==> tasks'[i] == tasks[i];
    assert forall i :: |before| < i < |tasks'| ==> tasks'[i] == tasks[i - 1];
    assert tasks'[|before|] == task;
    HasMore(before, after, task, n);
  }

  lemma HasMore(before: seq<Task>, after: seq<Task>, task: Task, n: nat)
    requires EachOnce(before + after, n) && task.ticket == n
    ensures forall t: nat :: t < n + 1 ==> Has(before + [task] + after, t)
  {
    var tasks, tasks' := before + after, before + [task] + after;
    assert tasks'[|before|] == task;
    forall t: nat | t < n + 1 ensures Has(tasks', t) {
      if t < n {
        assert Has(tasks, t);
        var i :| 0 <= i < |tasks| && tasks[i].ticket == t;
        assert tasks'[if i < |before| then i else i + 1].ticket == t;
      }
    }
  }

  lemma FiledPush(s: State, p: nat)
    requires Filed(s) && Enabled(s, Push(p))
    ensures Filed(Pushed(s, p))
  {
    hide EachOnce, BackInOrder, TasksOf;
    var s' := Pushed(s, p);
    var front := s.At(p).Pushing? && s.At(p).front;
    var task := Task(s.accepted, front, s.At(p).ShutPushing?);
    if front {
      FiledMore(s.removed, s.queue, task, s.accepted);
      assert s'.All() == s.removed + [task] + s.queue;
    } else {
      assert s.All() + [] == s.All();
      FiledMore(s.All(), [], task, s.accepted);
      assert s'.All() == s.All() + [task] + [];
    }
  }

  /** Every other step leaves tickets and tasks where they are. */
  lemma FiledElse(s: State, step: Step)
    requires Filed(s) && Enabled(s, step) && !step.Push? && !step.Finish?
    ensures Filed(Apply(s, step))
  {
    hide EachOnce, BackInOrder, TasksOf;
    var s' := Apply(s, step);
    if step.Decide? {
      assert s'.All() == s.All();
    } else {
      assert s'.removed == s.removed && s'.queue == s.queue && s'.ended == s.ended && s'.accepted == s.accepted;
      assert s'.worker.HasTask() == s.worker.HasTask();
      assert s.worker.HasTask() ==> s'.worker.task == s.worker.task;
    }
  }

  lemma FiledFinish(s: State, expired: bool)
    requires Filed(s) && Enabled(s, Finish(expired))
    ensures Filed(Finished(s, expired))
  {
    hide EachOnce, BackInOrder, TasksOf;
    var s' := Finished(s, expired);
    assert s'.All() == s.All();
    TasksOfNext(s.ended, Ended(s.worker.task, !expired));
  }

  lemma TasksOfNext(ended: seq<Ended>, e: Ended)
    ensures TasksOf(ended + [e]) == TasksOf(ended) + [e.task]
  {
    assert (ended + [e])[..|ended|] == ended;
  }

  lemma FiledKept(s: State, step: Step)
    requires Filed(s) && Enabled(s, step)
    ensures Filed(Apply(s, step))
  {
    hide Filed, Enabled;
    match step {
      case Push(p) => FiledPush(s, p);
      case Finish(expired) => FiledFinish(s, expired);
      case _ => FiledElse(s, step);
    }
  }

  // ---------------------------------------------------------------- the orderly end

  ghost predicate NoneEnds(tasks: seq<Task>)
  {
    forall i :: 0 <= i < |tasks| ==> !tasks[i].ends
  }

  /** Behind an ending task there are only more of them. */
  ghost predicate OnlyEndsBehind(tasks: seq<Task>)
  {
    forall i, j :: 0 <= i < j < |tasks| && tasks[i].ends ==> tasks[j].ends
  }

  /** While every shutdown comes after a stop. */
  ghost predicate Orderly(s: State)
  {
    !s.orderly ||
    (OnlyEndsBehind(s.All())
     && (s.state.Running? ==> NoneEnds(s.All()) && forall p: nat :: !s.At(p).Shuts())
     && forall p: nat :: s.At(p).Pushing? ==> NoneEnds(s.All()))
  }

  /** The thread ends only through an ending task. */
  ghost predicate EndsByTask(s: State)
  {
    s.state.Terminated? || s.worker.Exited? ==> exists i :: 0 <= i < |s.removed| && s.removed[i].ends
  }

  function EndsIn(tasks: seq<Task>): nat
  {
    if tasks == [] then 0 else EndsIn(tasks[..|tasks| - 1]) + if tasks[|tasks| - 1].ends then 1 else 0
  }

  lemma {:induction false} EndsInConcat(a: seq<Task>, b: seq<Task>)
    ensures EndsIn(a + b) == EndsIn(a) + EndsIn(b)
    decreases |b|
  {
    if b == [] {
      assert a + b == a;
    } else {
      EndsInConcat(a, b[..|b| - 1]);
      assert (a + b)[..|a + b| - 1] == a + b[..|b| - 1];
    }
  }

  lemma {:induction false} EndsInAll(tasks: seq<Task>)
    requires forall i :: 0 <= i < |tasks| ==> tasks[i].ends
    ensures EndsIn(tasks) == |tasks|
  {
    if tasks != [] {
      EndsInAll(tasks[..|tasks| - 1]);
    }
  }

  lemma {:induction false} EndsInNone(tasks: seq<Task>)
    requires NoneEnds(tasks)
    ensures EndsIn(tasks) == 0
  {
    if tasks != [] {
      EndsInNone(tasks[..|tasks| - 1]);
    }
  }

  /** Every call of shutdown has put one ending task into the list. */
  ghost predicate Counted(s: State)
  {
    EndsIn(s.All()) == s.shutdowns
  }

  /** An ending task that was taken is the last one taken: it is at hand, or has just stopped the thread. */
  ghost predicate LastTaken(s: State)
  {
    forall i :: 0 <= i < |s.removed| && s.removed[i].ends ==>
      i == |s.removed| - 1 && (s.worker.HasTask() || (s.state.Terminated? && (s.worker.Testing? || s.worker.Exited?)))
  }

  /** With shutdown after stop, and one stop at most, TERMINATED stays. */
  ghost predicate OneStop(s: State)
  {
    !s.orderly || ((s.stops == 0 ==> s.state.Running?) && (s.stops <= 1 ==> LastTaken(s)))
  }

  lemma OrderlyKept(s: State, step: Step)
    requires Exclusive(s) && Orderly(s) && Enabled(s, step)
    ensures Orderly(Apply(s, step))
  {
    var s' := Apply(s, step);
    assert step.Decide? && s.queue != [] ==> s'.All() == s.All();
    if s'.orderly {
      if step.Push? {
        OrderlyPush(s, step.p);
      } else {
        assert s'.All() == s.All();
        forall q: nat ensures s'.state.Running? ==> !s'.At(q).Shuts() {
          assert s.state.Running? ==> !s.At(q).Shuts();
        }
        forall q: nat ensures s'.At(q).Pushing? ==> NoneEnds(s.All()) {
          assert s.At(q).Pushing? ==> NoneEnds(s.All());
        }
      }
    }
  }

  lemma OrderlyPush(s: State, p: nat)
    requires Exclusive(s) && Orderly(s) && Enabled(s, Push(p)) && s.orderly
    ensures Orderly(Pushed(s, p))
  {
    var s' := Pushed(s, p);
    assert s.At(p).Holds();
    forall q: nat ensures !s'.At(q).Pushing? && (s.state.Running? ==> !s'.At(q).Shuts()) {
      assert s.At(q).Holds() ==> q == p;
      assert s.state.Running? ==> !s.At(q).Shuts();
    }
    if s.At(p).Pushing? {
      var task := Task(s.accepted, s.At(p).front, false);
      assert NoneEnds(s.All());
      NoneEndsMore(s.removed, s.queue, task);
      assert s.removed + s.queue + [task] == s.removed + (s.queue + [task]);
      assert s.removed + [task] + s.queue == s.removed + ([task] + s.queue);
    } else {
      assert s.state.Running? ==> !s.At(p).Shuts();
      assert s'.All() == s.All() + [Task(s.accepted, false, true)];
    }
  }

  lemma NoneEndsMore(a: seq<Task>, b: seq<Task>, task: Task)
    requires NoneEnds(a + b) && !task.ends
    ensures NoneEnds(a + b + [task]) && NoneEnds(a + [task] + b)
  {
    assert forall i :: 0 <= i < |a| ==> (a + [task] + b)[i] == (a + b)[i];
    assert forall i :: |a| < i < |a + [task] + b| ==> (a + [task] + b)[i] == (a + b)[i - 1];
  }

  lemma EndsByTaskKept(s: State, step: Step)
    requires EndsByTask(s) && Accounted(s) && Enabled(s, step)
    ensures EndsByTask(Apply(s, step))
  {
    var s' := Apply(s, step);
    if step.Finish? && s.worker.task.ends {
      assert s.removed[|s.removed| - 1] == s.worker.task;
    } else if s.state.Terminated? || s.worker.Exited? {
      var i :| 0 <= i < |s.removed| && s.removed[i].ends;
      assert s'.removed[i] == s.removed[i];
    }
  }

  lemma EndsInOne(task: Task)
    ensures EndsIn([task]) == if task.ends then 1 else 0
  {
    assert [task][..0] == [];
  }

  lemma CountedKept(s: State, step: Step)
    requires Counted(s) && Enabled(s, step)
    ensures Counted(Apply(s, step))
  {
    hide EndsIn;
    var s' := Apply(s, step);
    match step {
      case Push(p) =>
        var task := if s.At(p).Pushing? then Task(s.accepted, s.At(p).front, false) else Task(s.accepted, false, true);
        EndsInConcat(s.removed, s.queue);
        EndsInConcat(s.removed, s'.queue);
        EndsInConcat([task], s.queue);
        EndsInConcat(s.queue, [task]);
        EndsInOne(task);
      case Decide =>
        if s.queue != [] {
          assert s'.All() == s.All();
        }
      case _ =>
    }
  }

  lemma OneStopKept(s: State, step: Step)
    requires OneStop(s) && Orderly(s) && EndsByTask(s) && Accounted(s) && Enabled(s, step)
    ensures OneStop(Apply(s, step))
  {
    var s' := Apply(s, step);
    if s'.orderly {
      if step.Finish? {
        var last := |s.removed| - 1;
        assert s.removed[last] == s.worker.task && s.All()[last] == s.worker.task;
      }
      if s'.stops <= 1 {
        LastTakenKept(s, step);
      }
    }
  }

  lemma LastTakenKept(s: State, step: Step)
    requires Orderly(s) && Accounted(s) && Enabled(s, step) && s.orderly
    requires OneStop(s) && Apply(s, step).stops <= 1
    ensures LastTaken(Apply(s, step))
  {
    var s' := Apply(s, step);
    forall i | 0 <= i < |s'.removed| && s'.removed[i].ends
      ensures i == |s'.removed| - 1
      ensures s'.worker.HasTask() || (s'.state.Terminated? && (s'.worker.Testing? || s'.worker.Exited?))
    {
      if i < |s.removed| {
        assert s.removed[i].ends && s.All()[i] == s.removed[i];
      }
    }
  }

  // ---------------------------------------------------------------- every reachable state

  ghost predicate Safe(s: State)
  {
    Exclusive(s) && Wakes(s) && Filed(s) && Orderly(s) && EndsByTask(s) && Counted(s) && OneStop(s)
  }

  lemma {:induction false} StaysSafe(s: State, steps: seq<Step>)
    requires Safe(s) && Possible(s, steps)
    ensures Safe(After(s, steps))
    decreases |steps|
  {
    hide Exclusive, Wakes, EachOnce, BackInOrder, Accounted, Orderly, EndsByTask, Counted, OneStop, Apply, Enabled;
    if steps != [] {
      ExclusiveKept(s, steps[0]);
      WakesKept(s, steps[0]);
      FiledKept(s, steps[0]);
      OrderlyKept(s, steps[0]);
      EndsByTaskKept(s, steps[0]);
      CountedKept(s, steps[0]);
      OneStopKept(s, steps[0]);
      StaysSafe(Apply(s, steps[0]), steps[1..]);
    }
  }

  lemma StartedSafe()
    ensures Safe(Started())
  {
    var s := Started();
    assert s.All() == [];
    assert Exclusive(s) && Wakes(s) && Accounted(s);
    hide Exclusive, Wakes, Accounted;
    assert Filed(s) && Counted(s);
  }

  /** In no interleaving does the thread sleep on a filled list without a signal on its way. */
  lemma NoLostWakeup(steps: seq<Step>)
    requires Possible(Started(), steps)
    ensures var s := After(Started(), steps);
            s.worker.Waiting? && s.queue != [] ==> exists p: nat :: s.At(p).Signals()
  {
    StartedSafe();
    StaysSafe(Started(), steps);
  }

  /** Steps that a thread takes on its own: not new calls, not stop, not waking up for no reason. */
  predicate Own(step: Step)
  {
    !step.Call? && !step.CallShutdown? && !step.Stop? && !step.WakeUp?
  }

  /** While there is work and the thread has not ended, some thread can go on. */
  lemma NoDeadlock(steps: seq<Step>)
    requires Possible(Started(), steps)
    ensures var s := After(Started(), steps);
            s.queue != [] && !s.worker.Exited? ==> exists step :: Own(step) && Enabled(s, step)
  {
    StartedSafe();
    StaysSafe(Started(), steps);
    var s := After(Started(), steps);
    if s.queue != [] && !s.worker.Exited? {
      CanGoOn(s);
    }
  }

  lemma CanGoOn(s: State)
    requires Exclusive(s) && Wakes(s) && s.queue != [] && !s.worker.Exited?
    ensures exists step :: Own(step) && Enabled(s, step)
  {
    match s.lock {
      case ByCaller(p) =>
        assert s.At(p).Holds();
        assert Enabled(s, ReadState(p)) || Enabled(s, Push(p)) || Enabled(s, Release(p)) || Enabled(s, Notify(p));
      case ByWorker =>
        assert Enabled(s, Look) || Enabled(s, Decide) || Enabled(s, Unlock);
      case Free =>
        if s.worker.Waiting? {
          var p: nat :| s.At(p).Signals();
          assert !s.At(p).Holds();
          assert Enabled(s, Notify(p));
        } else {
          assert Enabled(s, Test) || Enabled(s, Lock) || Enabled(s, Relock) || Enabled(s, Finish(false));
        }
    }
  }

  /**
   Every accepted task is either still listed or was removed, and exactly once; the removed ones were carried
   out or had expired, one after the other; and those pushed at the back leave in the order of acceptance.
   */
  lemma EveryTaskOnce(steps: seq<Step>)
    requires Possible(Started(), steps)
    ensures var s := After(Started(), steps);
            EachOnce(s.removed + s.queue, s.accepted) && BackInOrder(s.removed) && Accounted(s)
  {
    hide Exclusive, Wakes, Orderly, EndsByTask, Counted, OneStop, After, EachOnce, Accounted;
    StartedSafe();
    StaysSafe(Started(), steps);
    var s := After(Started(), steps);
    assert forall i :: 0 <= i < |s.removed| ==> s.All()[i] == s.removed[i];
  }

  // ---------------------------------------------------------------- which tasks are accepted

  predicate By(step: Step, p: nat)
  {
    match step
    case Call(q, _) => p == q
    case CallShutdown(q) => p == q
    case Acquire(q) => p == q
    case ReadState(q) => p == q
    case Push(q) => p == q
    case Release(q) => p == q
    case Notify(q) => p == q
    case _ => false
  }

  /** Nobody else moves a call on. */
  lemma {:induction false} CallerStays(s: State, steps: seq<Step>, p: nat)
    requires Possible(s, steps) && forall i :: 0 <= i < |steps| ==> !By(steps[i], p)
    ensures After(s, steps).At(p) == s.At(p)
    decreases |steps|
  {
    if steps != [] {
      CallerStays(Apply(s, steps[0]), steps[1..], p);
    }
  }

  /**
   A call that reads the state goes on to put its task into the list exactly when the state is RUNNING then, whatever
   the others do in between, stop included; the task comes to the head of the list if it was handed over for the
   front, and to the end otherwise.
   */
  lemma AcceptedWhenRunning(s: State, p: nat, steps: seq<Step>)
    requires Enabled(s, ReadState(p)) && Possible(Apply(s, ReadState(p)), steps) && forall i :: 0 <= i < |steps| ==> !By(steps[i], p)
    ensures var t := After(Apply(s, ReadState(p)), steps);
      && (Enabled(t, Push(p)) <==> s.state.Running?) && (Enabled(t, Release(p)) <==> !s.state.Running?)
      && (s.state.Running? ==>
            var task := Task(t.accepted, s.At(p).front, false);
            Apply(t, Push(p)).queue == if task.front then [task] + t.queue else t.queue + [task])
  {
    hide Possible, After;
    CallerStays(Apply(s, ReadState(p)), steps, p);
  }

  /** The calls that have read RUNNING and not yet put their task into the list. */
  ghost function Pushers(callers: map<nat, Caller>): set<nat>
  {
    set p | p in callers && callers[p].Pushing?
  }

  lemma PushersNext(callers: map<nat, Caller>, p: nat, c: Caller)
    ensures |Pushers(callers[p := c])| ==
            |Pushers(callers)| + (if c.Pushing? then 1 else 0) - (if p in callers && callers[p].Pushing? then 1 else 0)
  {
    if c.Pushing? {
      assert Pushers(callers[p := c]) == Pushers(callers) + {p};
    } else {
      assert Pushers(callers[p := c]) == Pushers(callers) - {p};
    }
  }

  /** How many calls of a run read RUNNING. */
  function ReadRunning(s: State, steps: seq<Step>): nat
    requires Possible(s, steps)
    decreases |steps|
  {
    if steps == [] then 0
    else (if steps[0].ReadState? && s.state.Running? then 1 else 0) + ReadRunning(Apply(s, steps[0]), steps[1..])
  }

  /** Tasks of addTask that were accepted, and those about to be. */
  ghost function Due(s: State): int
  {
    s.accepted - s.shutdowns + |Pushers(s.callers)|
  }

  lemma DueNext(s: State, step: Step)
    requires Enabled(s, step)
    ensures Due(Apply(s, step)) == Due(s) + if step.ReadState? && s.state.Running? then 1 else 0
  {
    hide Pushers;
    var callers := Apply(s, step).callers;
    match step
    case Call(p, _) => PushersNext(s.callers, p, callers[p]);
    case CallShutdown(p) => PushersNext(s.callers, p, callers[p]);
    case Acquire(p) => PushersNext(s.callers, p, callers[p]);
    case ReadState(p) => PushersNext(s.callers, p, callers[p]);
    case Push(p) => PushersNext(s.callers, p, callers[p]);
    case Release(p) => PushersNext(s.callers, p, callers[p]);
    case Notify(p) => PushersNext(s.callers, p, callers[p]);
    case _ =>
  }

  lemma {:induction false} DueThen(s: State, steps: seq<Step>)
    requires Possible(s, steps)
    ensures Due(After(s, steps)) == Due(s) + ReadRunning(s, steps)
    decreases |steps|
  {
    if steps != [] {
      hide Due, Apply, Enabled;
      DueNext(s, steps[0]);
      DueThen(Apply(s, steps[0]), steps[1..]);
    }
  }

  /**
   In every run the tasks accepted are those of the calls of shutdown and of the calls of addTask that read RUNNING,
   but for those that are still to put theirs into the list.
   */
  lemma AcceptedExactly(steps: seq<Step>)
    requires Possible(Started(), steps)
    ensures var s := After(Started(), steps);
      s.accepted == s.shutdowns + ReadRunning(Started(), steps) - |Pushers(s.callers)|
  {
    hide After, ReadRunning;
    DueThen(Started(), steps);
  }

  // ---------------------------------------------------------------- leaving the loop

  /** Every call of shutdown comes after a stop. */
  ghost predicate StopFirst(steps: seq<Step>)
  {
    forall i :: 0 <= i < |steps| && steps[i].CallShutdown? ==> exists j :: 0 <= j < i && steps[j].Stop?
  }

  lemma {:induction false} StaysOrderly(s: State, steps: seq<Step>)
    requires s.orderly && Possible(s, steps) && (s.state.Running? ==> StopFirst(steps))
    ensures After(s, steps).orderly
    decreases |steps|
  {
    if steps != [] {
      var s', rest := Apply(s, steps[0]), steps[1..];
      assert s.state.Running? ==> !steps[0].CallShutdown?;
      if s'.state.Running? {
        assert s.state.Running? && !steps[0].Stop?;
        forall i | 0 <= i < |rest| && rest[i].CallShutdown?
          ensures exists j :: 0 <= j < i && rest[j].Stop?
        {
          assert steps[i + 1].CallShutdown?;
          var j :| 0 <= j < i + 1 && steps[j].Stop?;
          assert rest[j - 1].Stop?;
        }
      }
      StaysOrderly(s', rest);
    }
  }

  /**
   When the thread has left its loop and every shutdown came after a stop, all work that was ever accepted
   was taken: only further ending tasks can be left.  With a single shutdown nothing is left.
   */
  lemma NothingLeftBehind(steps: seq<Step>)
    requires Possible(Started(), steps) && StopFirst(steps)
    requires After(Started(), steps).worker.Exited?
    ensures var s := After(Started(), steps);
            && (forall i :: 0 <= i < |s.queue| ==> s.queue[i].ends)
            && |s.queue| < s.shutdowns
            && (s.stops == 1 ==> (s.queue == [] <==> s.shutdowns == 1))
  {
    hide After, Exclusive, Wakes, Filed;
    StartedSafe();
    StaysSafe(Started(), steps);
    StaysOrderly(Started(), steps);
    AtExit(After(Started(), steps));
  }

  lemma AtExit(s: State)
    requires Orderly(s) && EndsByTask(s) && Counted(s) && OneStop(s) && s.orderly && s.worker.Exited?
    ensures forall i :: 0 <= i < |s.queue| ==> s.queue[i].ends
    ensures |s.queue| < s.shutdowns && (s.stops <= 1 ==> |s.queue| + 1 == s.shutdowns)
  {
    var i :| 0 <= i < |s.removed| && s.removed[i].ends;
    assert s.All()[i].ends;
    forall j | 0 <= j < |s.queue| ensures s.queue[j].ends {
      assert s.All()[|s.removed| + j] == s.queue[j];
    }
    EndsInAll(s.queue);
    EndsInConcat(s.removed, s.queue);
    EndsInSome(s.removed, i);
    if s.stops <= 1 {
      EndsInNone(s.removed[..|s.removed| - 1]);
    }
  }

  lemma {:induction false} EndsInSome(tasks: seq<Task>, i: nat)
    requires i < |tasks| && tasks[i].ends
    ensures EndsIn(tasks) > 0
  {
    if i < |tasks| - 1 {
      EndsInSome(tasks[..|tasks| - 1], i);
    }
  }

  // ---------------------------------------------------------------- when the ending state survives

  ghost predicate NoStop(steps: seq<Step>)
  {
    forall j :: 0 <= j < |steps| ==> !steps[j].Stop?
  }

  /** Step `i` is the one that carries an ending task out. */
  ghost predicate EndsAt(s: State, steps: seq<Step>, i: nat)
    requires Possible(s, steps) && i < |steps|
    decreases i
  {
    if i == 0 then steps[0].Finish? && s.worker.task.ends else EndsAt(Apply(s, steps[0]), steps[1..], i - 1)
  }

  /** An ending task is carried out, and nobody calls stop afterwards. */
  ghost predicate EndsForGood(s: State, steps: seq<Step>)
    requires Possible(s, steps)
  {
    exists i: nat :: i < |steps| && EndsAt(s, steps, i) && NoStop(steps[i + 1..])
  }

  lemma EndsForGoodStep(s: State, steps: seq<Step>)
    requires Possible(s, steps) && steps != []
    ensures EndsForGood(s, steps) <==>
              (EndsAt(s, steps, 0) && NoStop(steps[1..])) || EndsForGood(Apply(s, steps[0]), steps[1..])
  {
    var s', rest := Apply(s, steps[0]), steps[1..];
    if EndsForGood(s, steps) {
      var i: nat :| i < |steps| && EndsAt(s, steps, i) && NoStop(steps[i + 1..]);
      if i > 0 {
        assert rest[i..] == steps[i + 1..];
        assert EndsAt(s', rest, i - 1) && NoStop(rest[i - 1 + 1..]);
      }
    }
    if EndsForGood(s', rest) {
      var i: nat :| i < |rest| && EndsAt(s', rest, i) && NoStop(rest[i + 1..]);
      assert steps[i + 1 + 1..] == rest[i + 1..];
      assert EndsAt(s, steps, i + 1);
    }
  }

  lemma NoStopStep(steps: seq<Step>)
    requires steps != []
    ensures NoStop(steps) <==> !steps[0].Stop? && NoStop(steps[1..])
  {
    assert forall j :: 0 < j < |steps| ==> steps[j] == steps[1..][j - 1];
  }

  /** One step sets TERMINATED, keeps it, or takes it away by stop. */
  lemma TerminatedStep(s: State, step: Step)
    ensures Enabled(s, step) ==>
      (Apply(s, step).state.Terminated? <==>
        (step.Finish? && s.worker.task.ends) || (s.state.Terminated? && !step.Stop?))
  {
  }

  /**
   In every run the state is TERMINATED in the end exactly when it was from the start and nobody called
   stop, or an ending task was carried out and nobody called stop after it.
   */
  lemma {:induction false} TerminatedExactly(s: State, steps: seq<Step>)
    requires Possible(s, steps)
    ensures After(s, steps).state.Terminated? <==> (s.state.Terminated? && NoStop(steps)) || EndsForGood(s, steps)
    decreases |steps|
  {
    if steps != [] {
      TerminatedStep(s, steps[0]);
      NoStopStep(steps);
      EndsForGoodStep(s, steps);
      TerminatedExactly(Apply(s, steps[0]), steps[1..]);
    }
  }

  /** From the start on: the next test of the loop ends the thread exactly when an ending task ran for good. */
  lemma ThreadEndsExactly(steps: seq<Step>)
    requires Possible(Started(), steps) && After(Started(), steps).worker.Testing?
    ensures After(Started(), steps).state.Terminated? <==> EndsForGood(Started(), steps)
    ensures Apply(After(Started(), steps), Test).worker.Exited? <==> EndsForGood(Started(), steps)
  {
    TerminatedExactly(Started(), steps);
  }

  // ---------------------------------------------------------------- calls that nobody interrupts

  /** One call of addTask that nobody interrupts, up to the release of the mutex. */
  function AddSteps(p: nat, front: bool): seq<Step>
  {
    [Call(p, front), Acquire(p), ReadState(p)] + ([Push(p)] + [Release(p)])
  }

  lemma AddReads(s: State, p: nat, front: bool)
    requires s.lock.Free? && s.At(p).Idle? && s.state.Running?
    ensures var steps := [Call(p, front), Acquire(p), ReadState(p)];
      Possible(s, steps) && After(s, steps) == s.(lock := ByCaller(p), callers := s.callers[p := Pushing(front)])
  {
    hide Possible, After;
    ThreeSteps(s, Call(p, front), Acquire(p), ReadState(p));
    assert s.callers[p := Wanting(front)][p := Checking(front)][p := Pushing(front)] == s.callers[p := Pushing(front)];
  }

  lemma AddPushes(s: State, p: nat)
    requires s.lock == ByCaller(p) && s.At(p).Pushing?
    ensures var task := Task(s.accepted, s.At(p).front, false);
      Possible(s, [Push(p)] + [Release(p)]) && After(s, [Push(p)] + [Release(p)]) ==
      s.(queue := if task.front then [task] + s.queue else s.queue + [task], accepted := s.accepted + 1, lock := Free,
         callers := s.callers[p := if s.queue == [] then Notifying else Idle])
  {
    hide Possible, After;
    OneStep(s, Push(p));
    var s1 := Apply(s, Push(p));
    OneStep(s1, Release(p));
    assert Apply(s1, Release(p)).callers == s.callers[p := if s.queue == [] then Notifying else Idle];
    OneAfterTheOther(s, [Push(p)], [Release(p)]);
  }

  /** While the state is RUNNING its task is in the list then, at the head or at the end as it was handed over. */
  lemma AddedAlone(s: State, p: nat, front: bool)
    requires s.lock.Free? && s.At(p).Idle? && s.state.Running?
    ensures Possible(s, AddSteps(p, front))
    ensures var task := Task(s.accepted, front, false);
      After(s, AddSteps(p, front)) ==
      s.(queue := if front then [task] + s.queue else s.queue + [task], accepted := s.accepted + 1,
         callers := s.callers[p := if s.queue == [] then Notifying else Idle])
  {
    hide Possible, After, Apply, Enabled;
    AddReads(s, p, front);
    var s3 := s.(lock := ByCaller(p), callers := s.callers[p := Pushing(front)]);
    AddPushes(s3, p);
    assert s3.callers[p := if s.queue == [] then Notifying else Idle]
        == s.callers[p := if s.queue == [] then Notifying else Idle];
    OneAfterTheOther(s, [Call(p, front), Acquire(p), ReadState(p)], [Push(p)] + [Release(p)]);
  }

  /** In any other state the task is dropped. */
  lemma DroppedAlone(s: State, p: nat, front: bool)
    requires s.lock.Free? && s.At(p).Idle? && !s.state.Running?
    ensures var steps := [Call(p, front), Acquire(p), ReadState(p)] + [Release(p)];
      Possible(s, steps) && After(s, steps) == s.(callers := s.callers[p := Idle])
  {
    hide Possible, After;
    ThreeSteps(s, Call(p, front), Acquire(p), ReadState(p));
    var s3 := After(s, [Call(p, front), Acquire(p), ReadState(p)]);
    OneStep(s3, Release(p));
    assert s.callers[p := Wanting(front)][p := Checking(front)][p := Releasing(false)][p := Idle] == s.callers[p := Idle];
    OneAfterTheOther(s, [Call(p, front), Acquire(p), ReadState(p)], [Release(p)]);
  }

  // ---------------------------------------------------------------- how the end goes wrong

  /** One call of shutdown that nobody interrupts. */
  function ShutdownSteps(p: nat): seq<Step>
  {
    [CallShutdown(p), Acquire(p), Push(p)] + ([Notify(p)] + [Release(p)])
  }

  /** One pass of the loop that takes a task. */
  function TakeSteps(): seq<Step>
  {
    [Test, Lock, Look] + [Decide, Unlock, Finish(false)]
  }

  /** A second shutdown leaves its task in the list for ever. */
  lemma SecondShutdownStays()
    ensures exists steps :: Possible(Started(), steps) && StopFirst(steps) && After(Started(), steps).worker.Exited?
                            && After(Started(), steps).queue != []
  {
    hide Possible, After, ShutdownSteps, TakeSteps;
    var s0 := Started();
    OneStep(s0, Stop);
    var s1 := Apply(s0, Stop);
    ShutdownRun(s1, 0);
    var s2 := After(s1, ShutdownSteps(0));
    ShutdownRun(s2, 1);
    var s3 := After(s2, ShutdownSteps(1));
    TakeRun(s3);
    var s4 := After(s3, TakeSteps());
    OneStep(s4, Test);
    OneAfterTheOther(s3, TakeSteps(), [Test]);
    var tail3 := TakeSteps() + [Test];
    OneAfterTheOther(s2, ShutdownSteps(1), tail3);
    var tail2 := ShutdownSteps(1) + tail3;
    OneAfterTheOther(s1, ShutdownSteps(0), tail2);
    var tail1 := ShutdownSteps(0) + tail2;
    OneAfterTheOther(s0, [Stop], tail1);
    var steps := [Stop] + tail1;
    assert steps[0].Stop?;
  }

  /** A stop that comes after the ending task was carried out undoes it: the thread sleeps for ever. */
  lemma LateStopKeepsRunning()
    ensures exists steps :: Possible(Started(), steps) && After(Started(), steps).shutdowns == 1
                            && After(Started(), steps).worker.Waiting? && After(Started(), steps).queue == []
                            && After(Started(), steps).lock.Free? && forall p: nat :: After(Started(), steps).At(p).Idle?
  {
    hide Possible, After, ShutdownSteps, TakeSteps;
    var s0 := Started();
    ShutdownRun(s0, 0);
    var s1 := After(s0, ShutdownSteps(0));
    TakeRun(s1);
    var s2 := After(s1, TakeSteps());
    OneStep(s2, Stop);
    var s3 := Apply(s2, Stop);
    ThreeSteps(s3, Test, Lock, Look);
    var tail3 := [Test, Lock, Look];
    OneAfterTheOther(s2, [Stop], tail3);
    var tail2 := [Stop] + tail3;
    OneAfterTheOther(s1, TakeSteps(), tail2);
    OneAfterTheOther(s0, ShutdownSteps(0), TakeSteps() + tail2);
    var steps := ShutdownSteps(0) + (TakeSteps() + tail2);
    assert Possible(Started(), steps);
  }

  lemma {:induction false} OneAfterTheOther(s: State, a: seq<Step>, b: seq<Step>)
    requires Possible(s, a) && Possible(After(s, a), b)
    ensures Possible(s, a + b) && After(s, a + b) == After(After(s, a), b)
    decreases |a|
  {
    if a == [] {
      assert a + b == b;
    } else {
      OneAfterTheOther(Apply(s, a[0]), a[1..], b);
      assert (a + b)[1..] == a[1..] + b;
    }
  }

  lemma OneStep(s: State, step: Step)
    ensures Enabled(s, step) ==> Possible(s, [step]) && After(s, [step]) == Apply(s, step)
  {
  }

  lemma ThreeSteps(s: State, a: Step, b: Step, c: Step)
    requires Enabled(s, a) && Enabled(Apply(s, a), b) && Enabled(Apply(Apply(s, a), b), c)
    ensures Possible(s, [a, b, c]) && After(s, [a, b, c]) == Apply(Apply(Apply(s, a), b), c)
  {
    hide Apply, Enabled;
    OneStep(Apply(Apply(s, a), b), c);
    assert [b, c][1..] == [c];
    assert Possible(Apply(s, a), [b, c]) && After(Apply(s, a), [b, c]) == Apply(Apply(Apply(s, a), b), c);
    assert [a, b, c][1..] == [b, c];
  }

  lemma ShutdownPushes(s: State, p: nat)
    requires s.lock.Free? && s.At(p).Idle?
    ensures var steps := [CallShutdown(p), Acquire(p), Push(p)];
            Possible(s, steps) && After(s, steps) ==
            s.(queue := s.queue + [Task(s.accepted, false, true)], accepted := s.accepted + 1,
               shutdowns := s.shutdowns + 1, orderly := s.orderly && !s.state.Running?,
               lock := ByCaller(p), callers := s.callers[p := ShutNotifying])
  {
    hide Possible, After;
    ThreeSteps(s, CallShutdown(p), Acquire(p), Push(p));
    assert s.callers[p := ShutWanting][p := ShutPushing][p := ShutNotifying] == s.callers[p := ShutNotifying];
  }

  lemma ShutdownRun(s: State, p: nat)
    requires s.lock.Free? && s.At(p).Idle? && s.worker.Testing?
    ensures Possible(s, ShutdownSteps(p))
    ensures After(s, ShutdownSteps(p)) ==
            s.(queue := s.queue + [Task(s.accepted, false, true)], accepted := s.accepted + 1,
               shutdowns := s.shutdowns + 1, orderly := s.orderly && !s.state.Running?, callers := s.callers[p := Idle])
  {
    hide Possible, After;
    ShutdownPushes(s, p);
    var s3 := After(s, [CallShutdown(p), Acquire(p), Push(p)]);
    OneStep(s3, Notify(p));
    var s4 := Apply(s3, Notify(p));
    OneStep(s4, Release(p));
    assert s3.callers[p := ShutReleasing][p := Idle] == s.callers[p := Idle];
    OneAfterTheOther(s3, [Notify(p)], [Release(p)]);
    OneAfterTheOther(s, [CallShutdown(p), Acquire(p), Push(p)], [Notify(p)] + [Release(p)]);
  }

  lemma EnterRun(s: State)
    requires s.lock.Free? && s.worker.Testing? && !s.state.Terminated? && s.queue != []
    ensures Possible(s, [Test, Lock, Look]) && After(s, [Test, Lock, Look]) == s.(worker := Deciding, lock := ByWorker)
  {
    hide Possible, After;
    ThreeSteps(s, Test, Lock, Look);
  }

  lemma TakeRun(s: State)
    requires s.lock.Free? && s.worker.Testing? && !s.state.Terminated? && s.queue != []
    ensures Possible(s, TakeSteps())
    ensures After(s, TakeSteps()) ==
            s.(queue := s.queue[1..], removed := s.removed + [s.queue[0]], ended := s.ended + [Ended(s.queue[0], true)],
               state := if s.queue[0].ends then Terminated else s.state)
  {
    hide Possible, After;
    EnterRun(s);
    var s3 := s.(worker := Deciding, lock := ByWorker);
    ThreeSteps(s3, Decide, Unlock, Finish(false));
    OneAfterTheOther(s, [Test, Lock, Look], [Decide, Unlock, Finish(false)]);
  }
}
