/** Whole runs of the dispatch pool: the depth account, the bound on it, and what becomes of each task. */
module DispatchRuns {
  import opened Dispatch

  // ----- who holds the sender lock, and who is gone -----

  predicate Locking(d: Dispatcher) {
    d.Sending? || d.Undoing?
  }

  ghost predicate LockOk(s: Pool) {
    && (forall i, j ::
          0 <= i < |s.dispatchers| && 0 <= j < |s.dispatchers| && Locking(s.dispatchers[i]) && Locking(s.dispatchers[j])
          ==> i == j)
    && (!s.open ==> Unlocked(s))
  }

  /** A worker leaves only once the channel is closed and empty. */
  ghost predicate ExitOk(s: Pool) {
    && (Exited in s.workers ==> !s.open && s.queue == [])
    && (s.workers == [] ==> s.queue == [])
  }

  // ----- what becomes of a task -----

  predicate Busy(w: Worker) {
    w.Running? || w.Returned? || w.BackingOff?
  }

  /** What has been invoked so far, told from where the worker is. */
  predicate Telling(w: Worker, log: seq<CallbackResult>)
    requires Busy(w)
  {
    match w
    case Running(_, retry) => log == if retry then [RetryRequested] else []
    case Returned(_, retry, result) => log == if retry then [RetryRequested, result] else [result]
    case BackingOff(_) => log == [RetryRequested]
  }

  /** Invoked once with an answer that ends it, or twice because the first answer asked for a retry. */
  predicate Done(log: seq<CallbackResult>) {
    || (|log| == 1 && log[0] != RetryRequested)
    || (|log| == 2 && log[0] == RetryRequested)
  }

  ghost predicate AtAWorker(s: Pool, t: Task) {
    exists w <- s.workers :: Busy(w) && w.task == t
  }

  ghost predicate QueueOk(s: Pool) {
    && (forall i, j :: 0 <= i < j < |s.queue| ==> s.queue[i] != s.queue[j])
    && (forall t <- s.queue :: t in s.invoked && s.invoked[t] == [])
  }

  ghost predicate WorkerTells(s: Pool, i: nat)
    requires i < |s.workers| && Busy(s.workers[i])
  {
    && s.workers[i].task in s.invoked && s.workers[i].task !in s.queue
    && Telling(s.workers[i], s.invoked[s.workers[i].task])
  }

  ghost predicate WorkersOk(s: Pool) {
    && (forall i :: 0 <= i < |s.workers| && Busy(s.workers[i]) ==> WorkerTells(s, i))
    && WorkersApart(s)
  }

  ghost predicate WorkersApart(s: Pool) {
    && (forall i, j :: 0 <= i < j < |s.workers| && Busy(s.workers[i]) && Busy(s.workers[j]) ==>
          s.workers[i].task != s.workers[j].task)
  }

  ghost predicate NoneLost(s: Pool) {
    forall t <- s.invoked.Keys :: t in s.queue || AtAWorker(s, t) || Done(s.invoked[t])
  }

  /** Tasks on their way in are new to the workers. */
  ghost predicate IncomingOk(s: Pool) {
    && (forall t <- s.invoked.Keys :: t.id in s.used)
    && (forall d <- s.dispatchers :: d != Away ==> d.task.id in s.used && d.task !in s.invoked)
    && IncomingApart(s)
  }

  ghost predicate IncomingApart(s: Pool) {
    forall i, j :: 0 <= i < j < |s.dispatchers| && s.dispatchers[i] != Away && s.dispatchers[j] != Away ==>
      s.dispatchers[i].task != s.dispatchers[j].task
  }

  ghost predicate TasksOk(s: Pool) {
    QueueOk(s) && WorkersOk(s) && NoneLost(s) && IncomingOk(s)
  }

  ghost predicate DepthOk(s: Pool) {
    forall x :: Depth(s, x) == Account(s, x)
  }

  ghost predicate Inv(s: Pool) {
    LockOk(s) && ExitOk(s) && TasksOk(s) && DepthOk(s)
  }

  lemma LockStep(s: Pool, e: Step)
    requires LockOk(s) && Enabled(s, e)
    ensures LockOk(Next(s, e))
  {
    hide ReceiverAlive;
  }

  lemma ExitStep(s: Pool, e: Step)
    requires LockOk(s) && ExitOk(s) && Enabled(s, e)
    ensures ExitOk(Next(s, e))
  {
  }

  lemma QueueStep(s: Pool, e: Step)
    requires TasksOk(s) && Enabled(s, e)
    ensures QueueOk(Next(s, e))
  {
    hide NoneLost, ReceiverAlive;
  }

  lemma ApartStep(s: Pool, e: Step)
    requires TasksOk(s) && Enabled(s, e)
    ensures WorkersApart(Next(s, e))
  {
    hide NoneLost, ReceiverAlive, IncomingOk, Telling;
  }

  lemma WorkerStep(s: Pool, e: Step, i: nat)
    requires TasksOk(s) && Enabled(s, e) && i < |Next(s, e).workers| && Busy(Next(s, e).workers[i])
    ensures WorkerTells(Next(s, e), i)
  {
    hide NoneLost, ReceiverAlive, IncomingApart;
    if i < |s.workers| && Busy(s.workers[i]) { assert WorkerTells(s, i); }
  }

  lemma WorkersStep(s: Pool, e: Step)
    requires TasksOk(s) && Enabled(s, e)
    ensures WorkersOk(Next(s, e))
  {
    hide TasksOk, Next, WorkerTells, WorkersApart;
    ApartStep(s, e);
    forall i | 0 <= i < |Next(s, e).workers| && Busy(Next(s, e).workers[i])
      ensures WorkerTells(Next(s, e), i)
    {
      WorkerStep(s, e, i);
    }
  }

  lemma IncomingStep(s: Pool, e: Step)
    requires TasksOk(s) && Enabled(s, e)
    ensures IncomingOk(Next(s, e))
  {
    hide NoneLost, ReceiverAlive, QueueOk, WorkersOk;
    IncomingApartStep(s, e);
    assert e.Invoke? ==> s.workers[e.w].task in s.invoked;
    hide IncomingApart;
  }

  lemma IncomingApartStep(s: Pool, e: Step)
    requires IncomingOk(s) && Enabled(s, e)
    ensures IncomingApart(Next(s, e))
  {
    hide ReceiverAlive;
  }

  /** A worker keeps its task until it is done with it. */
  lemma WorkerSeesThrough(s: Pool, e: Step, i: nat)
    requires WorkersOk(s) && Enabled(s, e) && i < |s.workers| && Busy(s.workers[i])
    ensures var t, s' := s.workers[i].task, Next(s, e);
            t in s'.invoked && (AtAWorker(s', t) || Done(s'.invoked[t]))
  {
    hide ReceiverAlive;
    assert WorkerTells(s, i);
    assert Next(s, e).workers[i] in Next(s, e).workers;
  }

  lemma NoneLostStep(s: Pool, e: Step)
    requires TasksOk(s) && Enabled(s, e)
    ensures NoneLost(Next(s, e))
  {
    hide ReceiverAlive, QueueOk, IncomingOk, WorkersOk;
    var s' := Next(s, e);
    forall t | t in s'.invoked ensures t in s'.queue || AtAWorker(s', t) || Done(s'.invoked[t]) {
      if t in s.invoked && AtAWorker(s, t) {
        var w :| w in s.workers && Busy(w) && w.task == t;
        var i :| 0 <= i < |s.workers| && s.workers[i] == w;
        WorkerSeesThrough(s, e, i);
      } else if e.Take? {
        assert s'.workers[e.w] in s'.workers;
      }
    }
  }

  lemma StepKeeps(s: Pool, e: Step)
    requires Inv(s) && Enabled(s, e)
    ensures Inv(Next(s, e))
  {
    hide LockOk, ExitOk, QueueOk, WorkersOk, NoneLost, IncomingOk, Account, Depth, Next;
    LockStep(s, e);
    ExitStep(s, e);
    QueueStep(s, e);
    WorkersStep(s, e);
    IncomingStep(s, e);
    NoneLostStep(s, e);
    forall x ensures Depth(Next(s, e), x) == Account(Next(s, e), x) {
      AccountStep(s, e, x);
    }
  }

  // ----- whole runs -----

  ghost predicate Possible(s: Pool, es: seq<Step>)
    decreases es
  {
    es == [] || (Enabled(s, es[0]) && Possible(Next(s, es[0]), es[1..]))
  }

  function Run(s: Pool, es: seq<Step>): Pool
    requires Possible(s, es)
    decreases es
  {
    if es == [] then s else Run(Next(s, es[0]), es[1..])
  }

  /** Reached from a fresh pool by some interleaving. */
  ghost predicate Reachable(s: Pool) {
    exists threshold, dispatchers, workers, es ::
      && Possible(Start(threshold, dispatchers, workers), es)
      && Run(Start(threshold, dispatchers, workers), es) == s
  }

  lemma {:induction false} RunKeeps(s: Pool, es: seq<Step>)
    requires Inv(s) && Possible(s, es)
    ensures Inv(Run(s, es))
    decreases es
  {
    if es == [] {
    } else {
      StepKeeps(s, es[0]);
      RunKeeps(Next(s, es[0]), es[1..]);
    }
  }

  lemma StartOk(threshold: nat, dispatchers: nat, workers: nat)
    ensures Inv(Start(threshold, dispatchers, workers))
  {
    var s := Start(threshold, dispatchers, workers);
    forall x ensures Depth(s, x) == Account(s, x) {
      CountNone(s.dispatchers, Entering(x));
      CountNone(s.queue, Queued(x));
      CountNone(s.workers, Working(x));
    }
  }

  lemma ReachableInv(s: Pool)
    requires Reachable(s)
    ensures Inv(s)
  {
    hide Inv;
    var threshold, dispatchers, workers, es :|
      && Possible(Start(threshold, dispatchers, workers), es)
      && Run(Start(threshold, dispatchers, workers), es) == s;
    StartOk(threshold, dispatchers, workers);
    RunKeeps(Start(threshold, dispatchers, workers), es);
  }

  /**
   The depth counts exactly the senders between increment and send, the queued tasks and the workers not yet
   past the decrement, so it never goes below zero.
   */
  lemma DepthIsExact(s: Pool, x: EntryId)
    requires Reachable(s)
    ensures Depth(s, x) == Count(s.dispatchers, Entering(x)) + Count(s.queue, Queued(x)) + Count(s.workers, Working(x))
    ensures Depth(s, x) >= 0
  {
    ReachableInv(s);
  }

  function Drains(es: seq<Step>): nat {
    if es == [] then 0 else One(es[0].Drain?) + Drains(es[1..])
  }

  /** The ids of the tasks that came in by a drain. */
  function DrainedIds(es: seq<Step>): set<nat> {
    set e | e in es && e.Drain? :: e.task.id
  }

  function Drained(x: EntryId, ids: set<nat>): Task -> bool {
    (t: Task) => t.entry == x && t.id in ids
  }

  function Undrained(x: EntryId, ids: set<nat>): Task -> bool {
    (t: Task) => t.entry == x && t.id !in ids
  }

  lemma {:induction false} PressureBounded(s: Pool, es: seq<Step>, x: EntryId, drained: nat)
    requires Inv(s) && Possible(s, es) && Pressure(s, x) <= Limit(s) + drained
    ensures Pressure(Run(s, es), x) <= Limit(s) + drained + Drains(es)
    decreases es
  {
    if es == [] {
    } else {
      hide Next, Enabled, Pressure, Limit, Depth, One;
      PressureStep(s, es[0], x);
      LimitStands(s, es[0]);
      StepKeeps(s, es[0]);
      if es[0].Check? && Admits(s, es[0]) {
        InvDepth(s, es[0].task.entry);
        CheckPressure(s, es[0]);
      }
      OneDrain(es[0]);
      PressureBounded(Next(s, es[0]), es[1..], x, drained + One(es[0].Drain?));
    }
  }

  lemma OneDrain(e: Step)
    ensures One(e.Drain?) == if e.Drain? then 1 else 0
  {
  }

  /** Of the tasks that were not drained there are never more in the pool than the limit. */
  lemma {:induction false} UndrainedBounded(s: Pool, es: seq<Step>, x: EntryId, ids: set<nat>)
    requires Inv(s) && Possible(s, es) && Holding(s, Undrained(x, ids)) <= Limit(s)
    ensures Limit(Run(s, es)) == Limit(s)
    ensures Holding(Run(s, es), Undrained(x, ids + DrainedIds(es))) <= Limit(s)
    decreases es
  {
    if es == [] {
      assert ids + DrainedIds(es) == ids;
    } else {
      var e, s' := es[0], Next(s, es[0]);
      var more := ids + DrainedIds([e]);
      assert ids + DrainedIds(es) == more + DrainedIds(es[1..]) by {
        assert es == [e] + es[1..];
      }
      hide Next, Enabled, Limit, Holding, DrainedIds;
      StepKeeps(s, e);
      LimitStands(s, e);
      UndrainedStep(s, e, x, ids);
      UndrainedBounded(s', es[1..], x, more);
    }
  }

  lemma UndrainedStep(s: Pool, e: Step, x: EntryId, ids: set<nat>)
    requires Inv(s) && Enabled(s, e) && Inv(Next(s, e)) && Holding(s, Undrained(x, ids)) <= Limit(s)
    ensures Holding(Next(s, e), Undrained(x, ids + DrainedIds([e]))) <= Limit(s)
  {
    var s', more := Next(s, e), ids + DrainedIds([e]);
    assert e.Drain? ==> e.task.id in DrainedIds([e]) by { assert e in [e]; }
    hide LockOk, ExitOk, TasksOk, Enabled, Next, Holding, Pressure, Account, Depth, Limit, DrainedIds;
    HoldingLess(s, x, ids, more);
    HoldingStep(s, e, Undrained(x, more));
    if e.Check? && Admits(s, e) && e.task.entry == x {
      InvDepth(s, x);
      CheckPressure(s, e);
      PressureIsHolding(s', x);
      HoldingSplit(s', Drained(x, more), Undrained(x, more), Queued(x));
    }
  }

  lemma HoldingLess(s: Pool, x: EntryId, ids: set<nat>, more: set<nat>)
    requires ids <= more
    ensures Holding(s, Undrained(x, more)) <= Holding(s, Undrained(x, ids))
  {
    HoldingSplit(s, Undrained(x, more), Drained(x, more - ids), Undrained(x, ids));
  }

  /**
   Backpressure is soft: each dispatcher and each worker can push the depth one past what the check allows, and
   each drained event goes on top for as long as it is in the pool. Without drains a threshold of zero keeps
   the depth at zero.
   */
  lemma DepthIsBounded(threshold: nat, dispatchers: nat, workers: nat, es: seq<Step>, x: EntryId)
    requires Possible(Start(threshold, dispatchers, workers), es)
    ensures var s := Run(Start(threshold, dispatchers, workers), es);
            var limit := if threshold == 0 then 0 else threshold - 1 + dispatchers + workers;
            && Depth(s, x) <= limit + Holding(s, Drained(x, DrainedIds(es)))
            && Depth(s, x) <= limit + Drains(es)
  {
    var s := Start(threshold, dispatchers, workers);
    StartOk(threshold, dispatchers, workers);
    CountNone(s.dispatchers, Passed(x));
    CountNone(s.workers, Retrying(x));
    PressureBounded(s, es, x, 0);
    PressureIsHolding(s, x);
    HoldingSplit(s, Drained(x, {}), Undrained(x, {}), Queued(x));
    UndrainedBounded(s, es, x, {});
    var t, ids := Run(s, es), DrainedIds(es);
    assert {} + ids == ids;
    hide Inv, Run, Possible, Holding;
    RunKeeps(s, es);
    InvDepth(t, x);
    PressureIsHolding(t, x);
    HoldingSplit(t, Drained(x, ids), Undrained(x, ids), Queued(x));
  }

  lemma InvDepth(s: Pool, x: EntryId)
    requires Inv(s)
    ensures Depth(s, x) == Account(s, x) && Depth(s, x) >= 0
  {
  }

  /** Every accepted task is waiting, at one worker, or done: nothing is lost and nothing runs a third time. */
  lemma OnceOrTwice(s: Pool, t: Task)
    requires Reachable(s) && t in s.invoked
    ensures |s.invoked[t]| <= 2
    ensures |s.invoked[t]| == 2 ==> s.invoked[t][0] == RetryRequested
    ensures t in s.queue || AtAWorker(s, t) || Done(s.invoked[t])
    ensures t in s.queue ==> s.invoked[t] == [] && !AtAWorker(s, t)
  {
    ReachableInv(s);
    if AtAWorker(s, t) {
      var w :| w in s.workers && Busy(w) && w.task == t;
      var i :| 0 <= i < |s.workers| && s.workers[i] == w;
      assert WorkerTells(s, i);
    }
  }

  /** When every worker is gone, each accepted task has been seen through, and no subscriber has any depth left. */
  lemma ShutdownLosesNothing(s: Pool)
    requires Reachable(s) && forall w <- s.workers :: w == Exited
    ensures forall t <- s.invoked.Keys :: Done(s.invoked[t])
    ensures !s.open ==> forall x :: Depth(s, x) == 0
  {
    ReachableInv(s);
    assert s.queue == [] by {
      if s.workers != [] { assert s.workers[0] in s.workers; }
    }
    if !s.open {
      forall x ensures Depth(s, x) == 0 {
        CountNone(s.dispatchers, Entering(x));
        CountNone(s.workers, Working(x));
      }
    }
  }

  /** A pool without workers accepts nothing. */
  lemma {:induction false} NoWorkersNoTasks(s: Pool, es: seq<Step>)
    requires s.workers == [] && s.invoked == map[] && Possible(s, es)
    ensures Run(s, es).invoked == map[] && Run(s, es).workers == []
    decreases es
  {
    if es == [] {
    } else {
      NoWorkersNoTasks(Next(s, es[0]), es[1..]);
    }
  }

  // ----- shutdown ends -----

  function Weight(w: Worker): nat {
    match w
    case Exited => 0
    case Idle => 1
    case Returned(_, retry, _) => if retry then 2 else 5
    case Running(_, retry) => if retry then 3 else 6
    case BackingOff(_) => 4
  }

  function TotalWeight(ws: seq<Worker>): nat {
    if ws == [] then 0 else Weight(ws[0]) + TotalWeight(ws[1..])
  }

  lemma {:induction false} WeightUpdate(ws: seq<Worker>, i: nat, w: Worker)
    requires i < |ws|
    ensures TotalWeight(ws[i := w]) == TotalWeight(ws) - Weight(ws[i]) + Weight(w)
  {
    if i == 0 {
      assert ws[0 := w][1..] == ws[1..];
    } else {
      assert ws[i := w][1..] == ws[1..][i - 1 := w];
      WeightUpdate(ws[1..], i - 1, w);
    }
  }

  /** The worker steps still to come once the channel is closed. */
  function Remaining(s: Pool): nat {
    6 * |s.queue| + TotalWeight(s.workers)
  }

  /** Once closed, every worker step uses up remaining work and no other step adds any. */
  lemma ClosedWindsDown(s: Pool, e: Step)
    requires LockOk(s) && Enabled(s, e) && !s.open
    ensures !Next(s, e).open
    ensures ByWorker(e) ==> Remaining(Next(s, e)) < Remaining(s)
    ensures !ByWorker(e) ==> Remaining(Next(s, e)) == Remaining(s)
  {
    hide TotalWeight;
    if ByWorker(e) { WeightUpdate(s.workers, e.w, Next(s, e).workers[e.w]); }
  }

  /** Nor does it get stuck: while a worker is alive, that worker can take a step. So joining them returns. */
  lemma ClosedIsNeverStuck(s: Pool, w: nat, result: CallbackResult)
    requires Reachable(s) && !s.open && w < |s.workers| && s.workers[w] != Exited
    ensures exists e :: ByWorker(e) && e.w == w && Enabled(s, e)
  {
    ReachableInv(s);
    match s.workers[w]
    case Idle =>
      if s.queue == [] { assert Enabled(s, Exit(w)); } else { assert Enabled(s, Take(w)); }
    case Running(_, _) =>
      assert WorkerTells(s, w);
      assert Enabled(s, Invoke(w, result));
    case Returned(_, _, _) => assert Enabled(s, Settle(w));
    case BackingOff(_) => assert Enabled(s, Rearm(w));
  }
}
