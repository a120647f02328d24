/**
 The subscription dispatch pool as a step system. Dispatching threads check a subscriber's queue depth and
 enqueue under the sender lock; workers share one channel, invoke the callback, and retry once on request.
 Each step is one atomic access: a load, a fetch_add, a fetch_sub, a send, a receive, a callback.
 */
module Dispatch {
  datatype EntryId = EntryId(value: nat)

  datatype Task = Task(entry: EntryId, id: nat)

  datatype CallbackResult = Success | RetryRequested | UnrecoverableError

  /** Where a dispatching thread is. `Sending` and `Undoing` hold the sender lock. */
  datatype Dispatcher = Away | Checked(task: Task) | Sending(task: Task) | Undoing(task: Task)

  /** Where a worker is. */
  datatype Worker =
    | Idle
    | Running(task: Task, retry: bool)
    | Returned(task: Task, retry: bool, result: CallbackResult)
    | BackingOff(task: Task)
    | Exited

  datatype Pool = Pool(
    threshold: nat,
    open: bool,
    depth: map<EntryId, int>,
    dispatchers: seq<Dispatcher>,
    queue: seq<Task>,
    workers: seq<Worker>,
    used: set<nat>,
    invoked: map<Task, seq<CallbackResult>>)

  datatype Step =
    | Check(d: nat, task: Task)
    | Drain(d: nat, task: Task)
    | Enter(d: nat)
    | Send(d: nat)
    | Undo(d: nat)
    | Close
    | Take(w: nat)
    | Invoke(w: nat, result: CallbackResult)
    | Settle(w: nat)
    | Rearm(w: nat)
    | Exit(w: nat)

  function Start(threshold: nat, dispatchers: nat, workers: nat): Pool {
    Pool(threshold, true, map[], seq(dispatchers, _ => Away), [], seq(workers, _ => Idle), {}, map[])
  }

  function Depth(s: Pool, e: EntryId): int {
    if e in s.depth then s.depth[e] else 0
  }

  function Bump(s: Pool, e: EntryId, amount: int): map<EntryId, int> {
    s.depth[e := Depth(s, e) + amount]
  }

  predicate Unlocked(s: Pool) {
    forall d <- s.dispatchers :: !d.Sending? && !d.Undoing?
  }

  /** The receiver lives as long as some worker does. */
  predicate ReceiverAlive(s: Pool) {
    exists w <- s.workers :: w != Exited
  }

  predicate At(s: Pool, d: nat) {
    d < |s.dispatchers|
  }

  predicate AtWorker(s: Pool, w: nat) {
    w < |s.workers|
  }

  /** Every match makes a task of its own. Draining a region enqueues the dying event without a look at the depth. */
  predicate Enabled(s: Pool, e: Step) {
    match e
    case Check(d, task) => At(s, d) && s.dispatchers[d] == Away && task.id !in s.used
    case Drain(d, task) => At(s, d) && s.dispatchers[d] == Away && task.id !in s.used
    case Enter(d) => At(s, d) && s.dispatchers[d].Checked? && Unlocked(s)
    case Send(d) => At(s, d) && s.dispatchers[d].Sending?
    case Undo(d) => At(s, d) && s.dispatchers[d].Undoing?
    case Close => Unlocked(s)
    case Take(w) => AtWorker(s, w) && s.workers[w] == Idle && s.queue != []
    case Invoke(w, _) => AtWorker(s, w) && s.workers[w].Running? && s.workers[w].task in s.invoked
    case Settle(w) => AtWorker(s, w) && s.workers[w].Returned?
    case Rearm(w) => AtWorker(s, w) && s.workers[w].BackingOff?
    case Exit(w) => AtWorker(s, w) && s.workers[w] == Idle && s.queue == [] && !s.open
  }

  /** After the callback: a first request for a retry backs off, anything else is done. */
  function Settled(w: Worker): Worker
    requires w.Returned?
  {
    if w.result == RetryRequested && !w.retry then BackingOff(w.task) else Idle
  }

  function Next(s: Pool, e: Step): Pool
    requires Enabled(s, e)
  {
    match e
    case Check(d, task) =>
      if Depth(s, task.entry) >= s.threshold then s
      else s.(dispatchers := s.dispatchers[d := Checked(task)], used := s.used + {task.id})
    case Drain(d, task) =>
      s.(dispatchers := s.dispatchers[d := Checked(task)], used := s.used + {task.id})
    case Enter(d) =>
      var task := s.dispatchers[d].task;
      if !s.open then s.(dispatchers := s.dispatchers[d := Away])
      else s.(depth := Bump(s, task.entry, 1), dispatchers := s.dispatchers[d := Sending(task)])
    case Send(d) =>
      var task := s.dispatchers[d].task;
      if ReceiverAlive(s)
      then s.(dispatchers := s.dispatchers[d := Away], queue := s.queue + [task], invoked := s.invoked[task := []])
      else s.(dispatchers := s.dispatchers[d := Undoing(task)])
    case Undo(d) =>
      s.(depth := Bump(s, s.dispatchers[d].task.entry, -1), dispatchers := s.dispatchers[d := Away])
    case Close => s.(open := false)
    case Take(w) => s.(queue := s.queue[1..], workers := s.workers[w := Running(s.queue[0], false)])
    case Invoke(w, result) =>
      var r := s.workers[w];
      s.(workers := s.workers[w := Returned(r.task, r.retry, result)],
         invoked := s.invoked[r.task := s.invoked[r.task] + [result]])
    case Settle(w) =>
      s.(depth := Bump(s, s.workers[w].task.entry, -1), workers := s.workers[w := Settled(s.workers[w])])
    case Rearm(w) =>
      var task := s.workers[w].task;
      s.(depth := Bump(s, task.entry, 1), workers := s.workers[w := Running(task, true)])
    case Exit(w) => s.(workers := s.workers[w := Exited])
  }

  // ----- counting -----

  function One(b: bool): nat {
    if b then 1 else 0
  }

  function Count<T>(xs: seq<T>, p: T -> bool): (n: nat)
    ensures n <= |xs|
  {
    if xs == [] then 0 else One(p(xs[0])) + Count(xs[1..], p)
  }

  lemma {:induction false} CountUpdate<T>(xs: seq<T>, i: nat, x: T, p: T -> bool)
    requires i < |xs|
    ensures Count(xs[i := x], p) == Count(xs, p) - One(p(xs[i])) + One(p(x))
  {
    if i == 0 {
      assert xs[0 := x][1..] == xs[1..];
    } else {
      assert xs[i := x][1..] == xs[1..][i - 1 := x];
      CountUpdate(xs[1..], i - 1, x, p);
    }
  }

  lemma {:induction false} CountSnoc<T>(xs: seq<T>, x: T, p: T -> bool)
    ensures Count(xs + [x], p) == Count(xs, p) + One(p(x))
  {
    if xs == [] {
      assert (xs + [x])[1..] == [];
    } else {
      assert (xs + [x])[1..] == xs[1..] + [x];
      CountSnoc(xs[1..], x, p);
    }
  }

  lemma {:induction false} CountNone<T>(xs: seq<T>, p: T -> bool)
    requires forall x <- xs :: !p(x)
    ensures Count(xs, p) == 0
  {
    if xs != [] { CountNone(xs[1..], p); }
  }

  // ----- the queue-depth account -----

  /** Has added to the depth, and not yet handed the task over. */
  function Entering(e: EntryId): Dispatcher -> bool {
    (d: Dispatcher) => (d.Sending? || d.Undoing?) && d.task.entry == e
  }

  /** Has seen a depth below the threshold, or did not look, and has not yet added to it. */
  function Passed(e: EntryId): Dispatcher -> bool {
    (d: Dispatcher) => d.Checked? && d.task.entry == e
  }

  function Queued(e: EntryId): Task -> bool {
    (t: Task) => t.entry == e
  }

  /** Has not yet passed the decrement. */
  function Working(e: EntryId): Worker -> bool {
    (w: Worker) => (w.Running? || w.Returned?) && w.task.entry == e
  }

  /** Will add to the depth again for a retry. */
  function Retrying(e: EntryId): Worker -> bool {
    (w: Worker) => w.BackingOff? && w.task.entry == e
  }

  function Account(s: Pool, e: EntryId): nat {
    Count(s.dispatchers, Entering(e)) + Count(s.queue, Queued(e)) + Count(s.workers, Working(e))
  }

  /** The depth and all that is committed to be added to it. */
  function Pressure(s: Pool, e: EntryId): int {
    Depth(s, e) + Count(s.dispatchers, Passed(e)) + Count(s.workers, Retrying(e))
  }

  function Limit(s: Pool): nat {
    if s.threshold == 0 then 0 else s.threshold - 1 + |s.dispatchers| + |s.workers|
  }

  predicate ByWorker(e: Step) {
    e.Take? || e.Invoke? || e.Settle? || e.Rearm? || e.Exit?
  }

  lemma CountHead<T>(xs: seq<T>, p: T -> bool)
    requires xs != []
    ensures Count(xs, p) == One(p(xs[0])) + Count(xs[1..], p)
  {
  }

  lemma WorkerAccount(s: Pool, e: Step, x: EntryId)
    requires Enabled(s, e) && ByWorker(e) && Depth(s, x) == Account(s, x)
    ensures Depth(Next(s, e), x) == Account(Next(s, e), x)
  {
    hide Count;
    CountUpdate(s.workers, e.w, Next(s, e).workers[e.w], Working(x));
    if e.Take? { CountHead(s.queue, Queued(x)); }
  }

  lemma DispatcherAccount(s: Pool, e: Step, x: EntryId)
    requires Enabled(s, e) && !ByWorker(e) && Depth(s, x) == Account(s, x)
    ensures Depth(Next(s, e), x) == Account(Next(s, e), x)
  {
    hide Count, ReceiverAlive;
    if e != Close {
      CountUpdate(s.dispatchers, e.d, Next(s, e).dispatchers[e.d], Entering(x));
      if e.Send? { CountSnoc(s.queue, s.dispatchers[e.d].task, Queued(x)); }
      if e.Check? || e.Drain? { CountUpdate(s.dispatchers, e.d, Checked(e.task), Entering(x)); }
    }
  }

  lemma AccountStep(s: Pool, e: Step, x: EntryId)
    requires Enabled(s, e) && Depth(s, x) == Account(s, x)
    ensures Depth(Next(s, e), x) == Account(Next(s, e), x)
  {
    hide *;
    if ByWorker(e) { WorkerAccount(s, e, x); } else { DispatcherAccount(s, e, x); }
  }

  /** The step lets a task in: a drain, or a check that saw the depth below the threshold. */
  predicate Admits(s: Pool, e: Step) {
    e.Drain? || (e.Check? && Depth(s, e.task.entry) < s.threshold)
  }

  lemma WorkerPressure(s: Pool, e: Step, x: EntryId)
    requires Enabled(s, e) && ByWorker(e)
    ensures Pressure(Next(s, e), x) <= Pressure(s, x)
  {
    hide Count;
    CountUpdate(s.workers, e.w, Next(s, e).workers[e.w], Retrying(x));
  }

  lemma DispatcherPressure(s: Pool, e: Step, x: EntryId)
    requires Enabled(s, e) && !ByWorker(e)
    ensures Pressure(Next(s, e), x) <= Pressure(s, x) + One(Admits(s, e) && e.task.entry == x)
    ensures Admits(s, e) && e.task.entry == x ==> Pressure(Next(s, e), x) == Pressure(s, x) + 1
  {
    hide Count, ReceiverAlive;
    if e != Close { CountUpdate(s.dispatchers, e.d, Next(s, e).dispatchers[e.d], Passed(x)); }
  }

  /**
   The pressure of a subscriber rises, and then by one, exactly when one of its tasks is let in: by a check that
   saw the depth below the threshold, or by a drain.
   */
  lemma PressureStep(s: Pool, e: Step, x: EntryId)
    requires Enabled(s, e)
    ensures Pressure(Next(s, e), x) > Pressure(s, x) <==> Admits(s, e) && e.task.entry == x
    ensures Pressure(Next(s, e), x) <= Pressure(s, x) + 1
  {
    hide Enabled, Next, Depth, Pressure;
    if ByWorker(e) { WorkerPressure(s, e, x); } else { DispatcherPressure(s, e, x); }
  }

  /** After a check has passed, the depth was below the threshold, and each thread has one task to add at most. */
  lemma CheckPressure(s: Pool, e: Step)
    requires Enabled(s, e) && e.Check? && Admits(s, e) && Depth(s, e.task.entry) >= 0
    ensures Pressure(Next(s, e), e.task.entry) <= Limit(s)
  {
    hide Count;
  }

  lemma LimitStands(s: Pool, e: Step)
    requires Enabled(s, e)
    ensures Limit(Next(s, e)) == Limit(s)
  {
  }

  // ----- the tasks in the pool -----

  function Carries(p: Task -> bool): Dispatcher -> bool {
    (d: Dispatcher) => (d.Checked? || d.Sending? || d.Undoing?) && p(d.task)
  }

  function Handles(p: Task -> bool): Worker -> bool {
    (w: Worker) => (w.Running? || w.Returned? || w.BackingOff?) && p(w.task)
  }

  /** The tasks of a kind anywhere between the check and the end. */
  function Holding(s: Pool, p: Task -> bool): nat {
    Count(s.dispatchers, Carries(p)) + Count(s.queue, p) + Count(s.workers, Handles(p))
  }

  lemma {:induction false} CountSplit<T>(xs: seq<T>, p: T -> bool, q: T -> bool, r: T -> bool)
    requires forall x :: r(x) <==> p(x) || q(x)
    requires forall x :: !(p(x) && q(x))
    ensures Count(xs, r) == Count(xs, p) + Count(xs, q)
  {
    if xs != [] { CountSplit(xs[1..], p, q, r); }
  }

  /** The pressure is the number of the subscriber's tasks in the pool. */
  lemma PressureIsHolding(s: Pool, x: EntryId)
    requires Depth(s, x) == Account(s, x)
    ensures Pressure(s, x) == Holding(s, Queued(x))
  {
    CountSplit(s.dispatchers, Entering(x), Passed(x), Carries(Queued(x)));
    CountSplit(s.workers, Working(x), Retrying(x), Handles(Queued(x)));
  }

  lemma HoldingSplit(s: Pool, p: Task -> bool, q: Task -> bool, r: Task -> bool)
    requires forall t :: r(t) <==> p(t) || q(t)
    requires forall t :: !(p(t) && q(t))
    ensures Holding(s, r) == Holding(s, p) + Holding(s, q)
  {
    CountSplit(s.dispatchers, Carries(p), Carries(q), Carries(r));
    CountSplit(s.queue, p, q, r);
    CountSplit(s.workers, Handles(p), Handles(q), Handles(r));
  }

  lemma WorkerHolding(s: Pool, e: Step, p: Task -> bool)
    requires Enabled(s, e) && ByWorker(e)
    ensures Holding(Next(s, e), p) <= Holding(s, p)
  {
    hide Count;
    CountUpdate(s.workers, e.w, Next(s, e).workers[e.w], Handles(p));
    if e.Take? { CountHead(s.queue, p); }
  }

  lemma DispatcherHolding(s: Pool, e: Step, p: Task -> bool)
    requires Enabled(s, e) && !ByWorker(e)
    ensures Holding(Next(s, e), p) <= Holding(s, p) + One(Admits(s, e) && p(e.task))
  {
    hide Count, ReceiverAlive;
    if e != Close {
      CountUpdate(s.dispatchers, e.d, Next(s, e).dispatchers[e.d], Carries(p));
      if e.Send? { CountSnoc(s.queue, s.dispatchers[e.d].task, p); }
    }
  }

  /** Of a kind of tasks there are more in the pool only when one is let in. */
  lemma HoldingStep(s: Pool, e: Step, p: Task -> bool)
    requires Enabled(s, e)
    ensures Holding(Next(s, e), p) <= Holding(s, p) + One(Admits(s, e) && p(e.task))
  {
    hide Enabled, Next, Depth, Holding;
    if ByWorker(e) { WorkerHolding(s, e, p); } else { DispatcherHolding(s, e, p); }
  }
}
