/** The protocol of ThreadPool.h as a labelled transition system. A step is one critical
    section, one notification, one wakeup, the start of the destructor, or one join.

    A task is known by its ticket, the number of tasks submitted before it. */
module PoolProtocol {

  type Ticket = nat

  /** Ready: outside the wait set and about to lock the mutex and evaluate the wait predicate. */
  datatype Worker = Asleep | Ready | Running(task: Ticket) | Exited

  datatype State = State(
    queue: seq<Ticket>,
    stop: bool,
    announced: bool,          // the destructor has sent notify_all
    joined: nat,              // joins that have returned
    workers: seq<Worker>,
    pending: nat,             // notify_one calls still to be made: they follow the unlock
    submitted: seq<Ticket>,   // history: in order of enqueue
    taken: seq<Ticket>,       // history: in order of removal from the queue
    done: seq<Ticket>         // history: in order of completion
  )

  datatype Label =
    | Submit                  // enqueue, up to the unlock
    | Reject                  // enqueue on a stopped pool throws
    | NotifyNone              // notify_one with nobody waiting
    | NotifyOne(w: nat)
    | Spurious(w: nat)        // a wakeup nobody asked for
    | Sleep(w: nat)
    | Take(w: nat)
    | Finish(w: nat)
    | Exit(w: nat)
    | SetStop
    | NotifyAll
    | Join

  function Init(threads: nat): State {
    State([], false, false, 0, seq(threads, i => Ready), 0, [], [], [])
  }

  predicate Is(s: State, w: nat, k: Worker) {
    w < |s.workers| && s.workers[w] == k
  }

  predicate Enabled(s: State, l: Label) {
    match l
    case Submit => !s.stop
    case Reject => s.stop
    case NotifyNone => s.pending > 0 && Asleep !in s.workers
    case NotifyOne(w) => s.pending > 0 && Is(s, w, Asleep)
    case Spurious(w) => Is(s, w, Asleep)
    case Sleep(w) => Is(s, w, Ready) && !s.stop && s.queue == []
    case Take(w) => Is(s, w, Ready) && s.queue != []
    case Finish(w) => w < |s.workers| && s.workers[w].Running?
    case Exit(w) => Is(s, w, Ready) && s.stop && s.queue == []
    case SetStop => !s.stop
    case NotifyAll => s.stop && !s.announced
    case Join => s.announced && Is(s, s.joined, Exited)
  }

  function WakeAll(ws: seq<Worker>): seq<Worker> {
    seq(|ws|, i requires 0 <= i < |ws| => if ws[i] == Asleep then Ready else ws[i])
  }

  function Apply(s: State, l: Label): State
    requires Enabled(s, l)
  {
    match l
    case Submit =>
      s.(queue := s.queue + [|s.submitted|], submitted := s.submitted + [|s.submitted|], pending := s.pending + 1)
    case Reject => s
    case NotifyNone => s.(pending := s.pending - 1)
    case NotifyOne(w) => s.(pending := s.pending - 1, workers := s.workers[w := Ready])
    case Spurious(w) => s.(workers := s.workers[w := Ready])
    case Sleep(w) => s.(workers := s.workers[w := Asleep])
    case Take(w) =>
      s.(queue := s.queue[1..], taken := s.taken + [s.queue[0]], workers := s.workers[w := Running(s.queue[0])])
    case Finish(w) => s.(done := s.done + [s.workers[w].task], workers := s.workers[w := Ready])
    case Exit(w) => s.(workers := s.workers[w := Exited])
    case SetStop => s.(stop := true)
    case NotifyAll => s.(announced := true, workers := WakeAll(s.workers))
    case Join => s.(joined := s.joined + 1)
  }

  /** The steps of the pool itself: all but the calls of enqueue and of the destructor. */
  predicate PoolStep(l: Label) {
    !l.Submit? && !l.Reject? && !l.SetStop?
  }

  /*---------- Runs ----------*/

  predicate Legal(s: State, run: seq<Label>)
    decreases |run|
  {
    run != [] ==> Enabled(s, run[0]) && Legal(Apply(s, run[0]), run[1..])
  }

  function After(s: State, run: seq<Label>): State
    requires Legal(s, run)
    decreases |run|
  {
    if run == [] then s else After(Apply(s, run[0]), run[1..])
  }

  /*---------- The invariant ----------*/

  /** Tasks leave the queue in the order in which they entered it. */
  ghost predicate InOrder(s: State) {
    && s.submitted == s.taken + s.queue
    && forall i :: 0 <= i < |s.submitted| ==> s.submitted[i] == i
  }

  /** A task that has left the queue is either running on one worker or done, and only once. */
  ghost predicate ExactlyOnce(s: State) {
    forall t: Ticket :: multiset(s.taken)[t] == multiset(s.done)[t] + multiset(s.workers)[Running(t)]
  }

  /** While somebody sleeps, every queued task has a wakeup of its own under way:
      a worker about to look at the queue, or a notification about to be sent. */
  ghost predicate NoLostWakeup(s: State) {
    Asleep in s.workers ==> |s.queue| <= multiset(s.workers)[Ready] + s.pending
  }

  /** Nobody exits before the queue is drained; nobody sleeps after notify_all;
      a join returns only for a worker that has exited. */
  ghost predicate OrderlyShutdown(s: State) {
    && (Exited in s.workers ==> s.stop && s.queue == [])
    && (s.announced ==> s.stop && Asleep !in s.workers)
    && (s.joined > 0 ==> s.announced)
    && s.joined <= |s.workers|
    && forall i :: 0 <= i < s.joined ==> s.workers[i] == Exited
  }

  ghost predicate Inv(s: State) {
    InOrder(s) && ExactlyOnce(s) && NoLostWakeup(s) && OrderlyShutdown(s)
  }

  lemma {:induction false} WakeAllCounts(ws: seq<Worker>, k: Worker)
    ensures multiset(WakeAll(ws))[k]
         == if k == Asleep then 0 else if k == Ready then multiset(ws)[Ready] + multiset(ws)[Asleep] else multiset(ws)[k]
  {
    if ws != [] {
      var n := |ws| - 1;
      WakeAllCounts(ws[..n], k);
      assert ws == ws[..n] + [ws[n]];
      assert WakeAll(ws) == WakeAll(ws[..n]) + WakeAll([ws[n]]);
      assert WakeAll([ws[n]]) == [if ws[n] == Asleep then Ready else ws[n]];
    }
  }

  lemma {:induction false} ReplaceCounts(ws: seq<Worker>, w: nat, x: Worker, k: Worker)
    requires w < |ws|
    ensures multiset(ws[w := x])[k] == multiset(ws)[k] - (if ws[w] == k then 1 else 0) + (if x == k then 1 else 0)
  {
    assert ws[w] in multiset(ws);
  }

  /** The worker that a step moves, with its new state. */
  function Moved(s: State, l: Label): (m: (nat, Worker))
    requires Enabled(s, l) && (l.NotifyOne? || l.Spurious? || l.Sleep? || l.Take? || l.Finish? || l.Exit?)
    ensures m.0 < |s.workers| && Apply(s, l).workers == s.workers[m.0 := m.1]
  {
    match l
    case Sleep(w) => (w, Asleep)
    case Take(w) => (w, Running(s.queue[0]))
    case Exit(w) => (w, Exited)
    case NotifyOne(w) => (w, Ready)
    case Spurious(w) => (w, Ready)
    case Finish(w) => (w, Ready)
  }

  /** How a step changes the number of workers in state k. */
  lemma {:induction false} StepCounts(s: State, l: Label, k: Worker)
    requires Enabled(s, l)
    ensures multiset(Apply(s, l).workers)[k] ==
      if l.NotifyAll? then
        if k == Asleep then 0 else multiset(s.workers)[k] + if k == Ready then multiset(s.workers)[Asleep] else 0
      else if l.Submit? || l.Reject? || l.NotifyNone? || l.SetStop? || l.Join? then multiset(s.workers)[k]
      else var (w, x) := Moved(s, l);
        multiset(s.workers)[k] - (if s.workers[w] == k then 1 else 0) + (if x == k then 1 else 0)
  {
    if l.NotifyAll? {
      WakeAllCounts(s.workers, k);
    } else if !(l.Submit? || l.Reject? || l.NotifyNone? || l.SetStop? || l.Join?) {
      var (w, x) := Moved(s, l);
      ReplaceCounts(s.workers, w, x, k);
    }
  }

  lemma {:induction false} InitInv(threads: nat)
    ensures Inv(Init(threads))
  {
    var ws := Init(threads).workers;
    forall t: Ticket ensures multiset(ws)[Running(t)] == 0 {
      assert Running(t) !in ws;
    }
  }

  lemma {:induction false} StepInOrder(s: State, l: Label)
    requires Inv(s) && Enabled(s, l)
    ensures InOrder(Apply(s, l))
  {
    if l.Take? {
      assert s.taken + s.queue == (s.taken + [s.queue[0]]) + s.queue[1..];
    }
  }

  lemma {:induction false} StepExactlyOnce(s: State, l: Label)
    requires ExactlyOnce(s) && Enabled(s, l)
    ensures ExactlyOnce(Apply(s, l))
  {
    var s' := Apply(s, l);
    forall t: Ticket
      ensures multiset(s'.taken)[t] == multiset(s'.done)[t] + multiset(s'.workers)[Running(t)]
    {
      StepCounts(s, l, Running(t));
    }
  }

  lemma {:induction false} StepNoLostWakeup(s: State, l: Label)
    requires NoLostWakeup(s) && OrderlyShutdown(s) && Enabled(s, l)
    ensures NoLostWakeup(Apply(s, l))
  {
    StepCounts(s, l, Ready);
    StepCounts(s, l, Asleep);
  }

  lemma {:induction false} StepOrderlyShutdown(s: State, l: Label)
    requires Inv(s) && Enabled(s, l)
    ensures OrderlyShutdown(Apply(s, l))
  {
    var s' := Apply(s, l);
    forall i | 0 <= i < |s'.workers| && s'.workers[i] == Exited
      ensures s'.stop && s'.queue == []
    {
      assert l.Exit? || s.workers[i] == Exited;
    }
  }

  /** Every step of every kind keeps the invariant. */
  lemma {:induction false} StepKeepsInv(s: State, l: Label)
    requires Inv(s) && Enabled(s, l)
    ensures Inv(Apply(s, l))
  {
    StepInOrder(s, l);
    StepExactlyOnce(s, l);
    StepNoLostWakeup(s, l);
    StepOrderlyShutdown(s, l);
  }

  lemma {:induction false} RunKeepsInv(s: State, run: seq<Label>)
    requires Inv(s) && Legal(s, run)
    ensures Inv(After(s, run))
    decreases |run|
  {
    if run != [] {
      StepKeepsInv(s, run[0]);
      RunKeepsInv(Apply(s, run[0]), run[1..]);
    }
  }

  /** Safety over whole runs: whatever the interleaving, from the constructor on. */
  lemma {:induction false} ReachableInv(threads: nat, run: seq<Label>)
    requires Legal(Init(threads), run)
    ensures Inv(After(Init(threads), run))
    ensures |After(Init(threads), run).workers| == threads
  {
    InitInv(threads);
    RunKeepsInv(Init(threads), run);
    RunKeepsThreads(Init(threads), run);
  }

  lemma {:induction false} RunKeepsThreads(s: State, run: seq<Label>)
    requires Legal(s, run)
    ensures |After(s, run).workers| == |s.workers|
    ensures PoolRun(run) ==> After(s, run).submitted == s.submitted
    decreases |run|
  {
    if run != [] {
      RunKeepsThreads(Apply(s, run[0]), run[1..]);
    }
  }

  /*---------- Exactly once ----------*/

  lemma {:induction false} TicketsOnce(tickets: seq<Ticket>, t: Ticket)
    requires forall i :: 0 <= i < |tickets| ==> tickets[i] == i
    ensures multiset(tickets)[t] == if t < |tickets| then 1 else 0
  {
    if tickets != [] {
      var n := |tickets| - 1;
      TicketsOnce(tickets[..n], t);
      assert tickets == tickets[..n] + [tickets[n]];
    }
  }

  /** A submitted task is in exactly one place: queued, running on one worker, or done. */
  lemma {:induction false} ExactlyOnePlace(s: State, t: Ticket)
    requires Inv(s)
    ensures multiset(s.queue)[t] + multiset(s.workers)[Running(t)] + multiset(s.done)[t]
         == if t < |s.submitted| then 1 else 0
  {
    TicketsOnce(s.submitted, t);
    assert multiset(s.submitted) == multiset(s.taken) + multiset(s.queue);
  }

  /*---------- Progress ----------*/

  /** Something is left to do: a task, a notification, or, once stopped, a join. */
  predicate Busy(s: State) {
    || s.queue != []
    || s.pending > 0
    || (exists w :: 0 <= w < |s.workers| && s.workers[w].Running?)
    || (s.stop && s.joined < |s.workers|)
  }

  /** A queued task is never forgotten: some worker is up, or a notification is still to come. */
  lemma {:induction false} QueuedMeansAwake(s: State)
    requires Inv(s) && |s.workers| > 0 && s.queue != []
    ensures s.pending > 0 || exists w :: 0 <= w < |s.workers| && (s.workers[w] == Ready || s.workers[w].Running?)
  {
    assert s.workers[0] in s.workers;
    if Asleep in s.workers && s.pending == 0 {
      assert Ready in multiset(s.workers);
    }
  }

  /** No reachable busy state is stuck, and no spurious wakeup is needed to leave it. */
  lemma {:induction false} Progress(s: State) returns (l: Label)
    requires Inv(s) && |s.workers| > 0 && Busy(s)
    ensures PoolStep(l) && !l.Spurious? && Enabled(s, l)
  {
    if w :| 0 <= w < |s.workers| && s.workers[w].Running? {
      l := Finish(w);
    } else if s.pending > 0 {
      if w :| 0 <= w < |s.workers| && s.workers[w] == Asleep {
        l := NotifyOne(w);
      } else {
        l := NotifyNone;
      }
    } else if s.queue != [] {
      if Asleep !in s.workers {
        assert s.workers[0] in s.workers;
        l := Take(0);
      } else {
        var w :| 0 <= w < |s.workers| && s.workers[w] == Ready;
        l := Take(w);
      }
    } else if !s.announced {
      l := NotifyAll;
    } else {
      assert s.workers[s.joined] in s.workers;
      l := if s.workers[s.joined] == Ready then Exit(s.joined) else Join;
    }
  }

  /** The assumption of at least one worker is needed: without workers no task is ever done. */
  lemma {:induction false} NoWorkersNoResults(s: State, run: seq<Label>)
    requires s.workers == [] && Legal(s, run)
    ensures After(s, run).done == s.done
    decreases |run|
  {
    if run != [] {
      NoWorkersNoResults(Apply(s, run[0]), run[1..]);
    }
  }

  /*---------- Termination ----------*/

  function Weight(k: Worker, asleep: nat): nat {
    match k
    case Asleep => asleep
    case Ready => 1
    case Running(_) => 2
    case Exited => 0
  }

  function Weights(ws: seq<Worker>, asleep: nat): nat {
    if ws == [] then 0 else Weights(ws[..|ws| - 1], asleep) + Weight(ws[|ws| - 1], asleep)
  }

  lemma {:induction false} ReplaceWeight(ws: seq<Worker>, w: nat, x: Worker, asleep: nat)
    requires w < |ws|
    ensures Weights(ws[w := x], asleep) == Weights(ws, asleep) - Weight(ws[w], asleep) + Weight(x, asleep)
  {
    var n := |ws| - 1;
    if w == n {
      assert ws[w := x][..n] == ws[..n];
    } else {
      assert ws[w := x][..n] == ws[..n][w := x];
      ReplaceWeight(ws[..n], w, x, asleep);
    }
  }

  lemma {:induction false} WakeAllWeight(ws: seq<Worker>)
    ensures Weights(WakeAll(ws), 2) <= Weights(ws, 2)
    ensures Weights(WakeAll(ws), 0) <= Weights(ws, 0) + |ws|
  {
    if ws != [] {
      var n := |ws| - 1;
      WakeAllWeight(ws[..n]);
      assert WakeAll(ws)[..n] == WakeAll(ws[..n]);
    }
  }

  /** Work left while the pool is open; a sleeping worker has none. */
  function Work(s: State): nat {
    2 * |s.queue| + Weights(s.workers, 0) + 2 * s.pending
    + (if s.announced then 0 else |s.workers| + 1) + if s.joined <= |s.workers| then |s.workers| - s.joined else 0
  }

  /** Work left once the pool is stopped; here a sleeping worker has still to wake up. */
  function ShutdownWork(s: State): nat {
    2 * |s.queue| + Weights(s.workers, 2) + s.pending
    + (if s.announced then 0 else 1) + if s.joined <= |s.workers| then |s.workers| - s.joined else 0
  }

  lemma {:induction false} WeightsAfter(s: State, l: Label, asleep: nat)
    requires Enabled(s, l) && (l.NotifyOne? || l.Spurious? || l.Sleep? || l.Take? || l.Finish? || l.Exit?)
    ensures var (w, x) := Moved(s, l);
      Weights(Apply(s, l).workers, asleep) == Weights(s.workers, asleep) - Weight(s.workers[w], asleep) + Weight(x, asleep)
  {
    var (w, x) := Moved(s, l);
    ReplaceWeight(s.workers, w, x, asleep);
  }

  /** Every step of the pool uses up work, except that a spurious wakeup makes one unit. */
  lemma {:induction false} StepWork(s: State, l: Label)
    requires OrderlyShutdown(s) && Enabled(s, l) && PoolStep(l)
    ensures if l.Spurious? then Work(Apply(s, l)) == Work(s) + 1 else Work(Apply(s, l)) < Work(s)
  {
    if l.NotifyAll? {
      WakeAllWeight(s.workers);
    } else if !l.NotifyNone? && !l.Join? {
      WeightsAfter(s, l, 0);
    }
  }

  /** Once stopped, every step of the pool uses up work, spurious wakeups included. */
  lemma {:induction false} StepShutdownWork(s: State, l: Label)
    requires s.stop && OrderlyShutdown(s) && Enabled(s, l) && PoolStep(l)
    ensures ShutdownWork(Apply(s, l)) < ShutdownWork(s)
    ensures Apply(s, l).stop && !l.Sleep?
  {
    if l.NotifyAll? {
      WakeAllWeight(s.workers);
    } else if !l.NotifyNone? && !l.Join? {
      WeightsAfter(s, l, 2);
    }
  }

  function Wakeups(run: seq<Label>): nat {
    if run == [] then 0 else (if run[0].Spurious? then 1 else 0) + Wakeups(run[1..])
  }

  predicate PoolRun(run: seq<Label>) {
    forall i :: 0 <= i < |run| ==> PoolStep(run[i])
  }

  /** An open pool cannot run on for ever without new tasks or spurious wakeups. */
  lemma {:induction false} RunsAreBounded(s: State, run: seq<Label>)
    requires Inv(s) && Legal(s, run) && PoolRun(run)
    ensures |run| + Work(After(s, run)) <= Work(s) + 2 * Wakeups(run)
    decreases |run|
  {
    if run != [] {
      StepKeepsInv(s, run[0]);
      StepWork(s, run[0]);
      RunsAreBounded(Apply(s, run[0]), run[1..]);
    }
  }

  /** A stopped pool cannot run on for ever at all. */
  lemma {:induction false} ShutdownIsBounded(s: State, run: seq<Label>)
    requires Inv(s) && s.stop && Legal(s, run) && PoolRun(run)
    ensures |run| + ShutdownWork(After(s, run)) <= ShutdownWork(s)
    ensures After(s, run).stop
    decreases |run|
  {
    if run != [] {
      StepKeepsInv(s, run[0]);
      StepShutdownWork(s, run[0]);
      ShutdownIsBounded(Apply(s, run[0]), run[1..]);
    }
  }

  /** When every join has returned, the queue is empty and exactly the submitted tasks are done. */
  lemma {:induction false} JoinedMeansDrained(s: State)
    requires Inv(s) && |s.workers| > 0 && s.joined == |s.workers|
    ensures s.queue == [] && s.taken == s.submitted && multiset(s.done) == multiset(s.submitted)
    ensures forall w :: 0 <= w < |s.workers| ==> s.workers[w] == Exited
  {
    assert s.workers[0] in s.workers;
    assert s.taken + s.queue == s.taken;
    forall t: Ticket ensures multiset(s.done)[t] == multiset(s.taken)[t] {
      assert Running(t) !in s.workers;
    }
  }

  /** The destructor: any run of the pool after stop that cannot be continued has drained
      the queue, finished every task once and joined every worker; it is at most
      ShutdownWork(s) steps long (ShutdownIsBounded). */
  lemma {:induction false} DestructorDrains(s: State, run: seq<Label>)
    requires Inv(s) && |s.workers| > 0 && s.stop && Legal(s, run) && PoolRun(run)
    requires forall l :: PoolStep(l) ==> !Enabled(After(s, run), l)
    ensures var end := After(s, run);
      && end.joined == |end.workers| && end.queue == []
      && multiset(end.done) == multiset(s.submitted)
  {
    RunKeepsInv(s, run);
    RunKeepsThreads(s, run);
    ShutdownIsBounded(s, run);
    var end := After(s, run);
    if Busy(end) {
      var l := Progress(end);
      assert false;
    }
    JoinedMeansDrained(end);
  }
}
