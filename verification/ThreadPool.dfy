/** ThreadPool.h as an object: its fields, its critical sections, and an arbitrary
    scheduler that interleaves them. Every method is tied to the protocol's steps. */
module ThreadPools {
  import opened PoolProtocol

  datatype Submission = Accepted(ticket: Ticket) | Stopped

  /** The futures that are set are those of the tasks done, each with what its task returns. */
  ghost predicate Results<V(!new)>(jobs: seq<() -> V>, futures: map<Ticket, V>, done: seq<Ticket>) {
    && (forall t :: t in futures <==> t in done)
    && (forall t :: t in futures ==> t < |jobs| && futures[t] == jobs[t]())
  }

  ghost predicate Consistent<V(!new)>(s: State, jobs: seq<() -> V>, futures: map<Ticket, V>) {
    Inv(s) && |jobs| == |s.submitted| && Results(jobs, futures, s.done)
  }

  lemma {:induction false} InitConsistent<V(!new)>(threads: nat)
    ensures Consistent<V>(Init(threads), [], map[])
  {
    InitInv(threads);
  }

  lemma {:induction false} SubmitConsistent<V(!new)>(s: State, jobs: seq<() -> V>, futures: map<Ticket, V>, job: () -> V)
    requires Consistent(s, jobs, futures) && !s.stop
    ensures Consistent(Apply(s, Submit), jobs + [job], futures)
  {
    StepKeepsInv(s, Submit);
  }

  lemma {:induction false} StopConsistent<V(!new)>(s: State, jobs: seq<() -> V>, futures: map<Ticket, V>)
    requires Consistent(s, jobs, futures) && !s.stop
    ensures Consistent(Apply(s, SetStop), jobs, futures)
  {
    StepKeepsInv(s, SetStop);
  }

  lemma {:induction false} RunningHasJob<V(!new)>(s: State, jobs: seq<() -> V>, futures: map<Ticket, V>, w: nat)
    requires Consistent(s, jobs, futures) && w < |s.workers| && s.workers[w].Running?
    ensures s.workers[w].task < |jobs|
  {
    assert s.workers[w] in multiset(s.workers);
    ExactlyOnePlace(s, s.workers[w].task);
  }

  /** The futures after a step: finishing a task sets its future, and nothing else does. */
  function FuturesAfter<V(!new)>(s: State, l: Label, jobs: seq<() -> V>, futures: map<Ticket, V>): map<Ticket, V>
    requires Enabled(s, l) && (l.Finish? ==> s.workers[l.w].task < |jobs|)
  {
    if l.Finish? then futures[s.workers[l.w].task := jobs[s.workers[l.w].task]()] else futures
  }

  lemma {:induction false} StepConsistent<V(!new)>(s: State, l: Label, jobs: seq<() -> V>, futures: map<Ticket, V>)
    requires Consistent(s, jobs, futures) && PoolStep(l) && Enabled(s, l)
    ensures l.Finish? ==> s.workers[l.w].task < |jobs|
    ensures Consistent(Apply(s, l), jobs, FuturesAfter(s, l, jobs, futures))
  {
    if l.Finish? {
      RunningHasJob(s, jobs, futures, l.w);
    }
    StepKeepsInv(s, l);
  }

  /** A step that the workers or the platform may take now. */
  predicate MayHappen(s: State, l: Label, wakeups: nat) {
    PoolStep(l) && Enabled(s, l) && (l.Spurious? ==> wakeups > 0)
  }

  lemma {:induction false} StepUsesWork(s: State, l: Label)
    requires Inv(s) && PoolStep(l) && Enabled(s, l)
    ensures if l.Spurious? then Work(Apply(s, l)) == Work(s) + 1 else Work(Apply(s, l)) < Work(s)
    ensures s.stop ==> ShutdownWork(Apply(s, l)) < ShutdownWork(s)
    ensures Apply(s, l).stop == s.stop && |Apply(s, l).workers| == |s.workers|
  {
    StepWork(s, l);
    if s.stop {
      StepShutdownWork(s, l);
    }
  }

  /** A run of the pool's own steps, with at most so many spurious wakeups. */
  predicate Schedule(s: State, run: seq<Label>, wakeups: nat) {
    Legal(s, run) && PoolRun(run) && Wakeups(run) <= wakeups
  }

  lemma {:induction false} ScheduleStep(s: State, run: seq<Label>, wakeups: nat)
    requires Schedule(s, run, wakeups) && run != []
    ensures MayHappen(s, run[0], wakeups)
    ensures Schedule(Apply(s, run[0]), run[1..], if run[0].Spurious? then wakeups - 1 else wakeups)
  {
  }

  /** Among the schedules is the one that leaves every worker waiting for the first task. */
  lemma {:induction false} AllMaySleep(s: State, awake: nat) returns (run: seq<Label>)
    requires !s.stop && s.queue == [] && awake <= |s.workers|
    requires forall w :: 0 <= w < awake ==> s.workers[w] == Ready
    requires forall w :: awake <= w < |s.workers| ==> s.workers[w] == Asleep
    decreases awake
    ensures Schedule(s, run, 0) && After(s, run) == s.(workers := seq(|s.workers|, w => Asleep))
  {
    if awake == 0 {
      run := [];
      assert s.workers == seq(|s.workers|, w => Asleep);
    } else {
      var l := Sleep(awake - 1);
      var rest := AllMaySleep(Apply(s, l), awake - 1);
      run := [l] + rest;
      assert run[1..] == rest;
    }
  }

  lemma {:induction false} BusyMayMove(s: State, wakeups: nat)
    requires Inv(s) && |s.workers| > 0 && Busy(s)
    ensures exists l :: MayHappen(s, l, wakeups)
  {
    var l := Progress(s);
    assert MayHappen(s, l, wakeups);
  }

  /** A task whose future is not set yet keeps the pool busy. */
  lemma {:induction false} UnsetMeansBusy<V(!new)>(s: State, jobs: seq<() -> V>, futures: map<Ticket, V>, t: Ticket)
    requires Consistent(s, jobs, futures) && t < |jobs| && t !in futures
    ensures t in s.queue || Running(t) in s.workers
    ensures Busy(s)
  {
    ExactlyOnePlace(s, t);
    assert t !in multiset(s.done);
    assert t in multiset(s.queue) || Running(t) in multiset(s.workers);
  }

  lemma {:induction false} JoinedMeansSet<V(!new)>(s: State, jobs: seq<() -> V>, futures: map<Ticket, V>)
    requires Consistent(s, jobs, futures) && |s.workers| > 0 && s.joined == |s.workers|
    ensures forall t: Ticket :: t < |jobs| ==> t in futures
  {
    JoinedMeansDrained(s);
    forall t: Ticket | t < |jobs| ensures t in futures {
      if t !in futures {
        UnsetMeansBusy(s, jobs, futures, t);
        assert false;
      }
    }
  }

  /** The futures in hand will hold these values. */
  ghost predicate Promised<V(!new)>(jobs: seq<() -> V>, futures: seq<Ticket>, values: seq<V>) {
    && |futures| == |values|
    && forall i :: 0 <= i < |futures| ==> futures[i] < |jobs| && jobs[futures[i]]() == values[i]
  }

  class ThreadPool<V(!new)> {
    var tasks: seq<Ticket>
    var stop: bool
    var workers: seq<Worker>
    var jobs: seq<() -> V>            // the packaged task behind each ticket
    var futures: map<Ticket, V>       // the results so far

    // What the condition variable, the callers and the destructor have still to do.
    var pending: nat
    var announced: bool
    var joined: nat
    var wakeups: nat                  // spurious wakeups the platform will still cause

    // History.
    var submitted: seq<Ticket>
    var taken: seq<Ticket>
    var done: seq<Ticket>

    function Snapshot(): State
      reads this
    {
      State(tasks, stop, announced, joined, workers, pending, submitted, taken, done)
    }

    ghost predicate Valid()
      reads this
    {
      Consistent(Snapshot(), jobs, futures)
    }

    constructor (threads: nat, wakeups: nat)
      ensures Valid() && Snapshot() == Init(threads) && jobs == [] && this.wakeups == wakeups
    {
      tasks, stop, workers, jobs, futures := [], false, seq(threads, i => Ready), [], map[];
      pending, announced, joined, this.wakeups := 0, false, 0, wakeups;
      submitted, taken, done := [], [], [];
      new;
      InitConsistent<V>(threads);
    }

    /** enqueue up to the unlock; its notify_one is left pending, so that every
        interleaving with the workers is covered. */
    method Enqueue(job: () -> V) returns (r: Submission)
      requires Valid()
      modifies this
      ensures Valid() && futures == old(futures) && wakeups == old(wakeups)
      ensures old(stop) ==> r == Stopped && Snapshot() == old(Snapshot()) && jobs == old(jobs)
      ensures !old(stop) ==> r == Accepted(|old(jobs)|) && jobs == old(jobs) + [job]
      ensures !old(stop) ==> Snapshot() == Apply(old(Snapshot()), Submit)
    {
      if stop {
        return Stopped;
      }
      SubmitConsistent(Snapshot(), jobs, futures, job);
      r := Accepted(|jobs|);
      tasks, submitted := tasks + [|submitted|], submitted + [|submitted|];
      jobs, pending := jobs + [job], pending + 1;
    }

    /** The destructor's critical section. */
    method SetStopFlag()
      requires Valid() && !stop
      modifies this
      ensures Valid() && Snapshot() == Apply(old(Snapshot()), SetStop)
      ensures jobs == old(jobs) && futures == old(futures) && wakeups == old(wakeups)
    {
      StopConsistent(Snapshot(), jobs, futures);
      stop := true;
    }

    /** What a worker does while it holds the mutex: wait, return, or take the front task. */
    method WorkerSection(w: nat)
      requires Is(Snapshot(), w, Ready)
      modifies this
      ensures Snapshot() == Apply(old(Snapshot()),
        if old(tasks) != [] then Take(w) else if old(stop) then Exit(w) else Sleep(w))
      ensures jobs == old(jobs) && futures == old(futures) && wakeups == old(wakeups)
    {
      if !(stop || tasks != []) {
        workers := workers[w := Asleep];
        return;
      }
      if stop && tasks == [] {
        workers := workers[w := Exited];
        return;
      }
      var task := tasks[0];
      tasks, taken := tasks[1..], taken + [task];
      workers := workers[w := Running(task)];
    }

    /** What a worker does without the mutex: run the task, which sets its future. */
    method RunTask(w: nat)
      requires w < |workers| && workers[w].Running? && workers[w].task < |jobs|
      modifies this
      ensures Snapshot() == Apply(old(Snapshot()), Finish(w))
      ensures jobs == old(jobs) && wakeups == old(wakeups)
      ensures futures == FuturesAfter(old(Snapshot()), Finish(w), jobs, old(futures))
    {
      var t := workers[w].task;
      futures, done := futures[t := jobs[t]()], done + [t];
      workers := workers[w := Ready];
    }

    /** The step l, by whoever it is for. */
    method Do(l: Label)
      requires PoolStep(l) && Enabled(Snapshot(), l)
      requires l.Spurious? ==> wakeups > 0
      requires l.Finish? ==> workers[l.w].task < |jobs|
      modifies this
      ensures Snapshot() == Apply(old(Snapshot()), l)
      ensures jobs == old(jobs) && wakeups == if l.Spurious? then old(wakeups) - 1 else old(wakeups)
      ensures futures == FuturesAfter(old(Snapshot()), l, jobs, old(futures))
    {
      match l {
        case NotifyNone => pending := pending - 1;
        case NotifyOne(w) => workers, pending := workers[w := Ready], pending - 1;
        case Spurious(w) => workers, wakeups := workers[w := Ready], wakeups - 1;
        case Sleep(w) => WorkerSection(w);
        case Take(w) => WorkerSection(w);
        case Exit(w) => WorkerSection(w);
        case Finish(w) => RunTask(w);
        case NotifyAll => workers, announced := WakeAll(workers), true;
        case Join => joined := joined + 1;
      }
    }

    /** The step l of the pool. */
    method Advance(l: Label)
      requires Valid() && MayHappen(Snapshot(), l, wakeups)
      modifies this
      ensures Valid() && jobs == old(jobs)
      ensures Snapshot() == Apply(old(Snapshot()), l)
      ensures wakeups == if l.Spurious? then old(wakeups) - 1 else old(wakeups)
      ensures stop == old(stop) && |workers| == old(|workers|)
    {
      StepConsistent(Snapshot(), l, jobs, futures);
      Do(l);
    }

    /** One step of the pool, of any kind and by anybody. */
    method Step() returns (l: Label)
      requires Valid() && exists l :: MayHappen(Snapshot(), l, wakeups)
      modifies this
      ensures Valid() && jobs == old(jobs)
      ensures MayHappen(old(Snapshot()), l, old(wakeups)) && Snapshot() == Apply(old(Snapshot()), l)
      ensures stop == old(stop) && |workers| == old(|workers|)
      ensures Work(Snapshot()) + 2 * wakeups < old(Work(Snapshot()) + 2 * wakeups)
      ensures stop ==> ShutdownWork(Snapshot()) < old(ShutdownWork(Snapshot()))
    {
      l :| MayHappen(Snapshot(), l, wakeups);
      StepUsesWork(Snapshot(), l);
      Advance(l);
    }

    /** A whole schedule of the pool's steps. Every schedule of the protocol can be followed. */
    method Follow(run: seq<Label>)
      requires Valid() && Schedule(Snapshot(), run, wakeups)
      modifies this
      ensures Valid() && jobs == old(jobs)
      ensures Snapshot() == After(old(Snapshot()), run) && wakeups == old(wakeups) - Wakeups(run)
      ensures stop == old(stop) && |workers| == old(|workers|)
    {
      for i := 0 to |run|
        invariant Valid() && jobs == old(jobs) && stop == old(stop) && |workers| == old(|workers|)
        invariant Schedule(Snapshot(), run[i..], wakeups)
        invariant After(Snapshot(), run[i..]) == After(old(Snapshot()), run)
        invariant wakeups - Wakeups(run[i..]) == old(wakeups) - Wakeups(run)
      {
        ScheduleStep(Snapshot(), run[i..], wakeups);
        assert run[i..][1..] == run[i + 1..];
        Advance(run[i]);
      }
    }

    /** What the workers and the platform do while the pool's owner is elsewhere: nothing, or
        any schedule at all, which may leave every worker asleep. */
    method Interleave()
      requires Valid()
      modifies this
      ensures Valid() && jobs == old(jobs) && stop == old(stop) && |workers| == old(|workers|)
      ensures exists run :: Schedule(old(Snapshot()), run, old(wakeups)) && Snapshot() == After(old(Snapshot()), run)
    {
      assert Schedule(Snapshot(), [], wakeups);
      var run :| Schedule(Snapshot(), run, wakeups);
      assert Schedule(Snapshot(), run, wakeups);
      Follow(run);
    }

    /** Open for tasks, and with somebody to run them. */
    ghost predicate Usable()
      reads this
    {
      Valid() && |workers| > 0 && !stop
    }

    /** futures.push_back(enqueue(job)), with whatever the pool does before and after. */
    method EnqueueTo(futures: seq<Ticket>, job: () -> V, ghost values: seq<V>) returns (more: seq<Ticket>)
      requires Usable() && Promised(jobs, futures, values)
      modifies this
      ensures Usable() && Promised(jobs, more, values + [job()])
    {
      Interleave();
      var submission := Enqueue(job);
      more := futures + [submission.ticket];
      Interleave();
    }

    /** future.get(): wait while the pool runs as it likes. It always returns, and always
        with what the task returns, whatever the schedule. */
    method Get(t: Ticket) returns (v: V)
      requires Valid() && |workers| > 0 && t < |jobs|
      modifies this
      ensures Valid() && jobs == old(jobs) && stop == old(stop) && |workers| == old(|workers|)
      ensures v == jobs[t]()
    {
      Interleave();
      while t !in futures
        invariant Valid() && jobs == old(jobs) && stop == old(stop) && |workers| == old(|workers|)
        decreases Work(Snapshot()) + 2 * wakeups
      {
        UnsetMeansBusy(Snapshot(), jobs, futures, t);
        BusyMayMove(Snapshot(), wakeups);
        var _ := Step();
      }
      v := futures[t];
    }

    /** The get of the i-th future in hand. */
    method GetFrom(futures: seq<Ticket>, i: nat, ghost values: seq<V>) returns (v: V)
      requires Usable() && Promised(jobs, futures, values) && i < |futures|
      modifies this
      ensures Usable() && Promised(jobs, futures, values) && v == values[i]
    {
      v := Get(futures[i]);
    }

    /** The destructor: it returns, under every schedule, with every task of the queue
        finished and every worker joined. */
    method Destroy()
      requires Valid() && |workers| > 0 && !stop
      modifies this
      ensures Valid() && stop && tasks == [] && jobs == old(jobs)
      ensures forall w :: 0 <= w < |workers| ==> workers[w] == Exited
      ensures forall t: Ticket :: t < |jobs| ==> t in futures && futures[t] == jobs[t]()
    {
      Interleave();
      SetStopFlag();
      while joined < |workers|
        invariant Valid() && stop && jobs == old(jobs) && |workers| == old(|workers|)
        decreases ShutdownWork(Snapshot())
      {
        BusyMayMove(Snapshot(), wakeups);
        var _ := Step();
      }
      JoinedMeansDrained(Snapshot());
      JoinedMeansSet(Snapshot(), jobs, futures);
    }
  }
}
