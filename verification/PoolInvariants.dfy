/** What every step of the pool protocol keeps. */
module PoolInvariants {
  import opened Options
  import opened PoolQueues
  import opened PoolProtocol

  // -------------------------------------------------------- kinds of worker

  /** Between the increment of the counter and its decrement. */
  predicate IsCounted<T>(w: Worker<T>) {
    w.Counted? || w.Running? || w.Finished? || w.Closing?
  }

  /** Past the exit test with a task still to run or to finish. */
  predicate InTask<T>(w: Worker<T>) {
    w.Passed? || IsCounted(w)
  }

  /** Has entered func(), now or earlier. */
  predicate HasStarted<T>(w: Worker<T>) {
    w.Running? || w.Finished? || w.Closing? || ((w.Leaving? || w.Gone?) && w.ran)
  }

  /** The job the worker took from a queue, if it took one. */
  function JobOf<T>(w: Worker<T>): Option<Job<T>> {
    match w
    case Checking(f) => f
    case Passed(f) => f
    case Counted(f) => f
    case Running(f) => f
    case Finished(f) => f
    case Closing(f) => f
    case Leaving(f, _) => f
    case Gone(f, _) => f
    case _ => None
  }

  predicate HasJob<T>(w: Worker<T>) {
    JobOf(w).Some?
  }

  /** Took a job and returned without running it. */
  predicate Dropped<T>(w: Worker<T>) {
    (w.Leaving? || w.Gone?) && !w.ran && w.func.Some?
  }

  // --------------------------------------------------------------- counting

  datatype Mark = InCounter | WithJob

  predicate Is<T>(w: Worker<T>, m: Mark) {
    match m
    case InCounter => IsCounted(w)
    case WithJob => HasJob(w)
  }

  /** How many workers carry the mark. */
  function Count<T>(ws: seq<Worker<T>>, m: Mark): nat {
    if ws == [] then 0 else Count(ws[..|ws| - 1], m) + (if Is(ws[|ws| - 1], m) then 1 else 0)
  }

  lemma {:induction false} CountUpdate<T>(ws: seq<Worker<T>>, m: Mark, i: nat, w: Worker<T>)
    requires i < |ws|
    ensures Count(ws[i := w], m) + (if Is(ws[i], m) then 1 else 0) == Count(ws, m) + (if Is(w, m) then 1 else 0)
  {
    var n := |ws| - 1;
    if i == n {
      assert ws[i := w][..n] == ws[..n];
    } else {
      assert ws[i := w][..n] == ws[..n][i := w];
      CountUpdate(ws[..n], m, i, w);
    }
  }

  lemma {:induction false} CountSame<T>(ws: seq<Worker<T>>, vs: seq<Worker<T>>, m: Mark)
    requires |ws| == |vs| && forall i | 0 <= i < |ws| :: Is(ws[i], m) == Is(vs[i], m)
    ensures Count(ws, m) == Count(vs, m)
  {
    if ws != [] {
      CountSame(ws[..|ws| - 1], vs[..|vs| - 1], m);
    }
  }

  lemma {:induction false} CountBounds<T>(ws: seq<Worker<T>>, m: Mark)
    ensures Count(ws, m) <= |ws|
    ensures Count(ws, m) == 0 <==> forall i | 0 <= i < |ws| :: !Is(ws[i], m)
  {
    if ws != [] {
      CountBounds(ws[..|ws| - 1], m);
      assert forall i | 0 <= i < |ws| - 1 :: ws[..|ws| - 1][i] == ws[i];
    }
  }

  // --------------------------------------------------------- the invariants

  /** The mutex is held by exactly the thread whose program counter says so. */
  ghost predicate LockInv<T>(s: State<T>) {
    && (forall i | 0 <= i < |s.workers| :: WorkerHolds(s.workers[i]) <==> s.lock == Some(W(i)))
    && (forall a | 0 <= a < |s.adders| :: AdderHolds(s.adders[a]) <==> s.lock == Some(A(a)))
    && (forall r | 0 <= r < |s.releasers| :: ReleaserHolds(s.releasers[r]) <==> s.lock == Some(R(r)))
    && match s.lock
       case None => true
       case Some(W(i)) => i < |s.workers|
       case Some(A(a)) => a < |s.adders|
       case Some(R(r)) => r < |s.releasers|
  }

  /** The running counter counts the workers between increment and decrement. */
  ghost predicate CounterInv<T>(s: State<T>) {
    s.running == Count(s.workers, InCounter)
  }

  /** A worker gets past the exit test only with a task in hand. */
  ghost predicate CallableInv<T>(s: State<T>) {
    forall i | 0 <= i < |s.workers| ::
      var w := s.workers[i];
      && (InTask(w) || HasStarted(w) ==> HasJob(w))
      && (w.Checking? && w.func.None? ==> s.exit)
  }

  /** No worker is inside, or about to enter, a task and none can be again. */
  ghost predicate Quiet<T>(s: State<T>) {
    s.exit && forall i | 0 <= i < |s.workers| :: !InTask(s.workers[i])
  }

  /** What the exit flag and a finished release guarantee. */
  ghost predicate ExitInv<T>(s: State<T>) {
    && (forall r | 0 <= r < |s.releasers| :: !s.releasers[r].Fresh? ==> s.exit)
    && (forall r | 0 <= r < |s.releasers| :: s.releasers[r].Returning? || s.releasers[r].Returned? ==> Quiet(s))
    && (forall i | 0 <= i < |s.workers| :: Dropped(s.workers[i]) ==> s.exit)
  }

  predicate OwesNotify<T>(a: Adder<T>) {
    (a.Pushed? || a.Notifying?) && a.queued
  }

  /** No task waits behind a sleeping worker unless a notify_all is on its way. */
  ghost predicate WakeInv<T>(s: State<T>) {
    && (forall i | 0 <= i < |s.workers| :: s.workers[i].Drained? || s.workers[i].Parking? ==> s.queues.Empty())
    && (forall i | 0 <= i < |s.workers| :: s.workers[i].Sleeping? ==>
          s.queues.Empty() || exists a :: 0 <= a < |s.adders| && OwesNotify(s.adders[a]))
  }

  /** The jobs of one class, in order. */
  function Only<T>(jobs: seq<Job<T>>, tt: TaskType): seq<Job<T>> {
    if jobs == [] then []
    else
      var last := jobs[|jobs| - 1];
      Only(jobs[..|jobs| - 1], tt) + (if last.tt == tt then [last] else [])
  }

  lemma OnlyAppend<T>(jobs: seq<Job<T>>, job: Job<T>, tt: TaskType)
    ensures Only(jobs + [job], tt) == Only(jobs, tt) + (if job.tt == tt then [job] else [])
  {
    assert (jobs + [job])[..|jobs|] == jobs;
  }

  lemma {:induction false} OnlyMembers<T>(jobs: seq<Job<T>>, tt: TaskType, job: Job<T>)
    ensures job in Only(jobs, tt) <==> job in jobs && job.tt == tt
  {
    if jobs != [] {
      OnlyMembers(jobs[..|jobs| - 1], tt, job);
      assert jobs == jobs[..|jobs| - 1] + [jobs[|jobs| - 1]];
    }
  }

  /** Class by class, what was queued is what was taken followed by what is still queued. */
  ghost predicate Balanced<T>(h: History<T>, q: Queues<Job<T>>) {
    && (forall k | 0 <= k < |h.log| :: h.log[k].ticket == k)
    && (forall tt: TaskType :: Only(h.log, tt) == Only(h.popped, tt) + q.Of(tt))
  }

  ghost predicate QueueInv<T>(s: State<T>) {
    Balanced(s.hist, s.queues)
  }

  /** Every taken job sits with the one worker that took it. */
  ghost predicate TakenInv<T>(s: State<T>) {
    && |s.hist.takers| == |s.hist.popped| == |s.hist.moments|
    && (forall j | 0 <= j < |s.hist.popped| ::
          s.hist.takers[j] < |s.workers| && JobOf(s.workers[s.hist.takers[j]]) == Some(s.hist.popped[j]))
    && (forall j, k | 0 <= j < k < |s.hist.takers| :: s.hist.takers[j] != s.hist.takers[k])
    && (forall i | 0 <= i < |s.workers| && HasJob(s.workers[i]) :: i in s.hist.takers)
    && |s.hist.popped| == Count(s.workers, WithJob)
  }

  /** func() is entered at most once by each worker. */
  ghost predicate StartedInv<T>(s: State<T>) {
    && (forall i | i in s.hist.started :: i < |s.workers|)
    && (forall i | 0 <= i < |s.workers| :: i in s.hist.started <==> HasStarted(s.workers[i]))
    && (forall j, k | 0 <= j < k < |s.hist.started| :: s.hist.started[j] != s.hist.started[k])
  }

  /** init_thread_pool leaves -1 as the recorded thread count. */
  ghost predicate StartInv<T>(s: State<T>) {
    && s.spawned <= |s.workers|
    && (s.inited ==> s.spawned == |s.workers|)
    && s.threadNum == (if s.inited then -1 else 0)
    && (forall i | 0 <= i < |s.workers| :: s.workers[i].Unborn? <==> i >= s.spawned)
  }

  /** Should be served before b if queued before b is taken. */
  predicate Precedes<T>(a: Job<T>, b: Job<T>) {
    a.tt.Rank() > b.tt.Rank() || (a.tt == b.tt && a.ticket < b.ticket)
  }

  /** Each job was taken only after every job that precedes it and was queued by then. */
  ghost predicate OrderInv<T>(s: State<T>) {
    && |s.hist.moments| == |s.hist.popped|
    && (forall j | 0 <= j < |s.hist.popped| :: s.hist.moments[j] <= |s.hist.log|)
    && (forall j, k | 0 <= j < |s.hist.popped| && 0 <= k < s.hist.moments[j] && k < |s.hist.log|
                      && Precedes(s.hist.log[k], s.hist.popped[j]) ::
          s.hist.log[k] in s.hist.popped[..j])
  }

  ghost predicate Inv<T>(s: State<T>) {
    && LockInv(s)
    && CounterInv(s)
    && CallableInv(s)
    && ExitInv(s)
    && WakeInv(s)
    && QueueInv(s)
    && TakenInv(s)
    && StartedInv(s)
    && StartInv(s)
    && OrderInv(s)
  }

  // -------------------------------------------------------- one step each

  lemma InitInv<T>(n: nat, a: nat, r: nat)
    ensures Inv(Init<T>(n, a, r))
  {
    var s := Init<T>(n, a, r);
    CountBounds(s.workers, InCounter);
    CountBounds(s.workers, WithJob);
  }

  lemma LockWork<T>(s: State<T>, i: nat)
    requires LockInv(s) && Enabled(s, Work(i))
    ensures LockInv(WorkerStep(s, i))
  {
  }

  lemma LockAdd<T>(s: State<T>, a: nat)
    requires LockInv(s) && Enabled(s, Add(a))
    ensures LockInv(AdderStep(s, a))
  {
  }

  lemma LockRelease<T>(s: State<T>, r: nat)
    requires LockInv(s) && Enabled(s, Release(r))
    ensures LockInv(ReleaserStep(s, r))
  {
  }

  lemma LockStep<T>(s: State<T>, step: Step<T>)
    requires LockInv(s) && Enabled(s, step) && StartInv(s)
    ensures LockInv(Apply(s, step))
  {
    match step {
      case Start =>
      case Work(i) => LockWork(s, i);
      case Begin(_, _, _) =>
      case Add(a) => LockAdd(s, a);
      case Release(r) => LockRelease(s, r);
    }
  }

  /** The counter moves with the one worker that moves; waking counts for nothing. */
  lemma CounterStep<T>(s: State<T>, step: Step<T>)
    requires CounterInv(s) && Enabled(s, step) && StartInv(s)
    ensures CounterInv(Apply(s, step))
  {
    var t := Apply(s, step);
    match step {
      case Start =>
        if s.spawned < |s.workers| {
          CountUpdate(s.workers, InCounter, s.spawned, Born);
        }
      case Work(i) =>
        assert t.workers == s.workers[i := t.workers[i]];
        CountUpdate(s.workers, InCounter, i, t.workers[i]);
      case _ =>
        CountSame(s.workers, t.workers, InCounter);
    }
  }

  lemma CallableStep<T>(s: State<T>, step: Step<T>)
    requires CallableInv(s) && Enabled(s, step) && StartInv(s)
    ensures CallableInv(Apply(s, step))
  {
  }

  /** Under the mutex, a counter of 0 and a raised exit flag mean Quiet. */
  lemma ZeroIsQuiet<T>(s: State<T>, r: nat)
    requires LockInv(s) && CounterInv(s) && ExitInv(s)
    requires r < |s.releasers| && s.releasers[r].Looking? && s.running <= 0
    ensures Quiet(s)
  {
    CountBounds(s.workers, InCounter);
    forall i | 0 <= i < |s.workers|
      ensures !InTask(s.workers[i])
    {
      assert !WorkerHolds(s.workers[i]) && !Is(s.workers[i], InCounter);
    }
  }

  /** Once quiet, always quiet: the exit test stops every worker that still has a task. */
  lemma QuietStep<T>(s: State<T>, step: Step<T>)
    requires Quiet(s) && Enabled(s, step) && StartInv(s)
    ensures Quiet(Apply(s, step)) && Apply(s, step).hist.started == s.hist.started
  {
  }

  lemma ExitStep<T>(s: State<T>, step: Step<T>)
    requires LockInv(s) && CounterInv(s) && ExitInv(s) && Enabled(s, step) && StartInv(s)
    ensures ExitInv(Apply(s, step))
  {
    var t := Apply(s, step);
    forall i | 0 <= i < |t.workers| && Dropped(t.workers[i])
      ensures t.exit
    {
      assert !Dropped(s.workers[i]) ==> s.workers[i].Checking? || s.workers[i].Leaving?;
    }
    forall r | 0 <= r < |t.releasers| && (t.releasers[r].Returning? || t.releasers[r].Returned?)
      ensures Quiet(t)
    {
      if !Quiet(s) {
        assert step == Release(r) && s.releasers[r].Looking?;
        ZeroIsQuiet(s, r);
      }
      QuietStep(s, step);
    }
  }

  /** A push leaves its adder owing a notification, which only the notify pays off. */
  lemma WakeAdd<T>(s: State<T>, a: nat)
    requires LockInv(s) && WakeInv(s) && Enabled(s, Add(a))
    ensures WakeInv(AdderStep(s, a))
  {
    var t := AdderStep(s, a);
    forall i | 0 <= i < |t.workers| && t.workers[i].Sleeping? && !t.queues.Empty()
      ensures exists b :: 0 <= b < |t.adders| && OwesNotify(t.adders[b])
    {
      if s.queues.Empty() {
        assert OwesNotify(t.adders[a]);
      } else {
        var b :| 0 <= b < |s.adders| && OwesNotify(s.adders[b]);
        assert OwesNotify(t.adders[b]);
      }
    }
  }

  lemma WakeWork<T>(s: State<T>, i: nat)
    requires WakeInv(s) && Enabled(s, Work(i))
    ensures WakeInv(WorkerStep(s, i))
  {
  }

  lemma WakeStep<T>(s: State<T>, step: Step<T>)
    requires LockInv(s) && WakeInv(s) && Enabled(s, step) && StartInv(s)
    ensures WakeInv(Apply(s, step))
  {
    match step {
      case Start =>
      case Work(i) => WakeWork(s, i);
      case Begin(b, _, _) =>
        var t := Apply(s, step);
        if a :| 0 <= a < |s.adders| && OwesNotify(s.adders[a]) {
          assert OwesNotify(t.adders[a]);
        }
      case Add(a) => WakeAdd(s, a);
      case Release(_) =>
    }
  }

  lemma HeadClass<T>(h: History<T>, q: Queues<Job<T>>)
    requires Balanced(h, q) && Dequeue(q).Taken?
    ensures Dequeue(q).item.tt == Dequeue(q).tt && Dequeue(q).item in h.log
  {
    var d := Dequeue(q);
    assert q.Of(d.tt)[0] == d.item;
    assert d.item in Only(h.log, d.tt);
    OnlyMembers(h.log, d.tt, d.item);
  }

  lemma QueueTake<T>(h: History<T>, q: Queues<Job<T>>, i: nat)
    requires Balanced(h, q) && Dequeue(q).Taken?
    ensures Balanced(NoteTaken(h, Dequeue(q).item, i), Dequeue(q).rest)
  {
    var d := Dequeue(q);
    HeadClass(h, q);
    forall tt: TaskType
      ensures Only(h.log, tt) == Only(h.popped + [d.item], tt) + d.rest.Of(tt)
    {
      OnlyAppend(h.popped, d.item, tt);
      assert tt == d.tt ==> q.Of(tt) == [d.item] + d.rest.Of(tt);
    }
  }

  lemma QueueAdd<T>(h: History<T>, q: Queues<Job<T>>, job: Job<T>)
    requires Balanced(h, q) && job.ticket == |h.log|
    ensures Balanced(h.(log := h.log + [job]), q.Push(job.tt, job))
  {
    forall tt: TaskType
      ensures Only(h.log + [job], tt) == Only(h.popped, tt) + q.Push(job.tt, job).Of(tt)
    {
      OnlyAppend(h.log, job, tt);
    }
  }

  lemma QueueStep<T>(s: State<T>, step: Step<T>)
    requires QueueInv(s) && Enabled(s, step)
    ensures QueueInv(Apply(s, step))
  {
    match step {
      case Work(i) =>
        if s.workers[i].Testing? && Dequeue(s.queues).Taken? {
          QueueTake(s.hist, s.queues, i);
        }
      case Add(a) =>
        if s.adders[a].Holding? {
          QueueAdd(s.hist, s.queues, Job(|s.hist.log|, s.adders[a].tt, s.adders[a].task));
        }
      case _ =>
    }
  }

  lemma TakenStep<T>(s: State<T>, step: Step<T>)
    requires TakenInv(s) && Enabled(s, step) && StartInv(s)
    ensures TakenInv(Apply(s, step))
  {
    var t := Apply(s, step);
    match step {
      case Start =>
        if s.spawned < |s.workers| {
          CountUpdate(s.workers, WithJob, s.spawned, Born);
        }
      case Work(i) =>
        TakenWork(s, i);
      case _ =>
        CountSame(s.workers, t.workers, WithJob);
    }
  }

  lemma TakenWork<T>(s: State<T>, i: nat)
    requires TakenInv(s) && i < |s.workers|
    ensures TakenInv(WorkerStep(s, i))
  {
    var t := WorkerStep(s, i);
    CountUpdate(s.workers, WithJob, i, t.workers[i]);
    if t.hist.popped == s.hist.popped {
      assert JobOf(t.workers[i]) == JobOf(s.workers[i]);
    } else {
      assert i !in s.hist.takers;
    }
  }

  lemma StartedWork<T>(s: State<T>, i: nat)
    requires StartedInv(s) && Enabled(s, Work(i))
    ensures StartedInv(WorkerStep(s, i))
  {
  }

  lemma StartedStep<T>(s: State<T>, step: Step<T>)
    requires StartedInv(s) && Enabled(s, step) && StartInv(s)
    ensures StartedInv(Apply(s, step))
  {
    match step {
      case Work(i) => StartedWork(s, i);
      case _ =>
    }
  }

  lemma StartStepInv<T>(s: State<T>, step: Step<T>)
    requires StartInv(s) && Enabled(s, step)
    ensures StartInv(Apply(s, step))
  {
  }

  /** The jobs of one class keep their ticket order. */
  lemma {:induction false} OnlySorted<T>(jobs: seq<Job<T>>, tt: TaskType)
    requires forall k | 0 <= k < |jobs| :: jobs[k].ticket == k
    ensures forall j, k | 0 <= j < k < |Only(jobs, tt)| :: Only(jobs, tt)[j].ticket < Only(jobs, tt)[k].ticket
  {
    if jobs != [] {
      var front := jobs[..|jobs| - 1];
      OnlySorted(front, tt);
      forall j | 0 <= j < |Only(front, tt)|
        ensures Only(front, tt)[j].ticket < |front|
      {
        OnlyMembers(front, tt, Only(front, tt)[j]);
      }
    }
  }

  /** Everything that precedes the job get_task returns has been taken before. */
  lemma TakenInOrder<T>(h: History<T>, q: Queues<Job<T>>, a: Job<T>)
    requires Balanced(h, q) && Dequeue(q).Taken?
    requires a in h.log && Precedes(a, Dequeue(q).item)
    ensures a in h.popped
  {
    var d := Dequeue(q);
    DequeueServesBest(q);
    HeadClass(h, q);
    OnlyMembers(h.log, a.tt, a);
    OnlyMembers(h.popped, a.tt, a);
    if a.tt == d.tt {
      OnlySorted(h.log, d.tt);
      var p := |Only(h.popped, d.tt)|;
      assert Only(h.log, d.tt)[p] == d.item;
      var k :| 0 <= k < |Only(h.log, d.tt)| && Only(h.log, d.tt)[k] == a;
      assert k < p;
      assert Only(h.popped, d.tt)[k] == a;
    }
  }

  lemma OrderStep<T>(s: State<T>, step: Step<T>)
    requires OrderInv(s) && QueueInv(s) && Enabled(s, step)
    ensures OrderInv(Apply(s, step))
  {
    var t := Apply(s, step);
    assert s.hist.log <= t.hist.log;
    if t.hist.popped != s.hist.popped {
      var n := |s.hist.popped|;
      assert t.hist.popped == s.hist.popped + [Dequeue(s.queues).item];
      forall k | 0 <= k < |s.hist.log| && Precedes(s.hist.log[k], t.hist.popped[n])
        ensures s.hist.log[k] in t.hist.popped[..n]
      {
        TakenInOrder(s.hist, s.queues, s.hist.log[k]);
        assert t.hist.popped[..n] == s.hist.popped;
      }
      forall j | 0 <= j < n
        ensures t.hist.popped[..j] == s.hist.popped[..j]
      {
      }
    }
  }

  lemma InvStep<T>(s: State<T>, step: Step<T>)
    requires Inv(s) && Enabled(s, step)
    ensures Inv(Apply(s, step))
  {
    LockStep(s, step);
    CounterStep(s, step);
    CallableStep(s, step);
    ExitStep(s, step);
    WakeStep(s, step);
    QueueStep(s, step);
    TakenStep(s, step);
    StartedStep(s, step);
    StartStepInv(s, step);
    OrderStep(s, step);
  }

  lemma {:induction false} InvExec<T>(s: State<T>, steps: seq<Step<T>>)
    requires Inv(s) && Feasible(s, steps)
    ensures Inv(Exec(s, steps))
  {
    if steps != [] {
      InvExec(s, steps[..|steps| - 1]);
      InvStep(Exec(s, steps[..|steps| - 1]), steps[|steps| - 1]);
    }
  }

  lemma InvReachable<T(!new)>(s: State<T>)
    requires Reachable(s)
    ensures Inv(s)
  {
    var n: nat, a: nat, r: nat, steps: seq<Step<T>> :|
      Feasible(Init<T>(n, a, r), steps) && s == Exec(Init<T>(n, a, r), steps);
    InitInv<T>(n, a, r);
    InvExec(Init<T>(n, a, r), steps);
  }
}
