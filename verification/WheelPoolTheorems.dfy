/** What the wheel and the pool promise together, over every interleaving. */
module WheelPoolTheorems {
  import opened Options
  import opened PoolQueues
  import P = PoolProtocol
  import PI = PoolInvariants
  import PT = PoolTheorems
  import W = Wheel
  import opened WheelPool
  import opened WheelPoolInvariants

  // ------------------------------------------------------------ the pool alone

  lemma PoolStepsOrStays(s: Sys, step: Step)
    requires Enabled(s, step) && P.Reachable(s.pool)
    ensures P.Reachable(Apply(s, step).pool)
  {
    match step {
      case Pool(p) => PT.ReachableStep(s.pool, p);
      case Move(u) =>
        if s.agents[u].Scanning? && s.agents[u].k < |Here(s)| && W.Fires(Here(s)[s.agents[u].k]) {
          PT.ReachableStep(s.pool, P.Begin(u, Timer, Timed(Here(s)[s.agents[u].k].id, s.now)));
        }
      case _ =>
    }
  }

  lemma {:induction false} PoolFollows(s: Sys, steps: seq<Step>)
    requires P.Reachable(s.pool) && Feasible(s, steps)
    ensures P.Reachable(Exec(s, steps).pool)
  {
    if steps != [] {
      PoolFollows(s, steps[..|steps| - 1]);
      PoolStepsOrStays(Exec(s, steps[..|steps| - 1]), steps[|steps| - 1]);
    }
  }

  /** Seen from the pool, the wheel is one more user: whatever holds of every
      state of the pool holds here. */
  lemma PoolIsReachable(s: Sys)
    requires Reachable(s)
    ensures P.Reachable(s.pool) && PI.Inv(s.pool)
  {
    var u: nat, n: nat, a: nat, r: nat, c: nat, steps: seq<Step> :|
      Feasible(Init(u, n, a, r, c), steps) && s == Exec(Init(u, n, a, r, c), steps);
    var p0 := Init(u, n, a, r, c).pool;
    var none: seq<P.Step<Stamp>> := [];
    assert P.Feasible(p0, none) && P.Exec(p0, none) == p0;
    PoolFollows(Init(u, n, a, r, c), steps);
    PI.InvReachable(s.pool);
  }

  // ------------------------------------------------------------------- mutexes

  /** No deadlock between the two mutexes: when one of them is held, the thread
      that holds the pool's, or else the thread that holds the wheel's, can move. */
  lemma SomeHolderMoves(s: Sys) returns (step: Step)
    requires Reachable(s) && (s.wlock.Some? || s.pool.lock.Some?)
    ensures Enabled(s, step)
    ensures if s.pool.lock.Some? then step == Pool(PT.MoveOf(s.pool.lock.value))
            else step == Move(s.wlock.value) || step == Pool(P.Add(s.wlock.value))
  {
    InvReachable(s);
    PoolIsReachable(s);
    if s.pool.lock.Some? {
      PT.HolderMoves(s.pool);
      step := Pool(PT.MoveOf(s.pool.lock.value));
    } else {
      var u := s.wlock.value;
      step := if s.pool.adders[u].Idle? then Move(u) else Pool(P.Add(u));
    }
  }

  /** The move of the thread that holds the pool's mutex, or else of the thread
      that holds the wheel's. */
  function HolderStep(s: Sys): Step
    requires s.wlock.Some?
  {
    var u := s.wlock.value;
    if s.pool.lock.Some? then Pool(PT.MoveOf(s.pool.lock.value))
    else if u < |s.pool.adders| && !s.pool.adders[u].Idle? then Pool(P.Add(u))
    else Move(u)
  }

  /** A run of such moves while the wheel's mutex is held. */
  ghost predicate ByHolders(s: Sys, steps: seq<Step>)
    decreases |steps|
  {
    steps == [] ||
    (s.wlock.Some? && steps[0] == HolderStep(s) && Enabled(s, steps[0]) && ByHolders(Apply(s, steps[0]), steps[1..]))
  }

  function CellsLeft(s: Sys, k: nat): nat {
    if k < |Here(s)| then |Here(s)| - k else 0
  }

  /** How many moves of its own the holder of the wheel's mutex still needs, at most. */
  function AgentTime(s: Sys): nat {
    match Holder(s)
    case Inserting(_, _) => 2
    case Turning => 3 * |W.Bucket(s.wheel.buckets, W.Turn(s.wheel).cur)| + 3
    case Scanning(k) => 3 * CellsLeft(s, k) + 2
    case Calling(k) => 3 * CellsLeft(s, k) + 1
    case Lowering(k) => 3 * CellsLeft(s, k)
    case _ => 1
  }

  /** How many moves its call of add_task still needs. */
  function CallTime(s: Sys): nat {
    match HolderCall(s)
    case Idle => 0
    case Wanting(_, _) => 4
    case Holding(_, _) => 3
    case Pushed(_) => 2
    case Notifying(_) => 1
  }

  lemma PoolHolderProgress(s: Sys)
    requires Inv(s) && PI.Inv(s.pool) && s.wlock.Some? && s.pool.lock.Some?
    ensures Enabled(s, HolderStep(s))
    ensures var t := Apply(s, HolderStep(s));
            && t.wlock == s.wlock && AgentTime(t) == AgentTime(s) && CallTime(t) <= CallTime(s)
            && PT.HoldingTime(t.pool) < PT.HoldingTime(s.pool)
  {
    PT.HolderMoves(s.pool);
  }

  lemma CallProgress(s: Sys)
    requires Inv(s) && PI.Inv(s.pool) && s.wlock.Some? && s.pool.lock == None && !HolderCall(s).Idle?
    ensures Enabled(s, HolderStep(s))
    ensures var t := Apply(s, HolderStep(s));
            t.wlock == s.wlock && AgentTime(t) == AgentTime(s) && CallTime(t) < CallTime(s)
  {
    var u := s.wlock.value;
    assert !P.AdderHolds(s.pool.adders[u]);
  }

  lemma AgentProgress(s: Sys)
    requires Inv(s) && s.wlock.Some? && s.pool.lock == None && HolderCall(s).Idle?
    ensures Enabled(s, HolderStep(s))
    ensures var t := Apply(s, HolderStep(s));
            t.wlock == None || (t.wlock == s.wlock && AgentTime(t) < AgentTime(s))
  {
    var u := s.wlock.value;
    assert Holds(s.agents[u]);
    if s.agents[u].Lowering? {
      assert |Here(AgentStep(s, u))| == |Here(s)|;
    }
  }

  lemma {:induction false} PrependStep(s: Sys, step: Step, rest: seq<Step>)
    requires Enabled(s, step) && Feasible(Apply(s, step), rest)
    ensures Feasible(s, [step] + rest) && Exec(s, [step] + rest) == Exec(Apply(s, step), rest)
  {
    var all := [step] + rest;
    if rest == [] {
      assert all[..0] == [] && all[|all| - 1] == step;
    } else {
      PrependStep(s, step, rest[..|rest| - 1]);
      assert all[..|all| - 1] == [step] + rest[..|rest| - 1];
      assert all[|all| - 1] == rest[|rest| - 1];
    }
  }

  lemma {:induction false} WheelHolderFinishes(s: Sys) returns (steps: seq<Step>)
    requires Inv(s) && PI.Inv(s.pool) && s.wlock.Some?
    ensures Feasible(s, steps) && ByHolders(s, steps) && Exec(s, steps).wlock == None
    decreases AgentTime(s), CallTime(s), PT.HoldingTime(s.pool)
  {
    var step := HolderStep(s);
    if s.pool.lock.Some? {
      PoolHolderProgress(s);
    } else if HolderCall(s).Idle? {
      AgentProgress(s);
    } else {
      CallProgress(s);
    }
    var t := Apply(s, step);
    var rest := [];
    if t.wlock.Some? {
      InvStep(s, step);
      PoolKept(s, step);
      rest := WheelHolderFinishes(t);
    }
    PrependStep(s, step, rest);
    steps := [step] + rest;
    assert steps[1..] == rest;
  }

  /** The wheel's mutex is always given up: the moves of the holders alone,
      finitely many, end with it free. */
  lemma WheelMutexComesFree(s: Sys) returns (steps: seq<Step>)
    requires Reachable(s) && s.wlock.Some?
    ensures Feasible(s, steps) && ByHolders(s, steps) && Exec(s, steps).wlock == None
  {
    InvReachable(s);
    PoolIsReachable(s);
    steps := WheelHolderFinishes(s);
  }

  lemma PoolKept(s: Sys, step: Step)
    requires Enabled(s, step) && PI.Inv(s.pool)
    ensures PI.Inv(Apply(s, step).pool)
  {
    match step {
      case Pool(p) => PI.InvStep(s.pool, p);
      case Move(u) =>
        if s.agents[u].Scanning? && s.agents[u].k < |Here(s)| && W.Fires(Here(s)[s.agents[u].k]) {
          PI.InvStep(s.pool, P.Begin(u, Timer, Timed(Here(s)[s.agents[u].k].id, s.now)));
        }
      case _ =>
    }
  }

  // --------------------------------------------------------------------- order

  /** Timers enter the pool in the order of their ticks, and none enters twice. */
  lemma TimersQueuedOnce(s: Sys, i: nat, j: nat)
    requires Reachable(s) && i < j < |s.pool.hist.log|
    requires s.pool.hist.log[i].tt == s.pool.hist.log[j].tt == Timer
    ensures var a, b := s.pool.hist.log[i].task, s.pool.hist.log[j].task;
            a.Timed? && b.Timed? && a.tick <= b.tick <= s.now && a.id != b.id
  {
    InvReachable(s);
  }

  lemma {:induction false} SortedPairs<T>(jobs: seq<P.Job<T>>, tt: TaskType)
    requires forall j, k | 0 <= j < k < |PI.Only(jobs, tt)| :: PI.Only(jobs, tt)[j].ticket < PI.Only(jobs, tt)[k].ticket
    ensures forall i, j | 0 <= i < j < |jobs| && jobs[i].tt == jobs[j].tt == tt :: jobs[i].ticket < jobs[j].ticket
  {
    if jobs != [] {
      var front, last := jobs[..|jobs| - 1], jobs[|jobs| - 1];
      forall j, k | 0 <= j < k < |PI.Only(front, tt)|
        ensures PI.Only(front, tt)[j].ticket < PI.Only(front, tt)[k].ticket
      {
        assert PI.Only(front, tt)[j] == PI.Only(jobs, tt)[j] && PI.Only(front, tt)[k] == PI.Only(jobs, tt)[k];
      }
      SortedPairs(front, tt);
      forall i | 0 <= i < |front| && front[i].tt == last.tt == tt
        ensures front[i].ticket < last.ticket
      {
        LastIsLargest(jobs, tt, front[i]);
      }
    }
  }

  lemma LastIsLargest<T>(jobs: seq<P.Job<T>>, tt: TaskType, job: P.Job<T>)
    requires jobs != [] && job in jobs[..|jobs| - 1] && job.tt == jobs[|jobs| - 1].tt == tt
    requires forall j, k | 0 <= j < k < |PI.Only(jobs, tt)| :: PI.Only(jobs, tt)[j].ticket < PI.Only(jobs, tt)[k].ticket
    ensures job.ticket < jobs[|jobs| - 1].ticket
  {
    var front := PI.Only(jobs[..|jobs| - 1], tt);
    PI.OnlyMembers(jobs[..|jobs| - 1], tt, job);
    var k :| 0 <= k < |front| && front[k] == job;
    assert PI.Only(jobs, tt)[k] == job && PI.Only(jobs, tt)[|front|] == jobs[|jobs| - 1];
  }

  lemma PoppedTickets<T>(h: P.History<T>, q: Queues<P.Job<T>>, i: nat, j: nat)
    requires PI.Balanced(h, q) && i < j < |h.popped| && h.popped[i].tt == h.popped[j].tt
    ensures h.popped[i].ticket < h.popped[j].ticket < |h.log|
    ensures h.log[h.popped[i].ticket] == h.popped[i] && h.log[h.popped[j].ticket] == h.popped[j]
  {
    var tt := h.popped[i].tt;
    PI.OnlySorted(h.log, tt);
    forall a, b | 0 <= a < b < |PI.Only(h.popped, tt)|
      ensures PI.Only(h.popped, tt)[a].ticket < PI.Only(h.popped, tt)[b].ticket
    {
      assert PI.Only(h.log, tt)[a] == PI.Only(h.popped, tt)[a] && PI.Only(h.log, tt)[b] == PI.Only(h.popped, tt)[b];
    }
    SortedPairs(h.popped, tt);
    PoppedWasQueued(h, q, i);
    PoppedWasQueued(h, q, j);
  }

  lemma PoppedWasQueued<T>(h: P.History<T>, q: Queues<P.Job<T>>, i: nat)
    requires PI.Balanced(h, q) && i < |h.popped|
    ensures h.popped[i].ticket < |h.log| && h.log[h.popped[i].ticket] == h.popped[i]
  {
    var job := h.popped[i];
    PI.OnlyMembers(h.popped, job.tt, job);
    assert job in PI.Only(h.log, job.tt);
    PI.OnlyMembers(h.log, job.tt, job);
  }

  /** Workers take timers in the order of their ticks, however adders and workers
      interleave, and never the same timer twice. */
  lemma TimersTakenInTickOrder(s: Sys, i: nat, j: nat)
    requires Reachable(s) && i < j < |s.pool.hist.popped|
    requires s.pool.hist.popped[i].tt == s.pool.hist.popped[j].tt == Timer
    ensures var a, b := s.pool.hist.popped[i].task, s.pool.hist.popped[j].task;
            a.Timed? && b.Timed? && a.tick <= b.tick && a.id != b.id
  {
    InvReachable(s);
    PoolIsReachable(s);
    PoppedTickets(s.pool.hist, s.pool.queues, i, j);
  }

  /** A dispatched timer is in exactly one place: the timer queue, or the hands of
      exactly one worker, which has it undecided, in progress, finished or, only
      after exit was raised, dropped. */
  lemma DispatchedTimerHasOnePlace(s: Sys, job: P.Job<Stamp>)
    requires Reachable(s) && job in s.pool.hist.log && job.tt == Timer
    ensures job in s.pool.queues.timer <==> job !in s.pool.hist.popped
    ensures job in s.pool.hist.popped ==>
              exists i :: 0 <= i < |s.pool.workers| && PI.JobOf(s.pool.workers[i]) == Some(job) &&
                (forall k | 0 <= k < |s.pool.workers| && PI.JobOf(s.pool.workers[k]) == Some(job) :: k == i) &&
                (var w := s.pool.workers[i];
                 w.Checking? || PI.InTask(w) || PI.HasStarted(w) || (PI.Dropped(w) && s.pool.exit))
  {
    PoolIsReachable(s);
    var h := s.pool.hist;
    PI.OnlyMembers(h.log, Timer, job);
    PI.OnlyMembers(h.popped, Timer, job);
    assert PI.Only(h.log, Timer) == PI.Only(h.popped, Timer) + s.pool.queues.timer by {
      assert s.pool.queues.Of(Timer) == s.pool.queues.timer;
    }
    PI.OnlySorted(h.log, Timer);
    if job in h.popped {
      NotQueuedTwice(PI.Only(h.log, Timer), PI.Only(h.popped, Timer), s.pool.queues.timer, job);
      var j :| 0 <= j < |h.popped| && h.popped[j] == job;
      PT.EachTakenTaskHasOnePlace(s.pool, j);
    }
  }

  lemma NotQueuedTwice<T>(all: seq<P.Job<T>>, front: seq<P.Job<T>>, back: seq<P.Job<T>>, job: P.Job<T>)
    requires all == front + back && job in front
    requires forall j, k | 0 <= j < k < |all| :: all[j].ticket < all[k].ticket
    ensures job !in back
  {
    var i :| 0 <= i < |front| && front[i] == job;
    assert all[i] == job;
    forall k | 0 <= k < |back|
      ensures back[k] != job
    {
      assert all[|front| + k] == back[k];
    }
  }

  // ---------------------------------------------------------------------- runs

  lemma Extend(s: Sys, steps: seq<Step>, step: Step)
    requires Feasible(s, steps) && Enabled(Exec(s, steps), step)
    ensures Feasible(s, steps + [step]) && Exec(s, steps + [step]) == Apply(Exec(s, steps), step)
  {
    assert (steps + [step])[..|steps|] == steps;
  }

  lemma ReachableStep(s: Sys, step: Step)
    requires Reachable(s) && Enabled(s, step)
    ensures Reachable(Apply(s, step))
  {
    var u: nat, n: nat, a: nat, r: nat, c: nat, steps: seq<Step> :|
      Feasible(Init(u, n, a, r, c), steps) && s == Exec(Init(u, n, a, r, c), steps);
    Extend(Init(u, n, a, r, c), steps, step);
  }

  lemma {:induction false} ReachableRun(s: Sys, more: seq<Step>)
    requires Reachable(s) && Feasible(s, more)
    ensures Reachable(Exec(s, more))
  {
    if more != [] {
      ReachableRun(s, more[..|more| - 1]);
      ReachableStep(Exec(s, more[..|more| - 1]), more[|more| - 1]);
    }
  }
}
