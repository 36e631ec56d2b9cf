/** What the pool promises over every run, for any number of workers, callers of
    add_task and callers of release. */
module PoolTheorems {
  import opened Options
  import opened PoolQueues
  import opened PoolProtocol
  import opened PoolInvariants

  // ---------------------------------------------------------------- release

  lemma {:induction false} QuietExec<T>(s: State<T>, more: seq<Step<T>>)
    requires Inv(s) && Quiet(s) && Feasible(s, more)
    ensures Quiet(Exec(s, more)) && Exec(s, more).hist.started == s.hist.started
  {
    if more != [] {
      var front := more[..|more| - 1];
      QuietExec(s, front);
      InvExec(s, front);
      QuietStep(Exec(s, front), more[|more| - 1]);
    }
  }

  /** Once release has returned no worker is running a task, and on no
      continuation does a worker run one or enter one. */
  lemma ReleaseIsFinal<T(!new)>(s: State<T>, r: nat, more: seq<Step<T>>)
    requires Reachable(s) && r < |s.releasers| && s.releasers[r].Returned?
    requires Feasible(s, more)
    ensures var t := Exec(s, more);
            && t.hist.started == s.hist.started
            && forall i | 0 <= i < |t.workers| :: !InTask(t.workers[i])
  {
    InvReachable(s);
    QuietExec(s, more);
  }

  /** Awake, and bound to see the exit flag before it could block. */
  predicate CannotSleep<T>(s: State<T>, i: nat) {
    s.exit && i < |s.workers| && !s.workers[i].Sleeping? && !s.workers[i].Parking?
  }

  lemma AwakeStep<T>(s: State<T>, i: nat, step: Step<T>)
    requires CannotSleep(s, i) && Enabled(s, step)
    ensures CannotSleep(Apply(s, step), i)
  {
  }

  lemma {:induction false} StaysAwake<T>(s: State<T>, i: nat, more: seq<Step<T>>)
    requires CannotSleep(s, i) && Feasible(s, more)
    ensures CannotSleep(Exec(s, more), i)
  {
    if more != [] {
      StaysAwake(s, i, more[..|more| - 1]);
      AwakeStep(Exec(s, more[..|more| - 1]), i, more[|more| - 1]);
    }
  }

  predicate Asleep<T>(s: State<T>, i: nat) {
    i < |s.workers| && s.workers[i].Sleeping?
  }

  /** The notify_all of release is missed by exactly the worker that has tested
      the exit flag and not yet blocked: that worker, and no other, can be asleep
      afterwards. */
  lemma MissedExactlyWhenParking<T(!new)>(s: State<T>, r: nat, i: nat)
    requires Reachable(s) && r < |s.releasers| && s.releasers[r].Stored? && i < |s.workers|
    ensures s.workers[i].Parking? <==>
            exists more: seq<Step<T>> ::
              Feasible(Apply(s, Release(r)), more) && Asleep(Exec(Apply(s, Release(r)), more), i)
  {
    InvReachable(s);
    var t := Apply(s, Release(r));
    if s.workers[i].Parking? {
      var more := [Work(i)];
      assert more[..0] == [] && Feasible(t, more[..0]);
      assert t.workers[i].Parking? && Enabled(t, Work(i));
      assert Exec(t, more) == WorkerStep(t, i);
      assert Feasible(t, more) && Asleep(Exec(t, more), i);
    } else {
      assert CannotSleep(t, i);
      forall more: seq<Step<T>> | Feasible(t, more)
        ensures !Asleep(Exec(t, more), i)
      {
        StaysAwake(t, i, more);
      }
    }
  }

  /** One worker, one releaser, nothing queued: the states of the run below. */
  function Duo(lock: Option<Thread>, exit: bool, w: Worker<int>, r: Releaser): State<int> {
    State(lock, exit, 0, -1, true, 1, Queues([], [], []), [w], [], [r], History([], [], [], [], [], []))
  }

  ghost predicate Leads(s: State<int>, step: Step<int>, t: State<int>) {
    Enabled(s, step) && Apply(s, step) == t
  }

  lemma WorkerParksThenReleaserNotifies()
    ensures Leads(Duo(None, false, Born, Fresh), Work(0), Duo(Some(W(0)), false, Testing, Fresh))
    ensures Leads(Duo(Some(W(0)), false, Testing, Fresh), Work(0), Duo(Some(W(0)), false, Drained, Fresh))
    ensures Leads(Duo(Some(W(0)), false, Drained, Fresh), Work(0), Duo(Some(W(0)), false, Parking, Fresh))
    ensures Leads(Duo(Some(W(0)), false, Parking, Fresh), Release(0), Duo(Some(W(0)), true, Parking, Stored))
  {
  }

  lemma ReleaserReturnsPastTheSleeper()
    ensures Leads(Duo(Some(W(0)), true, Parking, Stored), Release(0), Duo(Some(W(0)), true, Parking, Acquiring))
    ensures Leads(Duo(Some(W(0)), true, Parking, Acquiring), Work(0), Duo(None, true, Sleeping, Acquiring))
    ensures Leads(Duo(None, true, Sleeping, Acquiring), Release(0), Duo(Some(R(0)), true, Sleeping, Looking))
    ensures Leads(Duo(Some(R(0)), true, Sleeping, Looking), Release(0), Duo(Some(R(0)), true, Sleeping, Returning))
    ensures Leads(Duo(Some(R(0)), true, Sleeping, Returning), Release(0), Duo(None, true, Sleeping, Returned))
  {
    var s := Duo(Some(W(0)), true, Parking, Stored);
    assert Apply(s, Release(0)).workers == s.workers;
  }

  lemma InitialDuo()
    ensures Reachable(Duo(None, false, Born, Fresh))
  {
    var s0 := Init<int>(1, 0, 1);
    var one: seq<Step<int>>, steps: seq<Step<int>> := [Start], [Start, Start];
    assert steps[..1] == one && one[..0] == [];
    assert s0.workers == [Unborn] && s0.releasers == [Fresh] && s0.adders == [];
    assert Feasible(s0, []) && Exec(s0, []) == s0;
    assert Feasible(s0, one) && Exec(s0, one) == StartStep(s0);
    assert Feasible(s0, steps) && Exec(s0, steps) == Duo(None, false, Born, Fresh);
  }

  lemma ReachableStep<T(!new)>(s: State<T>, step: Step<T>)
    requires Reachable(s) && Enabled(s, step)
    ensures Reachable(Apply(s, step))
  {
    var n: nat, a: nat, r: nat, steps: seq<Step<T>> :|
      Feasible(Init<T>(n, a, r), steps) && s == Exec(Init<T>(n, a, r), steps);
    var longer := steps + [step];
    assert longer[..|steps|] == steps;
    assert Feasible(Init<T>(n, a, r), longer) && Apply(s, step) == Exec(Init<T>(n, a, r), longer);
  }

  /** A run in which release returns while the only worker is asleep. */
  lemma ReleaseLeavesASleeper()
    ensures Reachable(Duo(None, true, Sleeping, Returned))
  {
    InitialDuo();
    WorkerParksThenReleaserNotifies();
    ReleaserReturnsPastTheSleeper();
    ReachableStep(Duo(None, false, Born, Fresh), Work(0));
    ReachableStep(Duo(Some(W(0)), false, Testing, Fresh), Work(0));
    ReachableStep(Duo(Some(W(0)), false, Drained, Fresh), Work(0));
    ReachableStep(Duo(Some(W(0)), false, Parking, Fresh), Release(0));
    ReachableStep(Duo(Some(W(0)), true, Parking, Stored), Release(0));
    ReachableStep(Duo(Some(W(0)), true, Parking, Acquiring), Work(0));
    ReachableStep(Duo(None, true, Sleeping, Acquiring), Release(0));
    ReachableStep(Duo(Some(R(0)), true, Sleeping, Looking), Release(0));
    ReachableStep(Duo(Some(R(0)), true, Sleeping, Returning), Release(0));
  }

  // --------------------------------------------------------------- wake-ups

  /** A task never waits behind a sleeping worker without a notification under way. */
  lemma NoLostWakeUp<T(!new)>(s: State<T>, i: nat)
    requires Reachable(s) && i < |s.workers| && s.workers[i].Sleeping? && !s.queues.Empty()
    ensures exists a :: 0 <= a < |s.adders| && OwesNotify(s.adders[a])
  {
    InvReachable(s);
  }

  /** When only sleepers could still move and a task is queued, no worker is
      left at all: each has run or dropped its one task. */
  lemma LeftoverMeansUsedUp<T(!new)>(s: State<T>)
    requires Reachable(s) && s.inited && s.lock == None && !s.queues.Empty()
    requires forall a | 0 <= a < |s.adders| :: s.adders[a].Idle?
    requires forall i | 0 <= i < |s.workers| && Enabled(s, Work(i)) :: s.workers[i].Sleeping?
    ensures forall i | 0 <= i < |s.workers| :: s.workers[i].Gone?
  {
    InvReachable(s);
    forall i | 0 <= i < |s.workers|
      ensures s.workers[i].Gone?
    {
      assert !s.workers[i].Unborn?;
      assert Enabled(s, Work(i)) || s.workers[i].Gone?;
    }
  }

  // ----------------------------------------------------------- conservation

  lemma LastRepeated<T>(jobs: seq<Job<T>>, j: nat)
    requires jobs != []
    requires var last, front := jobs[|jobs| - 1], jobs[..|jobs| - 1];
             j < |Only(front, last.tt)| && Only(front, last.tt)[j] == last
    ensures var row := Only(jobs, jobs[|jobs| - 1].tt); j < |row| - 1 && row[j] == row[|row| - 1]
  {
  }

  lemma {:induction false} SortedIsDistinct<T>(jobs: seq<Job<T>>)
    requires forall tt: TaskType, j, k | 0 <= j < k < |Only(jobs, tt)| ::
               Only(jobs, tt)[j].ticket < Only(jobs, tt)[k].ticket
    ensures forall j, k | 0 <= j < k < |jobs| :: jobs[j] != jobs[k]
  {
    if jobs != [] {
      var front, last := jobs[..|jobs| - 1], jobs[|jobs| - 1];
      forall tt: TaskType, j, k | 0 <= j < k < |Only(front, tt)|
        ensures Only(front, tt)[j].ticket < Only(front, tt)[k].ticket
      {
        assert Only(front, tt)[j] == Only(jobs, tt)[j] && Only(front, tt)[k] == Only(jobs, tt)[k];
      }
      SortedIsDistinct(front);
      if last in front {
        OnlyMembers(front, last.tt, last);
        var j :| 0 <= j < |Only(front, last.tt)| && Only(front, last.tt)[j] == last;
        LastRepeated(jobs, j);
        assert false;
      }
    }
  }

  lemma PoppedDistinct<T>(h: History<T>, q: Queues<Job<T>>)
    requires Balanced(h, q)
    ensures forall j, k | 0 <= j < k < |h.popped| :: h.popped[j] != h.popped[k]
  {
    forall tt: TaskType, j, k | 0 <= j < k < |Only(h.popped, tt)|
      ensures Only(h.popped, tt)[j].ticket < Only(h.popped, tt)[k].ticket
    {
      OnlySorted(h.log, tt);
      assert Only(h.log, tt)[j] == Only(h.popped, tt)[j] && Only(h.log, tt)[k] == Only(h.popped, tt)[k];
    }
    SortedIsDistinct(h.popped);
  }

  /** Class by class the queue is first in, first out and loses nothing; at most
      one task is ever taken per worker. */
  lemma TasksConserved<T(!new)>(s: State<T>, tt: TaskType)
    requires Reachable(s)
    ensures Only(s.hist.log, tt) == Only(s.hist.popped, tt) + s.queues.Of(tt)
    ensures |s.hist.popped| <= |s.workers|
  {
    InvReachable(s);
    CountBounds(s.workers, WithJob);
  }

  /** Each taken task is in the hands of exactly one worker, which has it
      undecided, in progress, finished or, only after exit was raised, dropped. */
  lemma EachTakenTaskHasOnePlace<T(!new)>(s: State<T>, j: nat)
    requires Reachable(s) && j < |s.hist.popped|
    ensures exists i :: 0 <= i < |s.workers| && JobOf(s.workers[i]) == Some(s.hist.popped[j])
    ensures forall i, k | 0 <= i < |s.workers| && 0 <= k < |s.workers| ::
              JobOf(s.workers[i]) == JobOf(s.workers[k]) == Some(s.hist.popped[j]) ==> i == k
    ensures forall i | 0 <= i < |s.workers| && JobOf(s.workers[i]) == Some(s.hist.popped[j]) ::
              var w := s.workers[i];
              w.Checking? || InTask(w) || HasStarted(w) || (Dropped(w) && s.exit)
  {
    InvReachable(s);
    PoppedDistinct(s.hist, s.queues);
    assert JobOf(s.workers[s.hist.takers[j]]) == Some(s.hist.popped[j]);
    forall i | 0 <= i < |s.workers| && JobOf(s.workers[i]) == Some(s.hist.popped[j])
      ensures i == s.hist.takers[j]
    {
      assert HasJob(s.workers[i]);
      var k :| 0 <= k < |s.hist.takers| && s.hist.takers[k] == i;
      assert s.hist.popped[k] == s.hist.popped[j];
    }
  }

  /** No task is entered twice, and only tasks taken from a queue are entered. */
  lemma NoTaskStartsTwice<T(!new)>(s: State<T>, j: nat, k: nat)
    requires Reachable(s) && j < k < |s.hist.started|
    ensures s.hist.started[j] < |s.workers| && s.hist.started[k] < |s.workers|
    ensures var a, b := JobOf(s.workers[s.hist.started[j]]), JobOf(s.workers[s.hist.started[k]]);
            a.Some? && b.Some? && a != b && a.value in s.hist.popped && b.value in s.hist.popped
  {
    InvReachable(s);
    var x, y := s.hist.started[j], s.hist.started[k];
    assert x in s.hist.started && y in s.hist.started;
    assert HasStarted(s.workers[x]) && HasStarted(s.workers[y]);
    var p :| 0 <= p < |s.hist.takers| && s.hist.takers[p] == x;
    EachTakenTaskHasOnePlace(s, p);
    var q :| 0 <= q < |s.hist.takers| && s.hist.takers[q] == y;
  }

  // ------------------------------------------------------------------ order

  ghost predicate Grown<T>(s: State<T>, t: State<T>) {
    && s.hist.log <= t.hist.log && s.hist.popped <= t.hist.popped
    && |t.hist.moments| == |t.hist.popped|
    && forall j | |s.hist.popped| <= j < |t.hist.popped| :: t.hist.moments[j] >= |s.hist.log|
  }

  lemma GrownStep<T>(s: State<T>, t: State<T>, step: Step<T>)
    requires Grown(s, t) && Enabled(t, step)
    ensures Grown(s, Apply(t, step))
  {
  }

  lemma {:induction false} HistoryGrows<T>(s: State<T>, more: seq<Step<T>>)
    requires Inv(s) && Feasible(s, more)
    ensures Grown(s, Exec(s, more))
  {
    if more != [] {
      HistoryGrows(s, more[..|more| - 1]);
      GrownStep(s, Exec(s, more[..|more| - 1]), more[|more| - 1]);
    }
  }

  /** Whole-run priority and fairness: a task queued by state s is taken before
      every task of a lower class, and every later task of its own class, that is
      taken after s. */
  lemma ServedInOrder<T(!new)>(s: State<T>, more: seq<Step<T>>, a: Job<T>, j: nat)
    requires Reachable(s) && Feasible(s, more) && a in s.hist.log
    requires |s.hist.popped| <= j < |Exec(s, more).hist.popped|
    requires Precedes(a, Exec(s, more).hist.popped[j])
    ensures a in Exec(s, more).hist.popped[..j]
  {
    InvReachable(s);
    InvExec(s, more);
    HistoryGrows(s, more);
    var t := Exec(s, more);
    var k :| 0 <= k < |s.hist.log| && s.hist.log[k] == a;
    assert t.hist.log[k] == a;
  }

  // ------------------------------------------------------ counter and mutex

  /** The counter is exact and in range, and a worker that is about to run, is
      running or has run a task holds one it took: it never calls an empty function. */
  lemma CounterAndCallable<T(!new)>(s: State<T>)
    requires Reachable(s)
    ensures s.running == Count(s.workers, InCounter) && 0 <= s.running <= |s.workers|
    ensures forall i | 0 <= i < |s.workers| && (InTask(s.workers[i]) || HasStarted(s.workers[i])) ::
              JobOf(s.workers[i]).Some? && JobOf(s.workers[i]).value in s.hist.popped
  {
    InvReachable(s);
    CountBounds(s.workers, InCounter);
    forall i | 0 <= i < |s.workers| && (InTask(s.workers[i]) || HasStarted(s.workers[i]))
      ensures JobOf(s.workers[i]).Some? && JobOf(s.workers[i]).value in s.hist.popped
    {
      var p :| 0 <= p < |s.hist.takers| && s.hist.takers[p] == i;
    }
  }

  /** The step by which a thread moves on. */
  function MoveOf<T>(t: Thread): Step<T> {
    match t
    case W(i) => Work(i)
    case A(a) => Add(a)
    case R(r) => Release(r)
  }

  /** How many moves the holder of the mutex needs to give it up, at most. */
  function HoldingTime<T>(s: State<T>): nat {
    match s.lock
    case Some(W(i)) =>
      if i >= |s.workers| then 0 else
      (match s.workers[i]
       case Testing => 5
       case Drained => 4
       case Checking(_) => 3
       case Passed(_) => 2
       case Closing(_) => 2
       case _ => 1)
    case Some(A(a)) => if a < |s.adders| && s.adders[a].Holding? then 2 else 1
    case Some(R(r)) => if r < |s.releasers| && s.releasers[r].Looking? then 2 else 1
    case None => 0
  }

  lemma HolderMoves<T>(s: State<T>)
    requires LockInv(s) && s.lock.Some?
    ensures Enabled(s, MoveOf(s.lock.value))
    ensures var t := Apply(s, MoveOf(s.lock.value));
            t.lock == None || (t.lock == s.lock && HoldingTime(t) < HoldingTime(s))
  {
    match s.lock.value {
      case W(i) => assert WorkerHolds(s.workers[i]);
      case A(a) => assert AdderHolds(s.adders[a]);
      case R(r) => assert ReleaserHolds(s.releasers[r]);
    }
  }

  /** No mutex deadlock: whoever holds the mutex can move, alone, and within
      five moves has given it up. */
  lemma {:induction false} HolderFinishes<T>(s: State<T>) returns (moves: seq<Step<T>>)
    requires Inv(s) && s.lock.Some?
    ensures |moves| <= HoldingTime(s) <= 5
    ensures forall m | m in moves :: m == MoveOf<T>(s.lock.value)
    ensures Feasible(s, moves) && Exec(s, moves).lock == None
    decreases HoldingTime(s)
  {
    var m := MoveOf<T>(s.lock.value);
    HolderMoves(s);
    var t := Apply(s, m);
    var rest := [];
    if t.lock.Some? {
      InvStep(s, m);
      rest := HolderFinishes(t);
    }
    Prepend(s, m, rest);
    moves := [m] + rest;
  }

  lemma {:induction false} Prepend<T>(s: State<T>, m: Step<T>, rest: seq<Step<T>>)
    requires Enabled(s, m) && Feasible(Apply(s, m), rest)
    ensures Feasible(s, [m] + rest) && Exec(s, [m] + rest) == Exec(Apply(s, m), rest)
  {
    var all := [m] + rest;
    if rest == [] {
      assert all[..0] == [] && all[|all| - 1] == m;
    } else {
      Prepend(s, m, rest[..|rest| - 1]);
      assert all[..|all| - 1] == [m] + rest[..|rest| - 1];
      assert all[|all| - 1] == rest[|rest| - 1];
    }
  }

  // ------------------------------------------------------- direct execution

  /** A highest-priority task is meant to get its own thread when all threads
      are busy.  It gets one exactly while init_thread_pool has not finished and
      no task is running; afterwards the recorded thread count is -1 and every
      such task is queued, however busy the workers are. */
  lemma DirectExactlyBeforeInit<T(!new)>(s: State<T>, a: nat)
    requires Reachable(s) && a < |s.adders| && s.adders[a].Holding?
    ensures var t := Apply(s, Add(a));
            |t.hist.direct| == |s.hist.direct| + 1 <==>
            s.adders[a].tt == Highest && !s.inited && s.running == 0
  {
    InvReachable(s);
    CountBounds(s.workers, InCounter);
  }

  // One worker, initialisation finished, one caller of add_task.

  function Crew(lock: Option<Thread>, running: int, q: Queues<Job<int>>, w: Worker<int>, a: Adder<int>,
                h: History<int>): State<int> {
    State(lock, false, running, -1, true, 1, q, [w], [a], [], h)
  }

  const ORDINARY: Job<int> := Job(0, Normal, 7)
  const NONE: Queues<Job<int>> := Queues([], [], [])
  const ONE: Queues<Job<int>> := Queues([], [], [ORDINARY])
  const EMPTY: History<int> := History([], [], [], [], [], [])
  const QUEUED: History<int> := EMPTY.(log := [ORDINARY])
  const TAKEN: History<int> := QUEUED.(popped := [ORDINARY], takers := [0], moments := [1])
  const STARTED: History<int> := TAKEN.(started := [0])

  /** An ordinary task is queued and started, then a highest-priority one comes:
      the states of that run and the steps between them. */
  function Stage(k: nat): State<int> {
    match k
    case 0 => Crew(None, 0, NONE, Born, Idle, EMPTY)
    case 1 => Crew(None, 0, NONE, Born, Wanting(Normal, 7), EMPTY)
    case 2 => Crew(Some(A(0)), 0, NONE, Born, Holding(Normal, 7), EMPTY)
    case 3 => Crew(Some(A(0)), 0, ONE, Born, Pushed(true), QUEUED)
    case 4 => Crew(None, 0, ONE, Born, Notifying(true), QUEUED)
    case 5 => Crew(None, 0, ONE, Born, Idle, QUEUED)
    case 6 => Crew(Some(W(0)), 0, ONE, Testing, Idle, QUEUED)
    case 7 => Crew(Some(W(0)), 0, NONE, Checking(Some(ORDINARY)), Idle, TAKEN)
    case 8 => Crew(Some(W(0)), 0, NONE, Passed(Some(ORDINARY)), Idle, TAKEN)
    case 9 => Crew(Some(W(0)), 1, NONE, Counted(Some(ORDINARY)), Idle, TAKEN)
    case 10 => Crew(None, 1, NONE, Running(Some(ORDINARY)), Idle, STARTED)
    case 11 => Crew(None, 1, NONE, Running(Some(ORDINARY)), Wanting(Highest, 8), STARTED)
    case _ => Crew(Some(A(0)), 1, NONE, Running(Some(ORDINARY)), Holding(Highest, 8), STARTED)
  }

  function StageMove(k: nat): Step<int> {
    if k == 0 then Begin(0, Normal, 7)
    else if k == 10 then Begin(0, Highest, 8)
    else if 5 <= k <= 9 then Work(0)
    else Add(0)
  }

  lemma StageStep(k: nat)
    requires k < 12
    ensures Leads(Stage(k), StageMove(k), Stage(k + 1))
  {
  }

  lemma InitialCrew()
    ensures Reachable(Stage(0))
  {
    var s0 := Init<int>(1, 1, 0);
    var one: seq<Step<int>>, steps: seq<Step<int>> := [Start], [Start, Start];
    assert steps[..1] == one && one[..0] == [];
    assert s0.workers == [Unborn] && s0.adders == [Idle] && s0.releasers == [];
    assert Feasible(s0, []) && Exec(s0, []) == s0;
    assert Feasible(s0, one) && Exec(s0, one) == StartStep(s0);
    assert Feasible(s0, steps) && Exec(s0, steps) == Stage(0);
  }

  lemma {:induction false} StagesReachable(k: nat)
    requires k <= 12
    ensures Reachable(Stage(k))
  {
    if k == 0 {
      InitialCrew();
    } else {
      StagesReachable(k - 1);
      StageStep(k - 1);
      ReachableStep(Stage(k - 1), StageMove(k - 1));
    }
  }

  /** A run in which every worker is inside a task and a highest-priority task is
      queued behind them instead of getting a thread of its own. */
  lemma BusyYetQueued()
    ensures Reachable(Stage(12)) && Stage(12).inited && Stage(12).adders[0] == Holding(Highest, 8)
    ensures forall i | 0 <= i < |Stage(12).workers| :: Stage(12).workers[i].Running?
    ensures var t := Apply(Stage(12), Add(0));
            t.hist.direct == [] && t.queues.highest == [Job(1, Highest, 8)]
  {
    StagesReachable(12);
  }
}
