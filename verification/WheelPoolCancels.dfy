/** What an answer of true from cancel_timer is worth, over every interleaving. */
module WheelPoolCancels {
  import opened Options
  import opened PoolQueues
  import P = PoolProtocol
  import PI = PoolInvariants
  import PT = PoolTheorems
  import W = Wheel
  import opened WheelPool
  import opened WheelPoolInvariants
  import opened WheelPoolTheorems

  /** A tick has tested the cell of timer id and not finished its add_task call. */
  predicate BeingDispatched(s: Sys, id: nat) {
    Holder(s).Calling? && Holder(s).k < |Here(s)| && Here(s)[Holder(s).k].id == id
  }

  /** Not dispatched, not about to be, and stopped for good. */
  ghost predicate Stopped(s: Sys, id: nat) {
    && 1 <= id <= s.wheel.cid
    && !Dispatched(s, id) && !BeingDispatched(s, id)
    && Dead(s.wheel, id)
  }

  predicate Dead(w: W.State<Callable>, id: nat) {
    var c := W.Lookup(w, id); c.Some? ==> c.value.count < 0 || !c.value.valid
  }

  lemma DeadAdd(w: W.State<Callable>, ms: int, task: Callable, id: nat)
    requires W.Inv(w) && id <= w.cid && Dead(w, id)
    ensures Dead(W.Add(w, ms, task), id)
  {
    W.AddLookup(w, W.Rem(ms + w.cur), W.Quot(ms + w.cur), task, id);
  }

  lemma DeadMove(s: Sys, u: nat, id: nat)
    requires Inv(s) && id <= s.wheel.cid && Dead(s.wheel, id) && Enabled(s, Move(u))
    ensures Dead(Apply(s, Move(u)).wheel, id)
  {
    match s.agents[u] {
      case Inserting(ms, task) => DeadAdd(s.wheel, ms, task, id);
      case Lowering(k) => LowerLookup(s.wheel, k, id);
      case _ =>
    }
  }

  /** A tick does not start a call for a timer without a live, valid cell. */
  lemma NoNewCall(s: Sys, u: nat, id: nat)
    requires Inv(s) && Dead(s.wheel, id) && Enabled(s, Move(u)) && !BeingDispatched(s, id)
    ensures !BeingDispatched(Apply(s, Move(u)), id)
  {
    if s.agents[u].Scanning? && s.agents[u].k < |Here(s)| {
      HereLookup(s, s.agents[u].k);
    }
  }

  lemma StoppedMove(s: Sys, u: nat, id: nat)
    requires Inv(s) && Stopped(s, id) && Enabled(s, Move(u))
    ensures Stopped(Apply(s, Move(u)), id)
  {
    assert Dead(s.wheel, id);
    MoveWheel(s, u);
    DeadMove(s, u, id);
    NoNewCall(s, u, id);
    assert Dead(Apply(s, Move(u)).wheel, id);
  }

  lemma StoppedPool(s: Sys, p: P.Step<Stamp>, id: nat)
    requires Inv(s) && Stopped(s, id) && Enabled(s, Pool(p))
    ensures Stopped(Apply(s, Pool(p)), id)
  {
    var t := Apply(s, Pool(p));
    PoolLog(s, p);
    if Dispatched(t, id) {
      NewDispatch(s.pool.hist.log, t.pool.hist.log, id);
    }
  }

  lemma StoppedCancel(s: Sys, step: Step, id: nat)
    requires Inv(s) && Stopped(s, id) && Enabled(s, step) && (step.Look? || step.Test? || step.Store?)
    ensures Stopped(Apply(s, step), id)
  {
    CancelLookups(s, step, id);
    CancelHere(s, step);
  }

  lemma {:induction false} StoppedStep(s: Sys, step: Step, id: nat)
    requires Inv(s) && Stopped(s, id) && Enabled(s, step)
    ensures Stopped(Apply(s, step), id)
  {
    match step {
      case Pool(p) => StoppedPool(s, p, id);
      case Move(u) => StoppedMove(s, u, id);
      case AskInsert(_, _, _) =>
      case AskTick(_) =>
      case _ => StoppedCancel(s, step, id);
    }
  }

  lemma {:induction false} StoppedForGood(s: Sys, more: seq<Step>, id: nat)
    requires Inv(s) && Stopped(s, id) && Feasible(s, more)
    ensures !Dispatched(Exec(s, more), id)
    ensures Inv(Exec(s, more)) && Stopped(Exec(s, more), id)
  {
    if more != [] {
      var front := more[..|more| - 1];
      StoppedForGood(s, front, id);
      InvStep(Exec(s, front), more[|more| - 1]);
      StoppedStep(Exec(s, front), more[|more| - 1], id);
    }
  }

  /** Once the store is done the timer has no live, valid cell: the cell found
      is its own, or has gone to another timer since. */
  lemma StoreKills(s: Sys, c: nat)
    requires Inv(s) && Enabled(s, Store(c))
    ensures Dead(Apply(s, Store(c)).wheel, s.cancellers[c].id)
  {
    var f := s.cancellers[c];
    assert Aimed(s.wheel, f.id, f.slot, f.j);
    ClearLookup(s.wheel, f.slot, f.j, f.id);
  }

  lemma StoreStops(s: Sys, c: nat)
    requires Inv(s) && Enabled(s, Store(c))
    requires !Dispatched(s, s.cancellers[c].id) && !BeingDispatched(s, s.cancellers[c].id)
    ensures Stopped(Apply(s, Store(c)), s.cancellers[c].id)
  {
    var f := s.cancellers[c];
    assert Aimed(s.wheel, f.id, f.slot, f.j);
    StoreKills(s, c);
    CancelHere(s, Store(c));
  }

  // The other direction: a call under way can always be brought to its push.

  function Lift(moves: seq<P.Step<Stamp>>): seq<Step> {
    seq(|moves|, i requires 0 <= i < |moves| => Pool(moves[i]))
  }

  lemma {:induction false} LiftFeasible(s: Sys, moves: seq<P.Step<Stamp>>)
    requires P.Feasible(s.pool, moves) && forall m | m in moves :: !m.Begin?
    ensures Feasible(s, Lift(moves))
    ensures Exec(s, Lift(moves)) == s.(pool := P.Exec(s.pool, moves))
  {
    if moves != [] {
      var n := |moves| - 1;
      LiftFeasible(s, moves[..n]);
      assert Lift(moves)[..n] == Lift(moves[..n]);
    }
  }

  /** A call of add_task that stands before its push, with the pool's mutex or
      next in line for a free one, is two moves from it. */
  lemma {:induction false} PushFrom(s: Sys, steps: seq<Step>, u: nat, id: nat, tick: nat) returns (more: seq<Step>)
    requires Feasible(s, steps)
    requires var t := Exec(s, steps);
             && u < |t.pool.adders| && BeforePush(t.pool.adders[u])
             && t.pool.adders[u].tt == Timer && t.pool.adders[u].task == Timed(id, tick)
             && (t.pool.adders[u].Wanting? ==> t.pool.lock == None)
    ensures Feasible(s, more) && Dispatched(Exec(s, more), id)
    decreases if Exec(s, steps).pool.adders[u].Wanting? then 1 else 0
  {
    var t := Exec(s, steps);
    Extend(s, steps, Pool(P.Add(u)));
    var t' := Apply(t, Pool(P.Add(u)));
    if t.pool.adders[u].Wanting? {
      more := PushFrom(s, steps + [Pool(P.Add(u))], u, id, tick);
    } else {
      more := steps + [Pool(P.Add(u))];
      assert IsDispatch(t'.pool.hist.log, |t.pool.hist.log|, id);
    }
  }

  lemma HolderMovesFreeLock(s: Sys, u: nat) returns (moves: seq<P.Step<Stamp>>)
    requires PI.Inv(s.pool) && u < |s.pool.adders| && s.pool.adders[u].Wanting?
    ensures P.Feasible(s.pool, moves) && forall m | m in moves :: !m.Begin?
    ensures P.Exec(s.pool, moves).lock == None && u < |P.Exec(s.pool, moves).adders|
    ensures P.Exec(s.pool, moves).adders[u] == s.pool.adders[u]
  {
    if s.pool.lock == None {
      moves := [];
    } else {
      moves := PT.HolderFinishes(s.pool);
      OthersUnmoved(s.pool, moves, u);
    }
  }

  lemma {:induction false} OthersUnmoved(p: P.State<Stamp>, moves: seq<P.Step<Stamp>>, u: nat)
    requires P.Feasible(p, moves) && u < |p.adders|
    requires forall m | m in moves :: !m.Begin? && m != P.Add(u)
    ensures u < |P.Exec(p, moves).adders| && P.Exec(p, moves).adders[u] == p.adders[u]
  {
    if moves != [] {
      OthersUnmoved(p, moves[..|moves| - 1], u);
    }
  }

  lemma {:induction false} CallCanFinish(s: Sys, id: nat) returns (more: seq<Step>)
    requires Inv(s) && PI.Inv(s.pool) && BeingDispatched(s, id) && BeforePush(HolderCall(s))
    ensures Feasible(s, more) && Dispatched(Exec(s, more), id)
  {
    var u := s.wlock.value;
    var moves: seq<P.Step<Stamp>> := [];
    if s.pool.adders[u].Wanting? {
      moves := HolderMovesFreeLock(s, u);
    }
    LiftFeasible(s, moves);
    more := PushFrom(s, Lift(moves), u, id, s.now);
  }

  /** When the call is past its push the timer is in the log. */
  ghost predicate PushedInv(s: Sys) {
    Holder(s).Calling? && !BeforePush(HolderCall(s)) ==>
      Holder(s).k < |Here(s)| && Dispatched(s, Here(s)[Holder(s).k].id)
  }

  lemma PushedStep(s: Sys, step: Step)
    requires Inv(s) && PushedInv(s) && Enabled(s, step)
    ensures PushedInv(Apply(s, step))
  {
    var t := Apply(s, step);
    match step {
      case Pool(p) =>
        PoolLog(s, p);
        if Holder(s).Calling? && Holder(s).k < |Here(s)| {
          KeepsDispatch(s, t, Here(s)[Holder(s).k].id);
        }
      case Move(_) =>
      case AskInsert(_, _, _) =>
      case AskTick(_) =>
      case _ => CancelHere(s, step);
    }
  }

  lemma KeepsDispatch(s: Sys, t: Sys, id: nat)
    requires |s.pool.hist.log| <= |t.pool.hist.log| && t.pool.hist.log[..|s.pool.hist.log|] == s.pool.hist.log
    ensures Dispatched(s, id) ==> Dispatched(t, id)
    ensures |t.pool.hist.log| == |s.pool.hist.log| + 1 && IsDispatch(t.pool.hist.log, |s.pool.hist.log|, id) ==>
              Dispatched(t, id)
  {
    if Dispatched(s, id) {
      var j: nat :| IsDispatch(s.pool.hist.log, j, id);
      assert t.pool.hist.log[..|s.pool.hist.log|][j] == t.pool.hist.log[j];
      assert IsDispatch(t.pool.hist.log, j, id);
    }
  }

  lemma {:induction false} PushedExec(s: Sys, steps: seq<Step>)
    requires Inv(s) && PushedInv(s) && Feasible(s, steps)
    ensures Inv(Exec(s, steps)) && PushedInv(Exec(s, steps))
  {
    if steps != [] {
      PushedExec(s, steps[..|steps| - 1]);
      InvStep(Exec(s, steps[..|steps| - 1]), steps[|steps| - 1]);
      PushedStep(Exec(s, steps[..|steps| - 1]), steps[|steps| - 1]);
    }
  }

  lemma PushedReachable(s: Sys)
    requires Reachable(s)
    ensures PushedInv(s)
  {
    var u: nat, n: nat, a: nat, r: nat, c: nat, steps: seq<Step> :|
      Feasible(Init(u, n, a, r, c), steps) && s == Exec(Init(u, n, a, r, c), steps);
    InitKeeps(u, n, a, r, c);
    PushedExec(Init(u, n, a, r, c), steps);
  }

  // -------------------------------------------------------- what cancel is worth

  /** Some continuation hands timer id to the pool, or has done so already. */
  ghost predicate CanBeDispatched(s: Sys, id: nat) {
    exists more :: Feasible(s, more) && Dispatched(Exec(s, more), id)
  }

  lemma DispatchedCanBe(s: Sys, id: nat)
    requires Dispatched(s, id)
    ensures CanBeDispatched(s, id)
  {
    var none: seq<Step> := [];
    assert Feasible(s, none) && Exec(s, none) == s;
  }

  lemma {:induction false} StoppedCannotBe(s: Sys, id: nat)
    requires Inv(s) && Stopped(s, id)
    ensures !CanBeDispatched(s, id)
  {
    forall more | Feasible(s, more)
      ensures !Dispatched(Exec(s, more), id)
    {
      StoppedForGood(s, more, id);
    }
  }

  lemma StoreLeavesTheCall(s: Sys, c: nat, id: nat)
    requires Inv(s) && PI.Inv(s.pool) && Enabled(s, Store(c)) && BeingDispatched(s, id) && BeforePush(HolderCall(s))
    ensures CanBeDispatched(Apply(s, Store(c)), id)
  {
    var t := Apply(s, Store(c));
    InvStep(s, Store(c));
    CancelHere(s, Store(c));
    var more := CallCanFinish(t, id);
  }

  /** A call of cancel_timer makes its store and so answers true.  Its timer can
      nevertheless reach the pool exactly when, at the store, it is there already
      or a tick has tested its cell and is inside the call of add_task. */
  lemma {:induction false} CancelRaceExactly(s: Sys, c: nat)
    requires Reachable(s) && Enabled(s, Store(c))
    ensures var id := s.cancellers[c].id;
            CanBeDispatched(Apply(s, Store(c)), id) <==> Dispatched(s, id) || BeingDispatched(s, id)
  {
    InvReachable(s);
    var id, t := s.cancellers[c].id, Apply(s, Store(c));
    if Dispatched(s, id) {
      assert Dispatched(t, id);
      DispatchedCanBe(t, id);
    } else if BeingDispatched(s, id) {
      PushedReachable(s);
      PoolIsReachable(s);
      StoreLeavesTheCall(s, c, id);
    } else {
      InvStep(s, Store(c));
      StoreStops(s, c);
      StoppedCannotBe(t, id);
    }
  }

  /** Nobody holds the wheel's mutex at any point of the run. */
  ghost predicate FreeThroughout(s: Sys, more: seq<Step>)
    requires Feasible(s, more)
  {
    Exec(s, more).wlock == None && (more == [] || FreeThroughout(s, more[..|more| - 1]))
  }

  /** A call made with the mutex free has found a cell that is still its timer's,
      and past the test its timer has not been dispatched. */
  ghost predicate Undisturbed(s: Sys, c: nat) {
    c < |s.cancellers| &&
    match s.cancellers[c]
    case Away => true
    case Found(id, slot, j) => j < |W.Bucket(s.wheel.buckets, slot)| && W.Bucket(s.wheel.buckets, slot)[j].id == id
    case Storing(id, _, _) => !Dispatched(s, id)
  }

  lemma FreePool(s: Sys, p: P.Step<Stamp>, id: nat)
    requires Inv(s) && s.wlock == None && Enabled(s, Pool(p)) && !Dispatched(s, id)
    ensures !Dispatched(Apply(s, Pool(p)), id)
  {
    PoolLog(s, p);
    if Dispatched(Apply(s, Pool(p)), id) {
      NewDispatch(s.pool.hist.log, Apply(s, Pool(p)).pool.hist.log, id);
    }
  }

  lemma FreeTest(s: Sys, c: nat)
    requires Inv(s) && s.wlock == None && Undisturbed(s, c) && Enabled(s, Test(c))
    ensures Undisturbed(Apply(s, Test(c)), c)
  {
    var f := s.cancellers[c];
    var t := Apply(s, Test(c));
    CellLookup(s.wheel, f.slot, f.j);
    if t.cancellers[c].Storing? && Dispatched(s, f.id) {
      assert SpentOrWindow(s, f.id);
    }
    assert t.pool == s.pool;
  }

  lemma FreeStep(s: Sys, c: nat, step: Step)
    requires Inv(s) && s.wlock == None && Undisturbed(s, c)
    requires Enabled(s, step) && Apply(s, step).wlock == None
    ensures Undisturbed(Apply(s, step), c)
  {
    match step {
      case Pool(p) =>
        if s.cancellers[c].Storing? {
          FreePool(s, p, s.cancellers[c].id);
        }
      case Test(d) =>
        if d == c {
          FreeTest(s, c);
        }
      case _ =>
    }
  }

  lemma {:induction false} FreeRun(s: Sys, c: nat, more: seq<Step>)
    requires Inv(s) && Undisturbed(s, c) && Feasible(s, more) && FreeThroughout(s, more)
    ensures Inv(Exec(s, more)) && Undisturbed(Exec(s, more), c)
  {
    if more != [] {
      var front := more[..|more| - 1];
      FreeRun(s, c, front);
      InvStep(Exec(s, front), more[|more| - 1]);
      FreeStep(Exec(s, front), c, more[|more| - 1]);
    }
  }

  /** What the comment promises holds when nobody has the wheel's mutex from
      before the search to the store, as would be so had cancel_timer taken it. */
  lemma {:induction false} CancelUnderLockIsFinal(s: Sys, c: nat, more: seq<Step>)
    requires Reachable(s) && c < |s.cancellers| && s.cancellers[c].Away?
    requires Feasible(s, more) && FreeThroughout(s, more) && Enabled(Exec(s, more), Store(c))
    ensures !CanBeDispatched(Apply(Exec(s, more), Store(c)), Exec(s, more).cancellers[c].id)
  {
    InvReachable(s);
    FreeRun(s, c, more);
    ReachableRun(s, more);
    CancelRaceExactly(Exec(s, more), c);
  }

  /** Made in one go, the three steps are the operation on whole wheels. */
  lemma {:induction false} UninterruptedCancel(s: Sys, c: nat, id: nat)
    requires Inv(s) && Enabled(s, Look(c, id))
    ensures var (w, ok) := W.Cancel(s.wheel, id);
            var t := Apply(s, Look(c, id));
            if ok then
              Enabled(t, Test(c)) && Enabled(Apply(t, Test(c)), Store(c)) &&
              Apply(Apply(t, Test(c)), Store(c)) == s.(wheel := w)
            else
              t == s.(wheel := w) || (Enabled(t, Test(c)) && Apply(t, Test(c)) == s.(wheel := w))
  {
    var t := Apply(s, Look(c, id));
    assert s.cancellers[c := Away] == s.cancellers;
    if t.cancellers[c].Found? {
      assert t.cancellers[c := Away] == s.cancellers;
    }
  }

  /** Which timer the store silences: the one in the cell by now.  That is not
      the timer it was asked to stop exactly when that timer's cell is reused. */
  lemma StoreSilences(s: Sys, c: nat, x: nat)
    requires Inv(s) && Enabled(s, Store(c))
    ensures var f := s.cancellers[c];
            var b := W.Bucket(s.wheel.buckets, f.slot);
            && f.j < |b|
            && (b[f.j].id != f.id <==> W.Lookup(s.wheel, f.id) == None)
            && W.Lookup(Apply(s, Store(c)).wheel, x) ==
               if b[f.j].id == x then Some(b[f.j].(valid := false)) else W.Lookup(s.wheel, x)
  {
    var f := s.cancellers[c];
    assert Aimed(s.wheel, f.id, f.slot, f.j);
    ClearLookup(s.wheel, f.slot, f.j, x);
    if W.Bucket(s.wheel.buckets, f.slot)[f.j].id == f.id {
      CellLookup(s.wheel, f.slot, f.j);
    }
  }

  /** What the test of the count looks at: the timer in the cell by now, be it the
      one asked for or, its cell reused, another.  The call goes on to its store
      exactly when that timer is live. */
  lemma TestAsksTheCell(s: Sys, c: nat)
    requires Inv(s) && Enabled(s, Test(c))
    ensures var f, t := s.cancellers[c], Apply(s, Test(c));
            var b := W.Bucket(s.wheel.buckets, f.slot);
            && f.j < |b|
            && (b[f.j].id != f.id <==> W.Lookup(s.wheel, f.id) == None)
            && t.cancellers[c] == (if b[f.j].count >= 0 then Storing(f.id, f.slot, f.j) else Away)
            && t.wheel == s.wheel && t.pool == s.pool && t.agents == s.agents
  {
    var f := s.cancellers[c];
    assert Aimed(s.wheel, f.id, f.slot, f.j);
    if W.Bucket(s.wheel.buckets, f.slot)[f.j].id == f.id {
      CellLookup(s.wheel, f.slot, f.j);
    }
  }

  // One agent, one caller of cancel_timer and no workers: timer 1 is inserted, a
  // call for it finds the cell and, in time or late, passes its test, a tick
  // dispatches the timer, and timer 2 takes over the cell.

  function Solo(wheel: W.State<Callable>, locked: bool, agent: Agent, canceller: Canceller,
                pool: P.State<Stamp>, now: nat): Sys {
    Sys(wheel, if locked then Some(0) else None, [agent], [canceller], pool, now)
  }

  const JOB: P.Job<Stamp> := P.Job(0, Timer, Timed(1, 1))

  function Aside(late: bool): Canceller {
    if late then Found(1, 2, 0) else Storing(1, 2, 0)
  }

  function Quiet(): P.State<Stamp> {
    P.Init(0, 1, 0)
  }

  function Call(a: P.Adder<Stamp>): P.State<Stamp> {
    Quiet().(adders := [a], lock := if P.AdderHolds(a) then Some(P.A(0)) else None)
  }

  function Queued(a: P.Adder<Stamp>): P.State<Stamp> {
    Call(a).(queues := Queues([], [JOB], []), hist := Quiet().hist.(log := [JOB]))
  }

  function First(cur: int, count: int): W.State<Callable> {
    W.State(cur, 1, map[2 := [W.Cell(count, 1, true, 0)]], map[1 := 2])
  }

  function Second(valid: bool): W.State<Callable> {
    W.State(2, 2, map[2 := [W.Cell(1, 2, valid, 0)]], map[1 := 2, 2 := 2])
  }

  function Stage(k: nat, late: bool): Sys {
    match k
    case 0 => Solo(W.Init(), false, Rest, Away, Quiet(), 0)
    case 1 => Solo(W.Init(), false, WantInsert(1, 0), Away, Quiet(), 0)
    case 2 => Solo(W.Init(), true, Inserting(1, 0), Away, Quiet(), 0)
    case 3 => Solo(First(1, 0), true, Inserted, Away, Quiet(), 0)
    case 4 => Solo(First(1, 0), false, Rest, Away, Quiet(), 0)
    case 5 => Solo(First(1, 0), false, Rest, Found(1, 2, 0), Quiet(), 0)
    case 6 => Solo(First(1, 0), false, Rest, Aside(late), Quiet(), 0)
    case 7 => Solo(First(1, 0), false, WantTick, Aside(late), Quiet(), 0)
    case 8 => Solo(First(1, 0), true, Turning, Aside(late), Quiet(), 0)
    case 9 => Solo(First(2, 0), true, Scanning(0), Aside(late), Quiet(), 1)
    case 10 => Solo(First(2, 0), true, Calling(0), Aside(late), Call(P.Wanting(Timer, Timed(1, 1))), 1)
    case 11 => Solo(First(2, 0), true, Calling(0), Aside(late), Call(P.Holding(Timer, Timed(1, 1))), 1)
    case 12 => Solo(First(2, 0), true, Calling(0), Aside(late), Queued(P.Pushed(true)), 1)
    case 13 => Solo(First(2, 0), true, Calling(0), Aside(late), Queued(P.Notifying(true)), 1)
    case 14 => Solo(First(2, 0), true, Calling(0), Aside(late), Queued(P.Idle), 1)
    case 15 => Solo(First(2, 0), true, Lowering(0), Aside(late), Queued(P.Idle), 1)
    case 16 => Solo(First(2, -1), true, Scanning(1), Aside(late), Queued(P.Idle), 1)
    case 17 => Solo(First(2, -1), true, Ticked, Aside(late), Queued(P.Idle), 1)
    case 18 => Solo(First(2, -1), false, Rest, Aside(late), Queued(P.Idle), 1)
    case 19 => Solo(First(2, -1), false, WantInsert(100, 0), Aside(late), Queued(P.Idle), 1)
    case 20 => Solo(First(2, -1), true, Inserting(100, 0), Aside(late), Queued(P.Idle), 1)
    case 21 => Solo(Second(true), true, Inserted, Aside(late), Queued(P.Idle), 1)
    case 22 => Solo(Second(true), false, Rest, Aside(late), Queued(P.Idle), 1)
    case _ => Solo(Second(false), false, Rest, Away, Queued(P.Idle), 1)
  }

  function StageMove(k: nat): Step {
    if k == 0 then AskInsert(0, 1, 0)
    else if k == 4 then Look(0, 1)
    else if k == 5 then Test(0)
    else if k == 6 then AskTick(0)
    else if 10 <= k < 14 then Pool(P.Add(0))
    else if k == 18 then AskInsert(0, 100, 0)
    else if k == 22 then Store(0)
    else Move(0)
  }

  ghost predicate Leads(k: nat, late: bool) {
    Enabled(Stage(k, late), StageMove(k)) && Apply(Stage(k, late), StageMove(k)) == Stage(k + 1, late)
  }

  lemma InsertsFirst()
    ensures W.Add(W.Init(), 1, 0) == First(1, 0)
  {
    assert W.Rem(2) == 2 && W.Quot(2) == 0;
    var c: W.Cell<Callable> := W.Cell(0, 1, true, 0);
    assert W.Place([], c) == [c];
  }

  lemma InsertsSecond()
    ensures W.Add(First(2, -1), 100, 0) == Second(true)
  {
    assert W.Rem(102) == 2 && W.Quot(102) == 1;
    var b: seq<W.Cell<Callable>>, c: W.Cell<Callable> := [W.Cell(-1, 1, true, 0)], W.Cell(1, 2, true, 0);
    assert W.FirstExpired(b) == 0;
    assert W.Place(b, c) == [c];
  }

  lemma LowersFirst()
    ensures LowerCell(First(2, 0), 0) == First(2, -1)
  {
    var b, c: W.Cell<Callable> := W.Bucket(First(2, 0).buckets, 2), W.Cell(-1, 1, true, 0);
    assert b[0 := c] == [c];
  }

  lemma ClearsSecond()
    ensures ClearCell(Second(true), 2, 0) == Second(false)
  {
    var b, c: W.Cell<Callable> := W.Bucket(Second(true).buckets, 2), W.Cell(1, 2, false, 0);
    assert b[0 := c] == [c];
  }

  lemma StagesToLook(k: nat, late: bool)
    requires k < 5
    ensures Leads(k, late)
  {
    InsertsFirst();
    assert W.Find(W.Bucket(First(1, 0).buckets, 2), 1) == 0;
  }

  lemma StagesToCall(k: nat, late: bool)
    requires 5 <= k < 10 && !(late && k == 5)
    ensures Leads(k, late)
  {
  }

  lemma StagesToPush(k: nat, late: bool)
    requires 10 <= k < 14
    ensures Leads(k, late)
  {
  }

  lemma StagesToUnlock(k: nat, late: bool)
    requires 14 <= k < 18
    ensures Leads(k, late)
  {
    LowersFirst();
  }

  lemma StagesToStore(k: nat, late: bool)
    requires 18 <= k < 23 && !(late && k == 22)
    ensures Leads(k, late)
  {
    InsertsSecond();
    ClearsSecond();
  }

  lemma {:induction false} StagesReachable(k: nat, late: bool)
    requires k <= if late then 22 else 23
    ensures Reachable(Stage(k, late))
  {
    if k == 0 {
      var none: seq<Step> := [];
      assert Feasible(Init(1, 0, 0, 0, 1), none) && Exec(Init(1, 0, 0, 0, 1), none) == Stage(0, late);
    } else if late && k == 6 {
      StagesReachable(5, late);
      assert Stage(6, late) == Stage(5, late);
    } else {
      StagesReachable(k - 1, late);
      if k <= 5 {
        StagesToLook(k - 1, late);
      } else if k <= 10 {
        StagesToCall(k - 1, late);
      } else if k <= 14 {
        StagesToPush(k - 1, late);
      } else if k <= 18 {
        StagesToUnlock(k - 1, late);
      } else {
        StagesToStore(k - 1, late);
      }
      ReachableStep(Stage(k - 1, late), StageMove(k - 1));
    }
  }

  /** The race is real: a run in which cancel_timer answers true, having passed its
      test with the mutex free, and the timer is dispatched all the same. */
  lemma RaceHappens()
    ensures Reachable(Stage(10, false)) && Enabled(Stage(10, false), Store(0)) && Stage(10, false).cancellers[0].id == 1
    ensures !Dispatched(Stage(10, false), 1) && CanBeDispatched(Apply(Stage(10, false), Store(0)), 1)
  {
    StagesReachable(10, false);
    assert Here(Stage(10, false))[0].id == 1;
    assert BeingDispatched(Stage(10, false), 1);
    CancelRaceExactly(Stage(10, false), 0);
  }

  lemma SecondIsStopped()
    ensures Dispatched(Stage(22, false), 1) && Stopped(Stage(23, false), 2)
    ensures W.Lookup(Stage(22, false).wheel, 2) == Some(W.Cell(1, 2, true, 0))
    ensures Enabled(Stage(22, false), Store(0)) && Apply(Stage(22, false), Store(0)) == Stage(23, false)
    ensures Stage(22, false).cancellers[0].id == 1
  {
    StagesToStore(22, false);
    assert IsDispatch(Stage(22, false).pool.hist.log, 0, 1);
  }

  lemma Silenced(s: Sys, t: Sys, c: nat, id: nat)
    requires Enabled(s, Store(c)) && Apply(s, Store(c)) == t && Reachable(t) && Stopped(t, id)
    ensures !CanBeDispatched(Apply(s, Store(c)), id)
  {
    InvReachable(t);
    StoppedCannotBe(t, id);
  }

  lemma SecondIsSilenced()
    ensures Enabled(Stage(22, false), Store(0)) && !CanBeDispatched(Apply(Stage(22, false), Store(0)), 2)
  {
    SecondIsStopped();
    StagesReachable(23, false);
    Silenced(Stage(22, false), Stage(23, false), 0, 2);
  }

  /** Worse, a late store stops another timer: here the call for timer 1 answers
      true after timer 1 was dispatched, and timer 2, which nobody asked to stop,
      is never dispatched. */
  lemma StaleStoreHappens() returns (s: Sys)
    ensures Reachable(s) && Enabled(s, Store(0)) && s.cancellers[0].id == 1
    ensures Dispatched(s, 1) && W.Lookup(s.wheel, 2) == Some(W.Cell(1, 2, true, 0))
    ensures !CanBeDispatched(Apply(s, Store(0)), 2)
  {
    s := Stage(22, false);
    SecondIsStopped();
    StagesReachable(22, false);
    SecondIsSilenced();
  }

  /** The comment promises the answer false for a timer already dealt with.  Here
      timer 1 has been dispatched and its cell reused when the call for it makes
      its test; the test looks at timer 2, and the answer is true. */
  lemma ReusedTestPasses() returns (s: Sys)
    ensures Reachable(s) && Enabled(s, Test(0)) && s.cancellers[0].id == 1
    ensures Dispatched(s, 1) && W.Lookup(s.wheel, 1) == None
    ensures Enabled(Apply(s, Test(0)), Store(0))
  {
    s := Stage(22, true);
    FirstIsGone();
    StagesReachable(22, true);
  }

  lemma FirstIsGone()
    ensures Dispatched(Stage(22, true), 1) && W.Lookup(Stage(22, true).wheel, 1) == None
    ensures Enabled(Stage(22, true), Test(0)) && Stage(22, true).cancellers[0].id == 1
    ensures Enabled(Apply(Stage(22, true), Test(0)), Store(0))
  {
    assert IsDispatch(Stage(22, true).pool.hist.log, 0, 1);
    assert W.Find(W.Bucket(Second(true).buckets, 2), 1) == 1;
  }
}
