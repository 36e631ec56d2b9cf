/** What every step of the wheel and pool together keeps. */
module WheelPoolInvariants {
  import opened Options
  import opened PoolQueues
  import P = PoolProtocol
  import W = Wheel
  import opened WheelPool

  /** The agent that holds the wheel's mutex. */
  function Holder(s: Sys): Agent {
    if s.wlock.Some? && s.wlock.value < |s.agents| then s.agents[s.wlock.value] else Rest
  }

  /** The holder's own call of add_task. */
  function HolderCall(s: Sys): P.Adder<Stamp> {
    if s.wlock.Some? && s.wlock.value < |s.pool.adders| then s.pool.adders[s.wlock.value] else P.Idle
  }

  ghost predicate LockInv(s: Sys) {
    && |s.agents| <= |s.pool.adders|
    && (forall u | 0 <= u < |s.agents| :: Holds(s.agents[u]) <==> s.wlock == Some(u))
    && (s.wlock.Some? ==> s.wlock.value < |s.agents|)
  }

  predicate BeforePush<T>(a: P.Adder<T>) {
    a.Wanting? || a.Holding?
  }

  /** Which calls of add_task are under way, and with what. */
  ghost predicate CallInv(s: Sys) {
    && (forall u | 0 <= u < |s.agents| && u < |s.pool.adders| && !s.agents[u].Calling? :: s.pool.adders[u].Idle?)
    && (forall a | |s.agents| <= a < |s.pool.adders| && BeforePush(s.pool.adders[a]) :: s.pool.adders[a].tt != Timer)
    && (Holder(s).Lowering? ==> Holder(s).k < |Here(s)|)
    && (Holder(s).Calling? ==>
          var k := Holder(s).k;
          && k < |Here(s)| && Here(s)[k].count == 0
          && (BeforePush(HolderCall(s)) ==>
                HolderCall(s).tt == Timer && HolderCall(s).task == Timed(Here(s)[k].id, s.now)))
  }

  /** Entry j of the pool's log is a dispatch of timer id. */
  predicate IsDispatch(log: seq<P.Job<Stamp>>, j: nat, id: nat) {
    j < |log| && log[j].tt == Timer && log[j].task.Timed? && log[j].task.id == id
  }

  ghost predicate Dispatched(s: Sys, id: nat) {
    exists j: nat :: IsDispatch(s.pool.hist.log, j, id)
  }

  /** The timers in the pool's log: stamped, in the order of ticks, none twice. */
  ghost predicate LogInv(s: Sys) {
    var log := s.pool.hist.log;
    && (forall j | 0 <= j < |log| && log[j].tt == Timer ::
          log[j].task.Timed? && 1 <= log[j].task.id <= s.wheel.cid && log[j].task.tick <= s.now)
    && (forall i, j | 0 <= i < j < |log| && log[i].tt == log[j].tt == Timer ::
          log[i].task.tick <= log[j].task.tick && log[i].task.id != log[j].task.id)
  }

  /** Between the push of a timer and the decrement that retires its cell. */
  predicate Window(s: Sys, id: nat) {
    var a := Holder(s);
    (a.Calling? || a.Lowering?) && a.k < |Here(s)| && Here(s)[a.k].id == id && !BeforePush(HolderCall(s))
  }

  predicate LiveIn(w: W.State<Callable>, id: nat) {
    W.Lookup(w, id).Some? && W.Lookup(w, id).value.count >= 0
  }

  predicate SpentOrWindow(s: Sys, id: nat) {
    LiveIn(s.wheel, id) ==> Window(s, id) && W.Lookup(s.wheel, id).value.count == 0
  }

  /** A dispatched timer has no live cell, except for a moment its own. */
  ghost predicate SpentInv(s: Sys) {
    forall id: nat | Dispatched(s, id) :: SpentOrWindow(s, id)
  }

  /** The cell (slot, j) was found for timer id: it is the only one that can still hold it. */
  ghost predicate Aimed(w: W.State<Callable>, id: nat, slot: int, j: nat) {
    && 1 <= id <= w.cid && id in w.index && w.index[id] == slot
    && j < |W.Bucket(w.buckets, slot)|
    && forall k | 0 <= k < |W.Bucket(w.buckets, slot)| && W.Bucket(w.buckets, slot)[k].id == id :: k == j
  }

  /** Whatever a call of cancel_timer has found, it has found once and for all. */
  ghost predicate AimInv(s: Sys) {
    forall c | 0 <= c < |s.cancellers| && !s.cancellers[c].Away? ::
      Aimed(s.wheel, s.cancellers[c].id, s.cancellers[c].slot, s.cancellers[c].j)
  }

  ghost predicate Inv(s: Sys) {
    W.Inv(s.wheel) && LockInv(s) && CallInv(s) && LogInv(s) && SpentInv(s) && AimInv(s)
  }

  lemma InitKeeps(u: nat, n: nat, a: nat, r: nat, c: nat)
    ensures Inv(Init(u, n, a, r, c))
  {
    W.InitInv<Callable>();
  }

  // ------------------------------------------------------ moves of the pool

  lemma PoolLocks(s: Sys, p: P.Step<Stamp>)
    requires LockInv(s) && CallInv(s) && Enabled(s, Pool(p))
    ensures LockInv(Apply(s, Pool(p))) && CallInv(Apply(s, Pool(p)))
  {
  }

  /** A pool move queues at most one timer: that of the agent whose call it is. */
  lemma PoolLog(s: Sys, p: P.Step<Stamp>)
    requires LockInv(s) && CallInv(s) && Enabled(s, Pool(p))
    ensures var log, log' := s.pool.hist.log, P.Apply(s.pool, p).hist.log;
            || log' == log
            || (|log'| == |log| + 1 && log'[..|log|] == log && log'[|log|].tt != Timer)
            || (|log'| == |log| + 1 && log'[..|log|] == log && Holder(s).Calling? && BeforePush(HolderCall(s))
                && log'[|log|].tt == Timer && log'[|log|].task == Timed(Here(s)[Holder(s).k].id, s.now)
                && Window(Apply(s, Pool(p)), Here(s)[Holder(s).k].id))
  {
  }

  lemma PoolWindow(s: Sys, p: P.Step<Stamp>, id: nat)
    requires LockInv(s) && CallInv(s) && Enabled(s, Pool(p)) && Window(s, id)
    ensures Window(Apply(s, Pool(p)), id)
  {
  }

  lemma HereLookup(s: Sys, k: nat)
    requires W.Inv(s.wheel) && k < |Here(s)|
    ensures W.Lookup(s.wheel, Here(s)[k].id) == Some(Here(s)[k])
    ensures 1 <= Here(s)[k].id <= s.wheel.cid
  {
    W.FindUnique(Here(s), k);
  }

  lemma PushIsNew(s: Sys)
    requires Inv(s) && Holder(s).Calling? && BeforePush(HolderCall(s))
    ensures !Dispatched(s, Here(s)[Holder(s).k].id)
  {
    HereLookup(s, Holder(s).k);
  }

  lemma PoolKeeps(s: Sys, p: P.Step<Stamp>)
    requires Inv(s) && Enabled(s, Pool(p))
    ensures Inv(Apply(s, Pool(p)))
  {
    var t := Apply(s, Pool(p));
    PoolLocks(s, p);
    PoolLog(s, p);
    var log, log' := s.pool.hist.log, t.pool.hist.log;
    if Holder(s).Calling? && BeforePush(HolderCall(s)) {
      PushIsNew(s);
      HereLookup(s, Holder(s).k);
    }
    LogGrows(s, t);
    forall id: nat | Dispatched(t, id)
      ensures SpentOrWindow(t, id)
    {
      if !Dispatched(s, id) {
        NewDispatch(log, log', id);
      } else if LiveIn(s.wheel, id) {
        assert SpentOrWindow(s, id);
        PoolWindow(s, p, id);
      }
    }
  }

  lemma NewDispatch(log: seq<P.Job<Stamp>>, log': seq<P.Job<Stamp>>, id: nat)
    requires log' == log || (|log'| == |log| + 1 && log'[..|log|] == log)
    requires (exists j: nat :: IsDispatch(log', j, id)) && !exists j: nat :: IsDispatch(log, j, id)
    ensures log' != log && IsDispatch(log', |log|, id)
  {
    assert forall i | 0 <= i < |log| :: log'[..|log|][i] == log[i];
    var j: nat :| IsDispatch(log', j, id);
    assert !IsDispatch(log, j, id);
  }

  lemma LogGrows(s: Sys, t: Sys)
    requires LogInv(s) && t.wheel.cid >= s.wheel.cid && t.now >= s.now
    requires var log, log' := s.pool.hist.log, t.pool.hist.log;
             log' == log
             || (|log'| == |log| + 1 && log'[..|log|] == log
                 && (log'[|log|].tt == Timer ==>
                       && log'[|log|].task.Timed? && 1 <= log'[|log|].task.id <= t.wheel.cid
                       && log'[|log|].task.tick == s.now && !Dispatched(s, log'[|log|].task.id)))
    ensures LogInv(t)
  {
    var log, log' := s.pool.hist.log, t.pool.hist.log;
    if log' != log {
      forall i | 0 <= i < |log|
        ensures log'[i] == log[i]
      {
        assert log'[..|log|][i] == log'[i];
      }
      forall i | 0 <= i < |log| && log[i].tt == log'[|log|].tt == Timer
        ensures log[i].task.id != log'[|log|].task.id
      {
        assert IsDispatch(log, i, log[i].task.id);
      }
    }
  }

  // ------------------------------------------- moves that change the wheel

  lemma WithCellInv(w: W.State<Callable>, slot: int, j: nat, c: W.Cell<Callable>)
    requires W.Inv(w) && j < |W.Bucket(w.buckets, slot)| && c.id == W.Bucket(w.buckets, slot)[j].id
    ensures W.Inv(WithCell(w, slot, j, c))
  {
    assert W.DistinctIds(W.Bucket(w.buckets, slot)[j := c]);
  }

  lemma WithCellLookup(w: W.State<Callable>, slot: int, j: nat, c: W.Cell<Callable>, id: nat)
    requires W.Inv(w) && j < |W.Bucket(w.buckets, slot)| && c.id == W.Bucket(w.buckets, slot)[j].id
    ensures W.Lookup(WithCell(w, slot, j, c), id) == if c.id == id then Some(c) else W.Lookup(w, id)
  {
    var b := W.Bucket(w.buckets, slot);
    var b' := b[j := c];
    WithCellInv(w, slot, j, c);
    W.FindUnique(b', j);
    if id in w.index && w.index[id] == slot && c.id != id {
      SameFind(b, b', id);
    }
  }

  lemma LowerInv(w: W.State<Callable>, k: nat)
    requires W.Inv(w)
    ensures W.Inv(LowerCell(w, k))
  {
    var b := W.Bucket(w.buckets, w.cur);
    if k < |b| {
      WithCellInv(w, w.cur, k, b[k].(count := b[k].count - 1));
    }
  }

  lemma LowerLookup(w: W.State<Callable>, k: nat, id: nat)
    requires W.Inv(w)
    ensures var b := W.Bucket(w.buckets, w.cur);
            W.Lookup(LowerCell(w, k), id) ==
            if k < |b| && b[k].id == id then Some(b[k].(count := b[k].count - 1)) else W.Lookup(w, id)
  {
    var b := W.Bucket(w.buckets, w.cur);
    if k < |b| {
      WithCellLookup(w, w.cur, k, b[k].(count := b[k].count - 1), id);
    }
  }

  /** What the store of cancel_timer does: it silences the timer that the cell
      holds at that moment, and no other. */
  lemma ClearLookup(w: W.State<Callable>, slot: int, j: nat, id: nat)
    requires W.Inv(w)
    ensures W.Inv(ClearCell(w, slot, j))
    ensures var b := W.Bucket(w.buckets, slot);
            W.Lookup(ClearCell(w, slot, j), id) ==
            if j < |b| && b[j].id == id then Some(b[j].(valid := false)) else W.Lookup(w, id)
  {
    var b := W.Bucket(w.buckets, slot);
    if j < |b| {
      WithCellInv(w, slot, j, b[j].(valid := false));
      WithCellLookup(w, slot, j, b[j].(valid := false), id);
    }
  }

  lemma {:induction false} SameFind(b: seq<W.Cell<Callable>>, c: seq<W.Cell<Callable>>, id: nat)
    requires |b| == |c| && forall j | 0 <= j < |b| :: b[j].id == c[j].id
    ensures W.Find(b, id) == W.Find(c, id)
  {
    if b != [] {
      SameFind(b[1..], c[1..], id);
    }
  }

  /** Subscripting the two maps changes no timer. */
  lemma OpenedLookup(w: W.State<Callable>, slot: int, id: nat)
    requires W.Inv(w)
    ensures W.Inv(Opened(w, slot)) && W.Lookup(Opened(w, slot), id) == W.Lookup(w, id)
  {
  }

  lemma IndexedLookup(w: W.State<Callable>, stop: nat, id: nat)
    requires W.Inv(w)
    ensures var w' := w.(index := W.Indexed(w.index, stop));
            W.Inv(w') && W.Lookup(w', id) == W.Lookup(w, id)
  {
  }

  /** Cancelling changes no id and no count under the hand. */
  lemma CancelHere(s: Sys, step: Step)
    requires Enabled(s, step) && (step.Look? || step.Test? || step.Store?)
    ensures var b, c := Here(s), Here(Apply(s, step));
            |b| == |c| && forall k | 0 <= k < |b| :: b[k].id == c[k].id && b[k].count == c[k].count
  {
  }

  lemma CancelLookups(s: Sys, step: Step, id: nat)
    requires W.Inv(s.wheel) && Enabled(s, step) && (step.Look? || step.Test? || step.Store?)
    ensures W.Inv(Apply(s, step).wheel) && Apply(s, step).wheel.cid == s.wheel.cid
    ensures var u, v := W.Lookup(s.wheel, id), W.Lookup(Apply(s, step).wheel, id);
            && (u.Some? <==> v.Some?)
            && (u.Some? ==> u.value.count == v.value.count && (v.value.valid ==> u.value.valid))
  {
    match step {
      case Look(c, stop) =>
        IndexedLookup(s.wheel, stop, id);
        OpenedLookup(s.wheel.(index := W.Indexed(s.wheel.index, stop)), W.Indexed(s.wheel.index, stop)[stop], id);
      case Store(c) =>
        var f := s.cancellers[c];
        ClearLookup(s.wheel, f.slot, f.j, id);
        if f.j < |W.Bucket(s.wheel.buckets, f.slot)| {
          CellLookup(s.wheel, f.slot, f.j);
        }
      case _ =>
    }
  }

  lemma CellLookup(w: W.State<Callable>, slot: int, j: nat)
    requires W.Inv(w) && j < |W.Bucket(w.buckets, slot)|
    ensures W.Lookup(w, W.Bucket(w.buckets, slot)[j].id) == Some(W.Bucket(w.buckets, slot)[j])
  {
    W.FindUnique(W.Bucket(w.buckets, slot), j);
  }

  lemma CancelSpent(s: Sys, step: Step, x: nat)
    requires Inv(s) && Enabled(s, step) && (step.Look? || step.Test? || step.Store?) && Dispatched(s, x)
    ensures SpentOrWindow(Apply(s, step), x)
  {
    CancelLookups(s, step, x);
    assert SpentOrWindow(s, x);
    if Window(s, x) {
      CancelWindow(s, step, x);
    }
  }

  lemma CancelWindow(s: Sys, step: Step, x: nat)
    requires Window(s, x) && Enabled(s, step) && (step.Look? || step.Test? || step.Store?)
    ensures Window(Apply(s, step), x)
  {
    CancelHere(s, step);
  }

  lemma CancelKeeps(s: Sys, step: Step)
    requires Inv(s) && Enabled(s, step) && (step.Look? || step.Test? || step.Store?)
    ensures Inv(Apply(s, step))
  {
    var t := Apply(s, step);
    CancelLookups(s, step, 0);
    CancelHere(s, step);
    LogGrows(s, t);
    CancelAims(s, step);
    forall x: nat | Dispatched(t, x)
      ensures SpentOrWindow(t, x)
    {
      assert Dispatched(s, x);
      CancelSpent(s, step, x);
    }
  }

  // -------------------------------------------------- where cancels are aimed

  /** From w to v bucket slot grows, and new cells carry new ids. */
  ghost predicate GrowsAt(w: W.State<Callable>, v: W.State<Callable>, slot: int) {
    var b, c := W.Bucket(w.buckets, slot), W.Bucket(v.buckets, slot);
    |b| <= |c| && forall k | 0 <= k < |c| :: c[k].id > w.cid || (k < |b| && c[k].id == b[k].id)
  }

  ghost predicate Grows(w: W.State<Callable>, v: W.State<Callable>) {
    && w.cid <= v.cid
    && (forall id | id in w.index && id <= w.cid :: id in v.index && v.index[id] == w.index[id])
    && forall slot: int :: GrowsAt(w, v, slot)
  }

  lemma AimStays(w: W.State<Callable>, v: W.State<Callable>, id: nat, slot: int, j: nat)
    requires Grows(w, v) && Aimed(w, id, slot, j)
    ensures Aimed(v, id, slot, j)
  {
    assert GrowsAt(w, v, slot);
  }

  lemma AimsStay(s: Sys, t: Sys)
    requires AimInv(s) && Grows(s.wheel, t.wheel) && t.cancellers == s.cancellers
    ensures AimInv(t)
  {
    forall c | 0 <= c < |s.cancellers| && !s.cancellers[c].Away?
      ensures Aimed(t.wheel, s.cancellers[c].id, s.cancellers[c].slot, s.cancellers[c].j)
    {
      AimStays(s.wheel, t.wheel, s.cancellers[c].id, s.cancellers[c].slot, s.cancellers[c].j);
    }
  }

  lemma GrowsAdd(w: W.State<Callable>, slot: int, count: int, task: Callable)
    requires W.Inv(w)
    ensures Grows(w, W.AddAt(w, slot, count, task))
  {
  }

  lemma GrowsInsert(w: W.State<Callable>, ms: int, task: Callable)
    requires W.Inv(w)
    ensures Grows(w, W.Add(w, ms, task))
  {
    var slot, count := W.Rem(ms + w.cur), W.Quot(ms + w.cur);
    assert W.Add(w, ms, task) == W.AddAt(w, slot, count, task);
    GrowsAdd(w, slot, count, task);
  }

  lemma GrowsWithCell(w: W.State<Callable>, slot: int, j: nat, c: W.Cell<Callable>)
    requires j < |W.Bucket(w.buckets, slot)| && c.id == W.Bucket(w.buckets, slot)[j].id
    ensures Grows(w, WithCell(w, slot, j, c))
  {
  }

  lemma GrowsLower(w: W.State<Callable>, k: nat)
    ensures Grows(w, LowerCell(w, k))
  {
    var b := W.Bucket(w.buckets, w.cur);
    if k < |b| {
      GrowsWithCell(w, w.cur, k, b[k].(count := b[k].count - 1));
    }
  }

  lemma GrowsOpened(w: W.State<Callable>, slot: int)
    ensures Grows(w, Opened(W.Turn(w), slot)) && Grows(w, w)
  {
  }

  /** What an agent's move does to the wheel. */
  function Effect(w: W.State<Callable>, a: Agent): W.State<Callable> {
    match a
    case Inserting(ms, task) => W.Add(w, ms, task)
    case Turning => Opened(W.Turn(w), W.Turn(w).cur)
    case Lowering(k) => LowerCell(w, k)
    case _ => w
  }

  lemma MoveEffect(s: Sys, u: nat)
    requires Enabled(s, Move(u))
    ensures Apply(s, Move(u)).wheel == Effect(s.wheel, s.agents[u])
  {
  }

  lemma EffectGrows(w: W.State<Callable>, a: Agent)
    requires W.Inv(w)
    ensures Grows(w, Effect(w, a))
  {
    match a {
      case Inserting(ms, task) => GrowsInsert(w, ms, task);
      case Turning => GrowsOpened(w, W.Turn(w).cur);
      case Lowering(k) => GrowsLower(w, k);
      case _ => GrowsOpened(w, 0);
    }
  }

  lemma MoveAims(s: Sys, u: nat)
    requires W.Inv(s.wheel) && AimInv(s) && Enabled(s, Move(u))
    ensures AimInv(Apply(s, Move(u)))
  {
    MoveEffect(s, u);
    EffectGrows(s.wheel, s.agents[u]);
    AimsStay(s, Apply(s, Move(u)));
  }

  /** The search of cancel_timer aims at the one cell of its timer. */
  lemma LookAims(w: W.State<Callable>, id: nat)
    requires W.Inv(w)
    ensures var slot := W.Indexed(w.index, id)[id];
            var j := W.Find(W.Bucket(w.buckets, slot), id);
            var v := Opened(w.(index := W.Indexed(w.index, id)), slot);
            Grows(w, v) && (j < |W.Bucket(w.buckets, slot)| ==> Aimed(v, id, slot, j))
  {
  }

  lemma CancelAims(s: Sys, step: Step)
    requires Inv(s) && Enabled(s, step) && (step.Look? || step.Test? || step.Store?)
    ensures AimInv(Apply(s, step))
  {
    var t := Apply(s, step);
    match step {
      case Look(c, id) =>
        LookAims(s.wheel, id);
        AimsStay(s, t.(cancellers := s.cancellers));
      case Test(c) =>
      case Store(c) =>
        var f := s.cancellers[c];
        assert Aimed(s.wheel, f.id, f.slot, f.j);
        GrowsWithCell(s.wheel, f.slot, f.j, W.Bucket(s.wheel.buckets, f.slot)[f.j].(valid := false));
        AimsStay(s, t.(cancellers := s.cancellers));
    }
  }

  lemma MoveLocks(s: Sys, u: nat)
    requires LockInv(s) && CallInv(s) && Enabled(s, Move(u))
    ensures LockInv(Apply(s, Move(u))) && CallInv(Apply(s, Move(u)))
  {
  }

  lemma MoveWheel(s: Sys, u: nat)
    requires W.Inv(s.wheel) && Enabled(s, Move(u))
    ensures var t := Apply(s, Move(u));
            W.Inv(t.wheel) && t.wheel.cid >= s.wheel.cid && t.now >= s.now && t.pool.hist.log == s.pool.hist.log
  {
    match s.agents[u] {
      case Inserting(ms, task) => W.NextInv(s.wheel, W.Insert(ms, task));
      case Lowering(k) => LowerInv(s.wheel, k);
      case _ =>
    }
  }

  lemma DispatchedIssued(s: Sys, id: nat)
    requires LogInv(s) && Dispatched(s, id)
    ensures 1 <= id <= s.wheel.cid
  {
  }

  lemma AddRevivesNone(w: W.State<Callable>, ms: int, task: Callable, id: nat)
    requires W.Inv(w) && id <= w.cid && !LiveIn(w, id)
    ensures !LiveIn(W.Add(w, ms, task), id)
  {
    W.AddLookup(w, W.Rem(ms + w.cur), W.Quot(ms + w.cur), task, id);
  }

  lemma InsertSpent(s: Sys, u: nat, id: nat)
    requires Inv(s) && Enabled(s, Move(u)) && s.agents[u].Inserting? && Dispatched(s, id)
    ensures SpentOrWindow(Apply(s, Move(u)), id)
  {
    assert SpentOrWindow(s, id);
    DispatchedIssued(s, id);
    AddRevivesNone(s.wheel, s.agents[u].ms, s.agents[u].task, id);
  }

  lemma LowerSpent(s: Sys, u: nat, id: nat)
    requires Inv(s) && Enabled(s, Move(u)) && s.agents[u].Lowering? && Dispatched(s, id)
    ensures SpentOrWindow(Apply(s, Move(u)), id)
  {
    LowerLookup(s.wheel, s.agents[u].k, id);
    HereLookup(s, s.agents[u].k);
    assert SpentOrWindow(s, id);
  }

  lemma OtherSpent(s: Sys, u: nat, id: nat)
    requires Inv(s) && Enabled(s, Move(u)) && !s.agents[u].Inserting? && !s.agents[u].Lowering? && Dispatched(s, id)
    ensures SpentOrWindow(Apply(s, Move(u)), id)
  {
    assert SpentOrWindow(s, id);
  }

  lemma MoveKeeps(s: Sys, u: nat)
    requires Inv(s) && Enabled(s, Move(u))
    ensures Inv(Apply(s, Move(u)))
  {
    var t := Apply(s, Move(u));
    MoveLocks(s, u);
    MoveWheel(s, u);
    MoveAims(s, u);
    LogGrows(s, t);
    forall id: nat | Dispatched(t, id)
      ensures SpentOrWindow(t, id)
    {
      assert Dispatched(s, id);
      match s.agents[u] {
        case Inserting(_, _) => InsertSpent(s, u, id);
        case Lowering(_) => LowerSpent(s, u, id);
        case _ => OtherSpent(s, u, id);
      }
    }
  }

  lemma InvStep(s: Sys, step: Step)
    requires Inv(s) && Enabled(s, step)
    ensures Inv(Apply(s, step))
  {
    match step {
      case Pool(p) => PoolKeeps(s, p);
      case AskInsert(u, _, _) => AskKeeps(s, step);
      case AskTick(u) => AskKeeps(s, step);
      case Move(u) => MoveKeeps(s, u);
      case _ => CancelKeeps(s, step);
    }
  }

  lemma AskKeeps(s: Sys, step: Step)
    requires Inv(s) && Enabled(s, step) && (step.AskInsert? || step.AskTick?)
    ensures Inv(Apply(s, step))
  {
    var t := Apply(s, step);
    forall id: nat | Dispatched(t, id)
      ensures SpentOrWindow(t, id)
    {
      assert Dispatched(s, id) && SpentOrWindow(s, id);
    }
  }

  lemma {:induction false} InvExec(s: Sys, steps: seq<Step>)
    requires Inv(s) && Feasible(s, steps)
    ensures Inv(Exec(s, steps))
  {
    if steps != [] {
      InvExec(s, steps[..|steps| - 1]);
      InvStep(Exec(s, steps[..|steps| - 1]), steps[|steps| - 1]);
    }
  }

  lemma InvReachable(s: Sys)
    requires Reachable(s)
    ensures Inv(s)
  {
    var u: nat, n: nat, a: nat, r: nat, c: nat, steps: seq<Step> :|
      Feasible(Init(u, n, a, r, c), steps) && s == Exec(Init(u, n, a, r, c), steps);
    InitKeeps(u, n, a, r, c);
    InvExec(Init(u, n, a, r, c), steps);
  }
}
