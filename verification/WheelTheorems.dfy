/** The timing wheel against the countdown scheduler, and what follows for one
    timer over every run. */
module WheelTheorems {
  import opened Options
  import opened Wheel
  import Countdown

  // --------------------------------------------------------- remaining ticks

  /** Ticks until the hand, now at cur, next stands at slot. */
  function Dist(cur: int, slot: int): int {
    if slot > cur then slot - cur else slot - cur + SCALE
  }

  /** Ticks until an entry fires: the hand visits slots 1 to SCALE and no other. */
  function Left(cur: int, slot: int, count: int): Option<int> {
    if 1 <= slot <= SCALE then Some(Dist(cur, slot) + SCALE * count) else None
  }

  /** One tick brings every entry of a visited slot exactly one tick closer, and
      an entry is one tick away exactly when the hand is about to find it at count 0. */
  lemma LeftDropsByOne(cur: int, slot: int, count: int)
    requires 1 <= cur <= SCALE && 1 <= slot <= SCALE && count >= 0
    ensures var cur' := if cur == SCALE then 1 else cur + 1;
            && Left(cur, slot, count).value >= 1
            && (Left(cur, slot, count) == Some(1) <==> slot == cur' && count == 0)
            && Left(cur', slot, if slot == cur' then count - 1 else count) == Some(Left(cur, slot, count).value - 1)
  {
  }

  /** Putting a timer into bucket slot with this count makes it due so. */
  predicate Amounts(cur: int, slot: int, count: int, due: Countdown.Due) {
    match due
    case In(d) => count >= 0 && Left(cur, slot, count) == Some(d) && d >= 1
    case Never => count >= 0 && Left(cur, slot, count) == None
    case Expired => count < 0
  }

  /** The slot and count that add_ms_task computes amount to Delay. */
  lemma PlacementIsDelay(cur: int, ms: int)
    requires 1 <= cur <= SCALE
    ensures Amounts(cur, Rem(ms + cur), Quot(ms + cur), Countdown.Delay(cur, ms))
  {
  }

  /** Delay against the request, for a request that is not negative. */
  lemma DelayCases(cur: int, ms: nat)
    requires 1 <= cur <= SCALE
    ensures Countdown.Delay(cur, ms) == Countdown.In(ms) <==> 0 < ms % SCALE && ms % SCALE + cur < SCALE
    ensures Countdown.Delay(cur, ms) == Countdown.Never <==> (ms + cur) % SCALE == 0
    ensures Countdown.Delay(cur, ms) in {Countdown.In(ms), Countdown.In(ms + SCALE), Countdown.Never}
  {
  }

  /** Counting the slots from the next one, and the revolutions from a delay of
      one tick, would make every positive delay exact. */
  lemma ShiftedPlacementIsExact(cur: int, ms: int)
    requires 1 <= cur <= SCALE && ms >= 1
    ensures Amounts(cur, Rem(ms + cur - 1) + 1, Quot(ms - 1), Countdown.In(ms))
  {
  }

  // --------------------------------------------------------- one timer alone

  predicate Live<T>(s: State<T>, id: nat) {
    Lookup(s, id).Some? && Lookup(s, id).value.count >= 0
  }

  /** What the wheel holds of timer id, in the countdown scheduler's terms. */
  function View<T>(s: State<T>, id: nat): Option<Countdown.Timer<T>> {
    if Live(s, id) then
      var c := Lookup(s, id).value;
      Some(Countdown.Timer(Left(s.cur, s.index[id], c.count), c.valid, c.task))
    else None
  }

  /** The same operation, as a pending timer of the countdown scheduler sees it. */
  function Evolved<T(==)>(v: Option<Countdown.Timer<T>>, op: Op<T>, id: nat): Option<Countdown.Timer<T>> {
    if v.None? then None
    else
      match op
      case Insert(_, _) => v
      case Stop(stop) => if stop == id then Some(v.value.(valid := false)) else v
      case Tick => if v.value.left == Some(1) then None else Some(v.value.(left := Countdown.Lower(v.value.left)))
  }

  /** Wherever a new timer is put, it starts with the ticks left at that place. */
  lemma PlacedView<T>(s: State<T>, slot: int, count: int, task: T)
    requires Inv(s)
    ensures View(AddAt(s, slot, count, task), s.cid + 1) ==
            if count >= 0 then Some(Countdown.Timer(Left(s.cur, slot, count), true, task)) else None
  {
    AddLookup(s, slot, count, task, s.cid + 1);
  }

  /** A new timer starts with the delay the scheduler gives it. */
  lemma NewView<T>(s: State<T>, ms: int, task: T)
    requires Inv(s)
    ensures View(Add(s, ms, task), s.cid + 1) ==
            match Countdown.Delay(s.cur, ms)
            case In(d) => Some(Countdown.Timer(Some(d), true, task))
            case Never => Some(Countdown.Timer(None, true, task))
            case Expired => None
  {
    PlacedView(s, Rem(ms + s.cur), Quot(ms + s.cur), task);
    PlacementIsDelay(s.cur, ms);
  }

  /** Ids that were not issued have no cell. */
  lemma NotIssued<T>(s: State<T>, id: nat)
    requires Inv(s) && (id == 0 || id > s.cid)
    ensures Lookup(s, id).None?
  {
  }

  lemma InsertView<T>(s: State<T>, slot: int, count: int, task: T, id: nat)
    requires Inv(s) && id != s.cid + 1
    ensures View(AddAt(s, slot, count, task), id) == View(s, id)
  {
    AddLookup(s, slot, count, task, id);
  }

  lemma StopView<T>(s: State<T>, stop: nat, id: nat)
    requires Inv(s)
    ensures View(Cancel(s, stop).0, id) == Evolved(View(s, id), Stop(stop), id)
  {
    CancelLookup(s, stop, id);
  }

  lemma TickedView<T>(s: State<T>, id: nat)
    requires Inv(s)
    ensures View(Process(Turn(s)), id) == Evolved(View(s, id), Tick, id)
  {
    ViewPositive(s, id);
    TickLookup(s, id);
    if Live(s, id) && 1 <= s.index[id] <= SCALE {
      LeftDropsByOne(s.cur, s.index[id], Lookup(s, id).value.count);
    }
  }

  /** Every operation acts on each issued timer as on a timer of its own: cell
      reuse, shared buckets and revolution counts do not show. */
  lemma NextView<T>(s: State<T>, op: Op<T>, id: nat)
    requires Inv(s) && (op.Insert? ==> id != s.cid + 1)
    ensures View(Next(s, op), id) == Evolved(View(s, id), op, id)
  {
    match op {
      case Insert(ms, task) => InsertView(s, Rem(ms + s.cur), Quot(ms + s.cur), task, id);
      case Stop(stop) => StopView(s, stop, id);
      case Tick => TickedView(s, id);
    }
  }

  predicate Positive<T>(v: Option<Countdown.Timer<T>>) {
    v.Some? && v.value.left.Some? ==> v.value.left.value >= 1
  }

  lemma ViewPositive<T>(s: State<T>, id: nat)
    requires Inv(s)
    ensures Positive(View(s, id))
  {
    if Live(s, id) && 1 <= s.index[id] <= SCALE {
      LeftDropsByOne(s.cur, s.index[id], Lookup(s, id).value.count);
    }
  }

  lemma CancelAnswer<T>(s: State<T>, id: nat)
    requires Inv(s)
    ensures Cancel(s, id).1 <==> View(s, id).Some?
  {
    CancelLookup(s, id, id);
  }

  predicate DueNow<T>(v: Option<Countdown.Timer<T>>) {
    v.Some? && v.value.left == Some(1) && v.value.valid
  }

  /** A tick dispatches a cell exactly when its timer is due and not cancelled. */
  lemma TickView<T>(s: State<T>, c: Cell<T>)
    requires Inv(s)
    ensures c in Output(s, Tick).cells ==> DueNow(View(s, c.id)) && View(s, c.id).value.task == c.task
    ensures DueNow(View(s, c.id)) ==> Cell(0, c.id, true, View(s, c.id).value.task) in Output(s, Tick).cells
  {
    TickDispatches(s, c);
    if Live(s, c.id) {
      var d := Lookup(s, c.id).value;
      TickDispatches(s, d);
      if 1 <= s.index[c.id] <= SCALE {
        LeftDropsByOne(s.cur, s.index[c.id], d.count);
      }
    }
  }

  // -------------------------------------------------------------- refinement

  /** Timer id is pending in the scheduler exactly when its cell is live, with
      the same time left, validity and task. */
  ghost predicate Matches<T>(s: State<T>, a: Countdown.State<T>, id: nat) {
    View(s, id) == if id in a.pending then Some(a.pending[id]) else None
  }

  ghost predicate Sim<T>(s: State<T>, a: Countdown.State<T>) {
    && Inv(s)
    && s.cur == a.now % 100 + 1
    && s.cid == a.last
    && forall id: nat :: Matches(s, a, id)
  }

  ghost predicate SameOutput<T(!new)>(o: Out<T>, p: Countdown.Out<T>) {
    match (o, p)
    case (Issued(x), Issued(y)) => x == y
    case (Answer(x), Answer(y)) => x == y
    case (Dispatched(cells), Fired(tasks)) =>
      && DistinctIds(cells)
      && (forall c | c in cells :: c.id in tasks && tasks[c.id] == c.task)
      && (forall id | id in tasks :: Cell(0, id, true, tasks[id]) in cells)
    case _ => false
  }

  lemma MatchesNew<T>(s: State<T>, a: Countdown.State<T>, ms: int, task: T)
    requires Inv(s) && s.cur == a.now % 100 + 1 && s.cid == a.last && Matches(s, a, s.cid + 1)
    ensures Matches(Add(s, ms, task), Countdown.Insert(a, ms, task), s.cid + 1)
  {
    NewView(s, ms, task);
    NotIssued(s, s.cid + 1);
  }

  lemma {:induction false} MatchesOld<T>(s: State<T>, a: Countdown.State<T>, op: Op<T>, id: nat)
    requires Inv(s) && s.cid == a.last && Matches(s, a, id) && (op.Insert? ==> id != s.cid + 1)
    ensures Matches(Next(s, op), Countdown.Next(a, op), id)
  {
    NextView(s, op, id);
  }

  lemma StateRefines<T>(s: State<T>, a: Countdown.State<T>, op: Op<T>)
    requires Sim(s, a)
    ensures Sim(Next(s, op), Countdown.Next(a, op))
  {
    NextInv(s, op);
    forall id: nat
      ensures Matches(Next(s, op), Countdown.Next(a, op), id)
    {
      assert Matches(s, a, id);
      if op.Insert? && id == s.cid + 1 {
        MatchesNew(s, a, op.ms, op.task);
      } else {
        MatchesOld(s, a, op, id);
      }
    }
  }

  lemma OutputRefines<T(!new)>(s: State<T>, a: Countdown.State<T>, op: Op<T>)
    requires Sim(s, a)
    ensures SameOutput(Output(s, op), Countdown.Output(a, op))
  {
    match op {
      case Insert(_, _) =>
      case Stop(id) =>
        assert Matches(s, a, id);
        CancelAnswer(s, id);
      case Tick =>
        var cells, tasks := Output(s, Tick).cells, Countdown.Firing(a);
        FiringDistinct(Bucket(s.buckets, Turn(s).cur));
        forall c | c in cells
          ensures c.id in tasks && tasks[c.id] == c.task
        {
          assert Matches(s, a, c.id);
          TickView(s, c);
        }
        forall id | id in tasks
          ensures Cell(0, id, true, tasks[id]) in cells
        {
          assert Matches(s, a, id);
          TickView(s, Cell(0, id, true, tasks[id]));
        }
    }
  }

  /** The tasks of a map, each once, in some order. */
  ghost predicate QueuesEachOnce<T>(tasks: map<nat, T>, gain: seq<T>) {
    exists ids: seq<nat> :: IsListing(ids, tasks, gain)
  }

  ghost predicate IsListing<T>(ids: seq<nat>, tasks: map<nat, T>, gain: seq<T>) {
    && |ids| == |gain|
    && (forall i, j | 0 <= i < j < |ids| :: ids[i] != ids[j])
    && (forall id: nat :: id in ids <==> id in tasks)
    && forall i | 0 <= i < |ids| :: ids[i] in tasks && gain[i] == tasks[ids[i]]
  }

  /** What a tick queues, the callables of its cells in turn, is what the
      scheduler fires. */
  lemma TickQueuesWhatFires<T>(s: State<T>, a: Countdown.State<T>, gain: seq<T>)
    requires Sim(s, a)
    requires var cells := Output(s, Tick).cells;
             |gain| == |cells| && forall i | 0 <= i < |cells| :: gain[i] == cells[i].task
    ensures QueuesEachOnce(Countdown.Firing(a), gain)
  {
    var cells, tasks := Output(s, Tick).cells, Countdown.Firing(a);
    var ids := seq(|cells|, i requires 0 <= i < |cells| => cells[i].id);
    FiringDistinct(Bucket(s.buckets, Turn(s).cur));
    forall i | 0 <= i < |ids|
      ensures ids[i] in tasks && gain[i] == tasks[ids[i]]
    {
      CellFires(s, a, cells[i]);
    }
    forall id: nat | id in tasks
      ensures id in ids
    {
      var i := FiresFrom(s, a, id);
      assert ids[i] == id;
    }
    assert IsListing(ids, tasks, gain);
  }

  lemma CellFires<T>(s: State<T>, a: Countdown.State<T>, c: Cell<T>)
    requires Sim(s, a) && c in Output(s, Tick).cells
    ensures c.id in Countdown.Firing(a) && Countdown.Firing(a)[c.id] == c.task
  {
    assert Matches(s, a, c.id);
    TickView(s, c);
  }

  lemma FiresFrom<T>(s: State<T>, a: Countdown.State<T>, id: nat) returns (i: nat)
    requires Sim(s, a) && id in Countdown.Firing(a)
    ensures i < |Output(s, Tick).cells| && Output(s, Tick).cells[i].id == id
  {
    assert Matches(s, a, id);
    var c := Cell(0, id, true, Countdown.Firing(a)[id]);
    TickView(s, c);
    i :| 0 <= i < |Output(s, Tick).cells| && Output(s, Tick).cells[i] == c;
  }

  /** Over every sequence of requests and ticks the wheel answers as the
      countdown scheduler does: same ids, same cancel answers, and at every tick
      the same timers dispatched, each once and with its own task. */
  lemma {:induction false} RefinesFrom<T(!new)>(s: State<T>, a: Countdown.State<T>, ops: seq<Op<T>>)
    requires Sim(s, a)
    ensures |Outputs(s, ops)| == |Countdown.Outputs(a, ops)| == |ops|
    ensures forall i | 0 <= i < |ops| :: SameOutput(Outputs(s, ops)[i], Countdown.Outputs(a, ops)[i])
    decreases |ops|
  {
    if ops != [] {
      StateRefines(s, a, ops[0]);
      OutputRefines(s, a, ops[0]);
      RefinesFrom(Next(s, ops[0]), Countdown.Next(a, ops[0]), ops[1..]);
    }
  }

  lemma {:induction false} WheelRefinesCountdown<T(!new)>(ops: seq<Op<T>>)
    ensures |Outputs(Init(), ops)| == |Countdown.Outputs(Countdown.Init(), ops)| == |ops|
    ensures forall i | 0 <= i < |ops| ::
              SameOutput(Outputs(Init(), ops)[i], Countdown.Outputs(Countdown.Init(), ops)[i])
  {
    RefinesFrom(Init(), Countdown.Init(), ops);
  }

  // ---------------------------------------------------- the life of one timer

  /** The dispatches of id in a list of dispatched cells, stamped with tick n. */
  function Hits<T>(cells: seq<Cell<T>>, id: nat, n: nat): seq<(nat, T)> {
    if cells == [] then []
    else (if cells[0].id == id then [(n, cells[0].task)] else []) + Hits(cells[1..], id, n)
  }

  /** All dispatches of id during ops: the number of the tick, counted from n, and the task. */
  function Dispatches<T>(s: State<T>, ops: seq<Op<T>>, id: nat, n: nat): seq<(nat, T)>
    decreases |ops|
  {
    if ops == [] then []
    else if ops[0].Tick? then
      Hits(Output(s, ops[0]).cells, id, n + 1) + Dispatches(Next(s, ops[0]), ops[1..], id, n + 1)
    else Dispatches(Next(s, ops[0]), ops[1..], id, n)
  }

  /** Some request to stop id comes before the d-th tick. */
  predicate StoppedBefore<T(==)>(ops: seq<Op<T>>, id: nat, d: int) {
    ops != [] && d > 0 &&
    (ops[0] == Stop(id) || StoppedBefore(ops[1..], id, if ops[0].Tick? then d - 1 else d))
  }

  lemma {:induction false} HitsNone<T>(cells: seq<Cell<T>>, id: nat, n: nat)
    requires forall c | c in cells :: c.id != id
    ensures Hits(cells, id, n) == []
  {
    if cells != [] {
      HitsNone(cells[1..], id, n);
    }
  }

  lemma {:induction false} HitsOne<T>(cells: seq<Cell<T>>, c: Cell<T>, n: nat)
    requires DistinctIds(cells) && c in cells
    ensures Hits(cells, c.id, n) == [(n, c.task)]
  {
    if cells[0] == c {
      HitsNone(cells[1..], c.id, n);
    } else {
      HitsOne(cells[1..], c, n);
    }
  }

  /** What one tick dispatches for id. */
  lemma TickHits<T>(s: State<T>, id: nat, n: nat)
    requires Inv(s)
    ensures Hits(Output(s, Tick).cells, id, n) ==
            if DueNow(View(s, id)) then [(n, View(s, id).value.task)] else []
  {
    var cells := Output(s, Tick).cells;
    FiringDistinct(Bucket(s.buckets, Turn(s).cur));
    if DueNow(View(s, id)) {
      var c := Cell(0, id, true, View(s, id).value.task);
      TickView(s, c);
      HitsOne(cells, c, n);
    } else {
      forall c | c in cells
        ensures c.id != id
      {
        TickView(s, c);
      }
      HitsNone(cells, id, n);
    }
  }

  /** The dispatches of a timer that evolves on its own. */
  function Fate<T(==)>(v: Option<Countdown.Timer<T>>, ops: seq<Op<T>>, id: nat, n: nat): seq<(nat, T)>
    decreases |ops|
  {
    if ops == [] then []
    else if ops[0].Tick? then
      (if DueNow(v) then [(n + 1, v.value.task)] else []) + Fate(Evolved(v, ops[0], id), ops[1..], id, n + 1)
    else Fate(Evolved(v, ops[0], id), ops[1..], id, n)
  }

  lemma {:induction false} DispatchesAreFate<T>(s: State<T>, ops: seq<Op<T>>, id: nat, n: nat)
    requires Inv(s) && id <= s.cid
    ensures Dispatches(s, ops, id, n) == Fate(View(s, id), ops, id, n)
    decreases |ops|
  {
    if ops != [] {
      NextInv(s, ops[0]);
      NextView(s, ops[0], id);
      if ops[0].Tick? {
        TickHits(s, id, n + 1);
        DispatchesAreFate(Next(s, ops[0]), ops[1..], id, n + 1);
      } else {
        DispatchesAreFate(Next(s, ops[0]), ops[1..], id, n);
      }
    }
  }

  /** A timer is dispatched once, on the tick its remaining time names and with
      its own task, unless it is stopped before, was stopped already, is never
      due or has expired. */
  lemma {:induction false} FateExactly<T>(v: Option<Countdown.Timer<T>>, ops: seq<Op<T>>, id: nat, n: nat)
    requires Positive(v)
    ensures Fate(v, ops, id, n) ==
            match v
            case None => []
            case Some(w) =>
              if w.valid && w.left.Some? && w.left.value <= Ticks(ops) && !StoppedBefore(ops, id, w.left.value)
              then [(n + w.left.value, w.task)] else []
    decreases |ops|
  {
    if ops != [] {
      FateExactly(Evolved(v, ops[0], id), ops[1..], id, if ops[0].Tick? then n + 1 else n);
    }
  }

  /** What a timer that is due so, and is numbered id, has dispatched after ops. */
  function Served<T(==)>(due: Countdown.Due, task: T, ops: seq<Op<T>>, id: nat): seq<(nat, T)> {
    match due
    case In(d) => if 1 <= d <= Ticks(ops) && !StoppedBefore(ops, id, d) then [(d, task)] else []
    case Never => []
    case Expired => []
  }

  ghost predicate DueAs<T>(v: Option<Countdown.Timer<T>>, due: Countdown.Due, task: T) {
    match due
    case In(d) => v == Some(Countdown.Timer(Some(d), true, task)) && d >= 1
    case Never => v == Some(Countdown.Timer(None, true, task))
    case Expired => v == None
  }

  lemma {:induction false} FateIsServed<T>(v: Option<Countdown.Timer<T>>, id: nat, due: Countdown.Due, task: T,
                                           ops: seq<Op<T>>)
    requires DueAs(v, due, task)
    ensures Fate(v, ops, id, 0) == Served(due, task, ops, id)
  {
    FateExactly(v, ops, id, 0);
  }

  lemma {:induction false} DueIsServed<T>(s: State<T>, id: nat, due: Countdown.Due, task: T, ops: seq<Op<T>>)
    requires Inv(s) && id <= s.cid && DueAs(View(s, id), due, task)
    ensures Dispatches(s, ops, id, 0) == Served(due, task, ops, id)
  {
    DispatchesAreFate(s, ops, id, 0);
    FateIsServed(View(s, id), id, due, task, ops);
  }

  /** The delay law for any placement: a timer put where it is due so is
      dispatched once, with its own task, on the tick that names, unless it is
      stopped before. */
  lemma {:induction false} PlacedIsServed<T>(s: State<T>, slot: int, count: int, due: Countdown.Due, task: T,
                                             ops: seq<Op<T>>)
    requires Inv(s) && Amounts(s.cur, slot, count, due)
    ensures Dispatches(AddAt(s, slot, count, task), ops, s.cid + 1, 0) == Served(due, task, ops, s.cid + 1)
  {
    AddInv(s, slot, count, task);
    PlacedView(s, slot, count, task);
    DueIsServed(AddAt(s, slot, count, task), s.cid + 1, due, task, ops);
  }

  lemma {:induction false} AddIsServed<T>(s: State<T>, ms: int, task: T, ops: seq<Op<T>>)
    requires Inv(s)
    ensures Dispatches(Add(s, ms, task), ops, s.cid + 1, 0) ==
            Served(Countdown.Delay(s.cur, ms), task, ops, s.cid + 1)
  {
    var slot, count, due := Rem(ms + s.cur), Quot(ms + s.cur), Countdown.Delay(s.cur, ms);
    assert Amounts(s.cur, slot, count, due) by { PlacementIsDelay(s.cur, ms); }
    assert Add(s, ms, task) == AddAt(s, slot, count, task);
    PlacedIsServed(s, slot, count, due, task, ops);
  }

  /** The exact delay law: a timer inserted after any past is dispatched on the
      tick Delay names, once, with its own task, and on no other; a timer that is
      never due, or stopped before that tick, is not dispatched at all. */
  lemma {:induction false} DispatchedExactlyWhenDue<T>(past: seq<Op<T>>, ms: int, task: T, ops: seq<Op<T>>)
    ensures var s := Run(Init(), past);
            Dispatches(Add(s, ms, task), ops, s.cid + 1, 0) ==
            Served(Countdown.Delay(s.cur, ms), task, ops, s.cid + 1)
  {
    RunInv(Init<T>(), past);
    AddIsServed(Run(Init(), past), ms, task, ops);
  }

  lemma {:induction false} StoppedEarlier<T>(ops: seq<Op<T>>, id: nat, d: int, later: int)
    requires d <= later && StoppedBefore(ops, id, d)
    ensures StoppedBefore(ops, id, later)
    decreases |ops|
  {
    if ops[0] != Stop(id) {
      var k := if ops[0].Tick? then 1 else 0;
      StoppedEarlier(ops[1..], id, d - k, later - k);
    }
  }

  lemma {:induction false} ServedInTime<T>(cur: int, ms: nat, task: T, ops: seq<Op<T>>, id: nat)
    requires 1 <= cur <= SCALE && Ticks(ops) >= ms + SCALE && !StoppedBefore(ops, id, ms + SCALE)
    ensures Served(Countdown.Delay(cur, ms), task, ops, id) ==
            match Countdown.Delay(cur, ms)
            case In(d) => [(d, task)]
            case _ => []
  {
    DelayCases(cur, ms);
    PlacementIsDelay(cur, ms);
    if Countdown.Delay(cur, ms).In? && StoppedBefore(ops, id, Countdown.Delay(cur, ms).ticks) {
      StoppedEarlier(ops, id, Countdown.Delay(cur, ms).ticks, ms + SCALE);
    }
  }

  /** A timer with a delay of ms that is left alone for ms + SCALE ticks, with the
      hand at cur when it is inserted: dispatched on time exactly when the request
      does not run past the end of the current revolution, lost exactly when it
      lands on slot 0, and otherwise dispatched one revolution late. */
  lemma {:induction false} OnTimeExactly<T>(past: seq<Op<T>>, ms: nat, task: T, ops: seq<Op<T>>)
    requires Ticks(ops) >= ms + SCALE && !StoppedBefore(ops, Run(Init(), past).cid + 1, ms + SCALE)
    ensures var s := Run(Init(), past);
            var all := Dispatches(Add(s, ms, task), ops, s.cid + 1, 0);
            && (all == [(ms, task)] <==> 0 < ms % SCALE && ms % SCALE + s.cur < SCALE)
            && (all == [] <==> (ms + s.cur) % SCALE == 0)
            && (all == [(ms, task)] || all == [(ms + SCALE, task)] || all == [])
  {
    var s: State<T> := Run(Init(), past);
    RunInv(Init<T>(), past);
    DispatchedExactlyWhenDue(past, ms, task, ops);
    ServedInTime(s.cur, ms, task, ops, s.cid + 1);
    DelayCases(s.cur, ms);
  }

  /** n ticks and nothing else. */
  function Ticking<T>(n: nat): seq<Op<T>> {
    if n == 0 then [] else [Tick] + Ticking(n - 1)
  }

  lemma {:induction false} TickingTicks<T>(n: nat, id: nat, d: int)
    ensures Ticks(Ticking<T>(n)) == n && !StoppedBefore(Ticking<T>(n), id, d)
  {
    if n > 0 {
      TickingTicks<T>(n - 1, id, d - 1);
      assert Ticking<T>(n)[1..] == Ticking<T>(n - 1);
    }
  }

  lemma {:induction false} FreshTimer<T>(ms: int, task: T, n: nat)
    ensures Dispatches(Add(Init(), ms, task), Ticking(n), 1, 0) ==
            match Countdown.Delay(1, ms)
            case In(d) => if 1 <= d <= n then [(d, task)] else []
            case _ => []
  {
    DispatchedExactlyWhenDue([], ms, task, Ticking(n));
    if Countdown.Delay(1, ms).In? {
      TickingTicks<T>(n, 1, Countdown.Delay(1, ms).ticks);
    }
  }

  /** On a fresh wheel left to tick, a delay of 100 takes 200 ticks and a delay of
      99 never ends. */
  lemma {:induction false} LateAndLost<T>(task: T, n: nat)
    ensures Dispatches(Add(Init(), 100, task), Ticking(n), 1, 0) == if n >= 200 then [(200, task)] else []
    ensures Dispatches(Add(Init(), 99, task), Ticking(n), 1, 0) == []
  {
    FreshTimer(100, task, n);
    FreshTimer(99, task, n);
  }

  function Aged<T(==)>(v: Option<Countdown.Timer<T>>, ops: seq<Op<T>>, id: nat): Option<Countdown.Timer<T>>
    decreases |ops|
  {
    if ops == [] then v else Aged(Evolved(v, ops[0], id), ops[1..], id)
  }

  lemma {:induction false} RunView<T>(s: State<T>, ops: seq<Op<T>>, id: nat)
    requires Inv(s) && id <= s.cid
    ensures View(Run(s, ops), id) == Aged(View(s, id), ops, id)
    decreases |ops|
  {
    if ops != [] {
      NextInv(s, ops[0]);
      NextView(s, ops[0], id);
      RunView(Next(s, ops[0]), ops[1..], id);
    }
  }

  lemma {:induction false} AgedExactly<T>(v: Option<Countdown.Timer<T>>, ops: seq<Op<T>>, id: nat)
    requires Positive(v)
    ensures Aged(v, ops, id).Some? <==> v.Some? && (v.value.left.Some? ==> Ticks(ops) < v.value.left.value)
    decreases |ops|
  {
    if ops != [] {
      AgedExactly(Evolved(v, ops[0], id), ops[1..], id);
    }
  }

  lemma {:induction false} CancelAnswersLater<T>(s: State<T>, id: nat, ops: seq<Op<T>>)
    requires Inv(s) && id <= s.cid
    ensures Cancel(Run(s, ops), id).1 <==>
            View(s, id).Some? && (View(s, id).value.left.Some? ==> Ticks(ops) < View(s, id).value.left.value)
  {
    ViewPositive(s, id);
    RunView(s, ops, id);
    AgedExactly(View(s, id), ops, id);
    RunInv(s, ops);
    CancelAnswer(Run(s, ops), id);
  }

  lemma {:induction false} CancelLaw<T>(s: State<T>, ms: int, task: T, ops: seq<Op<T>>)
    requires Inv(s)
    ensures Cancel(Run(Add(s, ms, task), ops), s.cid + 1).1 <==>
            match Countdown.Delay(s.cur, ms)
            case In(d) => Ticks(ops) < d
            case Never => true
            case Expired => false
  {
    NextInv(s, Insert(ms, task));
    NewView(s, ms, task);
    CancelAnswersLater(Add(s, ms, task), s.cid + 1, ops);
  }

  /** cancel_timer answers true exactly for an issued timer whose tick has not
      come; whether it was cancelled before makes no difference. */
  lemma {:induction false} CancelAnswersExactly<T>(past: seq<Op<T>>, ms: int, task: T, ops: seq<Op<T>>)
    ensures var s := Run(Init(), past);
            Cancel(Run(Add(s, ms, task), ops), s.cid + 1).1 <==>
            match Countdown.Delay(s.cur, ms)
            case In(d) => Ticks(ops) < d
            case Never => true
            case Expired => false
  {
    RunInv(Init<T>(), past);
    CancelLaw(Run(Init(), past), ms, task, ops);
  }

  /** After an answer of true the timer is not dispatched on any continuation,
      and an id that was never issued is refused. */
  lemma {:induction false} CancelIsFinal<T>(past: seq<Op<T>>, id: nat, ops: seq<Op<T>>)
    ensures var s: State<T> := Run(Init(), past);
            && (Cancel(s, id).1 ==> 1 <= id <= s.cid)
            && (Cancel(s, id).1 ==> Dispatches(Cancel(s, id).0, ops, id, 0) == [])
  {
    var s: State<T> := Run(Init(), past);
    RunInv(Init<T>(), past);
    CancelAnswer(s, id);
    if id == 0 || id > s.cid {
      NotIssued(s, id);
    } else {
      NextInv(s, Stop(id));
      StopView(s, id, id);
      ViewPositive(Next(s, Stop(id)), id);
      DispatchesAreFate(Next(s, Stop(id)), ops, id, 0);
      FateExactly(View(Next(s, Stop(id)), id), ops, id, 0);
    }
  }

  // -------------------------------------------------------------- cell reuse

  function LiveCells<T>(b: seq<Cell<T>>): nat {
    if b == [] then 0 else (if b[0].count >= 0 then 1 else 0) + LiveCells(b[1..])
  }

  lemma {:induction false} AllLive<T>(b: seq<Cell<T>>)
    requires forall j | 0 <= j < |b| :: b[j].count >= 0
    ensures LiveCells(b) == |b|
  {
    if b != [] {
      AllLive(b[1..]);
    }
  }

  lemma {:induction false} RunAppend<T>(s: State<T>, ops: seq<Op<T>>, op: Op<T>)
    ensures Run(s, ops + [op]) == Next(Run(s, ops), op)
    decreases |ops|
  {
    if ops == [] {
      assert [op][1..] == [];
    } else {
      assert (ops + [op])[1..] == ops[1..] + [op];
      RunAppend(Next(s, ops[0]), ops[1..], op);
    }
  }

  /** An insertion appends to a bucket only when every cell in it is live. */
  lemma GrowthStep<T>(s: State<T>, op: Op<T>, slot: int)
    requires 1 <= slot <= SCALE
    ensures var b, b' := Bucket(s.buckets, slot), Bucket(Next(s, op).buckets, slot);
            |b'| == |b| || |b'| == LiveCells(b')
  {
    var b, b' := Bucket(s.buckets, slot), Bucket(Next(s, op).buckets, slot);
    if |b'| != |b| {
      assert op.Insert? && Rem(op.ms + s.cur) == slot;
      AllLive(b');
    }
  }

  ghost predicate PeakAt<T>(ops: seq<Op<T>>, slot: int, p: int) {
    0 <= p <= |ops| &&
    |Bucket(Run(Init<T>(), ops).buckets, slot)| == LiveCells(Bucket(Run(Init<T>(), ops[..p]).buckets, slot))
  }

  /** For a visited slot the length of its bucket is the number of timers that
      were live in it at some moment of the run: never more than the peak. */
  lemma {:induction false} LengthIsAPeak<T>(ops: seq<Op<T>>, slot: int)
    requires 1 <= slot <= SCALE
    ensures exists p :: PeakAt(ops, slot, p)
    decreases |ops|
  {
    if ops == [] {
      assert PeakAt(ops, slot, 0);
    } else {
      var n := |ops| - 1;
      var front, op := ops[..n], ops[n];
      LengthIsAPeak(front, slot);
      var p :| PeakAt(front, slot, p);
      assert front[..p] == ops[..p] && front + [op] == ops && ops[..n + 1] == ops;
      RunAppend(Init<T>(), front, op);
      GrowthStep(Run(Init<T>(), front), op, slot);
      assert PeakAt(ops, slot, p) || PeakAt(ops, slot, n + 1);
    }
  }
}
