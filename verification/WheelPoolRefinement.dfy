/** Ticks that interleave with the pool against ticks that happen at once: seen
    from its turn on, a tick is the operation on whole wheels, as long as no call
    of cancel_timer comes in between. */
module WheelPoolRefinement {
  import opened Options
  import opened PoolQueues
  import P = PoolProtocol
  import W = Wheel
  import WT = WheelTheorems
  import Countdown
  import opened WheelPool
  import opened WheelPoolInvariants
  import opened WheelPoolTheorems

  // ------------------------------------------------- what is still to come

  /** Every count from position k on lowered. */
  function LoweredFrom(b: seq<W.Cell<Callable>>, k: nat): seq<W.Cell<Callable>> {
    seq(|b|, j requires 0 <= j < |b| => if j < k then b[j] else b[j].(count := b[j].count - 1))
  }

  function LowerRest(w: W.State<Callable>, k: nat): W.State<Callable> {
    w.(buckets := w.buckets[w.cur := LoweredFrom(W.Bucket(w.buckets, w.cur), k)])
  }

  predicate MidTick(a: Agent) {
    a.Scanning? || a.Calling? || a.Lowering?
  }

  /** The wheel as it will be when the tick under way, if any, is done. */
  function Ahead(s: Sys): W.State<Callable> {
    if MidTick(Holder(s)) then LowerRest(s.wheel, Holder(s).k) else s.wheel
  }

  /** Cells as timer tasks of tick n. */
  function Marked(cells: seq<W.Cell<Callable>>, n: nat): seq<Stamp> {
    if cells == [] then [] else [Timed(cells[0].id, n)] + Marked(cells[1..], n)
  }

  function From(b: seq<W.Cell<Callable>>, k: nat): seq<W.Cell<Callable>> {
    if k <= |b| then b[k..] else []
  }

  /** The timer tasks queued so far, in order. */
  function Stamps(log: seq<P.Job<Stamp>>): seq<Stamp> {
    if log == [] then []
    else Stamps(log[..|log| - 1]) + (if log[|log| - 1].tt == Timer then [log[|log| - 1].task] else [])
  }

  /** What a tick at this point, with its call of add_task before its push or not,
      has still to queue from bucket b. */
  function ToCome(a: Agent, calling: bool, b: seq<W.Cell<Callable>>, n: nat): seq<Stamp> {
    match a
    case Scanning(k) => Marked(W.Firing(From(b, k)), n)
    case Calling(k) =>
      (if calling && k < |b| then [Timed(b[k].id, n)] else []) + Marked(W.Firing(From(b, k + 1)), n)
    case Lowering(k) => Marked(W.Firing(From(b, k + 1)), n)
    case _ => []
  }

  /** The timer tasks queued when the tick under way is done. */
  function AheadLog(s: Sys): seq<Stamp> {
    Stamps(s.pool.hist.log) + ToCome(Holder(s), BeforePush(HolderCall(s)), Here(s), s.now)
  }

  /** The operation that a step completes: an insertion, or a tick at its turn. */
  function OpOf(s: Sys, step: Step): Option<W.Op<Callable>> {
    match step
    case Move(u) =>
      if u >= |s.agents| then None
      else
        (match s.agents[u]
         case Inserting(ms, task) => Some(W.Insert(ms, task))
         case Turning => Some(W.Tick)
         case _ => None)
    case _ => None
  }

  predicate IsCancel(step: Step) {
    step.Look? || step.Test? || step.Store?
  }

  /** What an operation queues when it happens at once. */
  function Emits(w: W.State<Callable>, op: W.Op<Callable>, n: nat): seq<Stamp> {
    if op.Tick? then Marked(W.Output(w, W.Tick).cells, n + 1) else []
  }

  // -------------------------------------------------------------- sequences

  lemma Assoc<T>(x: seq<T>, y: seq<T>, z: seq<T>)
    ensures x + (y + z) == (x + y) + z
  {
  }

  lemma NoneInFront<T>(x: seq<T>)
    ensures [] + x == x && x + [] == x
  {
  }

  lemma RestOfAppend<T>(x: seq<T>, y: seq<T>)
    requires x != []
    ensures (x + y)[0] == x[0] && (x + y)[1..] == x[1..] + y
  {
  }

  lemma FromCons(b: seq<W.Cell<Callable>>, k: nat)
    requires k < |b|
    ensures From(b, k) == [b[k]] + From(b, k + 1)
  {
  }

  // --------------------------------------------------------------- one step

  lemma FiringOne(c: W.Cell<Callable>)
    ensures W.Firing([c]) == if W.Fires(c) then [c] else []
  {
    assert [c][..0] == [] && W.Firing([c][..0]) == [];
  }

  lemma {:induction false} FiringAppend(x: seq<W.Cell<Callable>>, y: seq<W.Cell<Callable>>)
    ensures W.Firing(x + y) == W.Firing(x) + W.Firing(y)
  {
    if y == [] {
      assert x + y == x;
    } else {
      FiringAppend(x, y[..|y| - 1]);
      assert (x + y)[..|x + y| - 1] == x + y[..|y| - 1];
    }
  }

  lemma FiringFrom(b: seq<W.Cell<Callable>>, k: nat)
    requires k < |b|
    ensures W.Firing(From(b, k)) == (if W.Fires(b[k]) then [b[k]] else []) + W.Firing(From(b, k + 1))
  {
    FromCons(b, k);
    FiringAppend([b[k]], From(b, k + 1));
    FiringOne(b[k]);
  }

  /** Testing one cell splits what is to come. */
  lemma MarkedFrom(b: seq<W.Cell<Callable>>, k: nat, n: nat)
    requires k < |b|
    ensures Marked(W.Firing(From(b, k)), n) ==
            (if W.Fires(b[k]) then [Timed(b[k].id, n)] else []) + Marked(W.Firing(From(b, k + 1)), n)
  {
    FiringFrom(b, k);
    var rest := W.Firing(From(b, k + 1));
    if W.Fires(b[k]) {
      assert ([b[k]] + rest)[1..] == rest;
    } else {
      assert [] + rest == rest;
    }
  }

  lemma LowerOneOfRest(w: W.State<Callable>, k: nat)
    requires k < |W.Bucket(w.buckets, w.cur)|
    ensures LowerRest(LowerCell(w, k), k + 1) == LowerRest(w, k)
    ensures From(W.Bucket(LowerCell(w, k).buckets, w.cur), k + 1) == From(W.Bucket(w.buckets, w.cur), k + 1)
  {
    var b := W.Bucket(w.buckets, w.cur);
    var c := b[k := b[k].(count := b[k].count - 1)];
    assert LoweredFrom(c, k + 1) == LoweredFrom(b, k);
  }

  lemma LowerNone(w: W.State<Callable>, k: nat)
    requires k >= |W.Bucket(w.buckets, w.cur)| && w.cur in w.buckets
    ensures LowerRest(w, k) == w
  {
    var b := W.Bucket(w.buckets, w.cur);
    assert LoweredFrom(b, k) == b;
  }

  /** The bucket under the hand exists while a tick goes through it. */
  ghost predicate OpenInv(s: Sys) {
    MidTick(Holder(s)) ==> s.wheel.cur in s.wheel.buckets
  }

  lemma OpenStep(s: Sys, step: Step)
    requires Inv(s) && OpenInv(s) && Enabled(s, step)
    ensures OpenInv(Apply(s, step))
  {
  }

  lemma TurnAhead(s: Sys, u: nat)
    requires Inv(s) && Enabled(s, Move(u)) && s.agents[u].Turning?
    ensures var t := Apply(s, Move(u));
            && Ahead(t) == W.Next(Ahead(s), W.Tick)
            && AheadLog(t) == AheadLog(s) + Emits(Ahead(s), W.Tick, s.now)
  {
    var t := Apply(s, Move(u));
    var b := W.Bucket(s.wheel.buckets, W.Turn(s.wheel).cur);
    assert Holds(s.agents[u]) && s.wlock == Some(u);
    assert Here(t) == b && From(b, 0) == b;
    assert LoweredFrom(b, 0) == W.Lowered(b);
    assert Ahead(t).buckets == W.Next(s.wheel, W.Tick).buckets;
  }

  lemma InsertAhead(s: Sys, u: nat)
    requires Inv(s) && Enabled(s, Move(u)) && s.agents[u].Inserting?
    ensures var t := Apply(s, Move(u));
            Ahead(t) == W.Next(Ahead(s), W.Insert(s.agents[u].ms, s.agents[u].task)) && AheadLog(t) == AheadLog(s)
  {
    assert Holds(s.agents[u]) && s.wlock == Some(u);
  }

  /** The two states differ in nothing that the rest of a tick depends on. */
  ghost predicate SameView(s: Sys, t: Sys) {
    && s.wheel == t.wheel && s.now == t.now && Stamps(s.pool.hist.log) == Stamps(t.pool.hist.log)
    && if MidTick(Holder(s)) then Holder(s) == Holder(t) && BeforePush(HolderCall(s)) == BeforePush(HolderCall(t))
       else !MidTick(Holder(t))
  }

  lemma SameAhead(s: Sys, t: Sys)
    requires SameView(s, t)
    ensures Ahead(t) == Ahead(s) && AheadLog(t) == AheadLog(s)
  {
  }

  lemma TickEnds(s: Sys, t: Sys, k: nat)
    requires s.wheel == t.wheel && s.pool == t.pool && OpenInv(s)
    requires Holder(s) == Scanning(k) && k >= |Here(s)| && !MidTick(Holder(t))
    ensures Ahead(t) == Ahead(s) && AheadLog(t) == AheadLog(s)
  {
    LowerNone(s.wheel, k);
    assert From(Here(s), k) == [];
  }

  lemma TickTests(s: Sys, t: Sys, k: nat)
    requires s.wheel == t.wheel && s.now == t.now && s.pool.hist == t.pool.hist
    requires Holder(s) == Scanning(k) && k < |Here(s)|
    requires Holder(t) == if W.Fires(Here(s)[k]) then Calling(k) else Lowering(k)
    requires W.Fires(Here(s)[k]) ==> BeforePush(HolderCall(t))
    ensures Ahead(t) == Ahead(s) && AheadLog(t) == AheadLog(s)
  {
    MarkedFrom(Here(s), k, s.now);
    if !W.Fires(Here(s)[k]) {
      assert [] + Marked(W.Firing(From(Here(s), k + 1)), s.now) == Marked(W.Firing(From(Here(s), k)), s.now);
    }
  }

  lemma ScanAhead(s: Sys, u: nat)
    requires Inv(s) && OpenInv(s) && Enabled(s, Move(u)) && s.agents[u].Scanning?
    ensures var t := Apply(s, Move(u));
            Ahead(t) == Ahead(s) && AheadLog(t) == AheadLog(s)
  {
    assert Holds(s.agents[u]) && s.wlock == Some(u);
    var k := s.agents[u].k;
    if k < |Here(s)| {
      TickTests(s, Apply(s, Move(u)), k);
    } else {
      TickEnds(s, Apply(s, Move(u)), k);
    }
  }

  lemma CallReturns(s: Sys, t: Sys, k: nat)
    requires s.wheel == t.wheel && s.now == t.now && s.pool == t.pool
    requires Holder(s) == Calling(k) && !BeforePush(HolderCall(s)) && Holder(t) == Lowering(k)
    ensures Ahead(t) == Ahead(s) && AheadLog(t) == AheadLog(s)
  {
    var rest := Marked(W.Firing(From(Here(s), k + 1)), s.now);
    assert [] + rest == rest;
  }

  lemma CallEnds(s: Sys, u: nat)
    requires Inv(s) && Enabled(s, Move(u)) && s.agents[u].Calling?
    ensures var t := Apply(s, Move(u));
            Ahead(t) == Ahead(s) && AheadLog(t) == AheadLog(s)
  {
    assert Holds(s.agents[u]) && s.wlock == Some(u);
    CallReturns(s, Apply(s, Move(u)), s.agents[u].k);
  }

  lemma Lowers(s: Sys, t: Sys, k: nat)
    requires t.wheel == LowerCell(s.wheel, k) && s.now == t.now && s.pool == t.pool && k < |Here(s)|
    requires Holder(s) == Lowering(k) && Holder(t) == Scanning(k + 1)
    ensures Ahead(t) == Ahead(s) && AheadLog(t) == AheadLog(s)
  {
    LowerOneOfRest(s.wheel, k);
  }

  lemma LowerAhead(s: Sys, u: nat)
    requires Inv(s) && Enabled(s, Move(u)) && s.agents[u].Lowering?
    ensures var t := Apply(s, Move(u));
            Ahead(t) == Ahead(s) && AheadLog(t) == AheadLog(s)
  {
    assert Holds(s.agents[u]) && s.wlock == Some(u);
    Lowers(s, Apply(s, Move(u)), s.agents[u].k);
  }

  lemma TickAhead(s: Sys, u: nat)
    requires Inv(s) && OpenInv(s) && Enabled(s, Move(u)) && MidTick(s.agents[u])
    ensures var t := Apply(s, Move(u));
            Ahead(t) == Ahead(s) && AheadLog(t) == AheadLog(s)
  {
    match s.agents[u] {
      case Scanning(_) => ScanAhead(s, u);
      case Calling(_) => CallEnds(s, u);
      case Lowering(_) => LowerAhead(s, u);
    }
  }

  lemma OtherAhead(s: Sys, u: nat)
    requires Inv(s) && Enabled(s, Move(u)) && OpOf(s, Move(u)) == None && !MidTick(s.agents[u])
    ensures SameView(s, Apply(s, Move(u)))
  {
    if Holds(s.agents[u]) {
      assert s.wlock == Some(u);
    }
  }

  lemma AskAhead(s: Sys, step: Step)
    requires Inv(s) && Enabled(s, step) && (step.AskInsert? || step.AskTick?)
    ensures SameView(s, Apply(s, step))
  {
    var u := step.u;
    assert !Holds(s.agents[u]) && s.wlock != Some(u);
  }

  lemma StampsAppend(log: seq<P.Job<Stamp>>, log': seq<P.Job<Stamp>>)
    requires |log'| == |log| + 1 && log'[..|log|] == log
    ensures Stamps(log') == Stamps(log) + (if log'[|log|].tt == Timer then [log'[|log|].task] else [])
  {
  }

  /** A pool move ends the wheel's call before its push exactly by queueing its timer. */
  lemma PoolCall(s: Sys, p: P.Step<Stamp>)
    requires LockInv(s) && CallInv(s) && Enabled(s, Pool(p)) && Holder(s).Calling?
    ensures var log, log' := s.pool.hist.log, P.Apply(s.pool, p).hist.log;
            BeforePush(HolderCall(s)) && !BeforePush(HolderCall(Apply(s, Pool(p)))) <==>
            |log'| == |log| + 1 && log'[|log|].tt == Timer
    ensures BeforePush(HolderCall(Apply(s, Pool(p)))) ==> BeforePush(HolderCall(s))
  {
  }

  /** The wheel's call has just queued its timer. */
  ghost predicate Pushes(s: Sys, t: Sys) {
    && s.wheel == t.wheel && s.now == t.now && Holder(s).Calling? && Holder(t) == Holder(s)
    && Holder(s).k < |Here(s)| && BeforePush(HolderCall(s)) && !BeforePush(HolderCall(t))
    && Stamps(t.pool.hist.log) == Stamps(s.pool.hist.log) + [Timed(Here(s)[Holder(s).k].id, s.now)]
  }

  lemma PushAhead(s: Sys, t: Sys)
    requires Pushes(s, t)
    ensures Ahead(t) == Ahead(s) && AheadLog(t) == AheadLog(s)
  {
    var x := Timed(Here(s)[Holder(s).k].id, s.now);
    Shifted(Stamps(s.pool.hist.log), x, Marked(W.Firing(From(Here(s), Holder(s).k + 1)), s.now));
  }

  lemma Shifted(log: seq<Stamp>, x: Stamp, rest: seq<Stamp>)
    ensures log + ([x] + rest) == (log + [x]) + ([] + rest)
  {
  }

  lemma PoolKeepsView(s: Sys, p: P.Step<Stamp>)
    requires Inv(s) && Enabled(s, Pool(p)) && !(Holder(s).Calling? && BeforePush(HolderCall(s)))
    ensures SameView(s, Apply(s, Pool(p)))
  {
    var log, log' := s.pool.hist.log, P.Apply(s.pool, p).hist.log;
    PoolLog(s, p);
    if log' != log {
      StampsAppend(log, log');
    }
    if Holder(s).Calling? {
      PoolCall(s, p);
    }
  }

  lemma PoolMovesCall(s: Sys, p: P.Step<Stamp>)
    requires Inv(s) && Enabled(s, Pool(p)) && Holder(s).Calling? && BeforePush(HolderCall(s))
    ensures SameView(s, Apply(s, Pool(p))) || Pushes(s, Apply(s, Pool(p)))
  {
    var log, log' := s.pool.hist.log, P.Apply(s.pool, p).hist.log;
    PoolLog(s, p);
    PoolCall(s, p);
    if log' != log {
      StampsAppend(log, log');
    }
  }

  lemma PoolAhead(s: Sys, p: P.Step<Stamp>)
    requires Inv(s) && Enabled(s, Pool(p))
    ensures SameView(s, Apply(s, Pool(p))) || Pushes(s, Apply(s, Pool(p)))
  {
    if Holder(s).Calling? && BeforePush(HolderCall(s)) {
      PoolMovesCall(s, p);
    } else {
      PoolKeepsView(s, p);
    }
  }

  lemma OutsideTick(s: Sys, step: Step)
    requires Inv(s) && Enabled(s, step)
    requires if step.Move? then OpOf(s, step) == None && !MidTick(s.agents[step.u])
             else step.AskInsert? || step.AskTick?
    ensures SameView(s, Apply(s, step))
  {
    match step {
      case Move(u) => OtherAhead(s, u);
      case AskInsert(_, _, _) => AskAhead(s, step);
      case AskTick(_) => AskAhead(s, step);
    }
  }

  /** Every step but those of cancel_timer is either no operation at all or one
      operation on the whole wheel, with exactly its dispatches, in order. */
  lemma StepIsAtomic(s: Sys, step: Step)
    requires Inv(s) && OpenInv(s) && Enabled(s, step) && !IsCancel(step)
    ensures var t := Apply(s, step);
            match OpOf(s, step)
            case None => Ahead(t) == Ahead(s) && AheadLog(t) == AheadLog(s)
            case Some(op) =>
              Ahead(t) == W.Next(Ahead(s), op) && AheadLog(t) == AheadLog(s) + Emits(Ahead(s), op, s.now)
  {
    var t := Apply(s, step);
    if step.Pool? {
      PoolAhead(s, step.step);
      if SameView(s, t) {
        SameAhead(s, t);
      } else {
        PushAhead(s, t);
      }
    } else if step.Move? && s.agents[step.u].Turning? {
      TurnAhead(s, step.u);
    } else if step.Move? && s.agents[step.u].Inserting? {
      InsertAhead(s, step.u);
    } else if step.Move? && MidTick(s.agents[step.u]) {
      TickAhead(s, step.u);
    } else {
      OutsideTick(s, step);
      SameAhead(s, t);
    }
  }

  // ------------------------------------------------------------------- runs

  ghost predicate CancelFree(steps: seq<Step>) {
    forall step | step in steps :: !IsCancel(step)
  }

  /** The operations that a run completes, in order. */
  function OpsOf(s: Sys, steps: seq<Step>): seq<W.Op<Callable>>
    requires Feasible(s, steps)
    decreases |steps|
  {
    if steps == [] then []
    else
      OpsOf(s, steps[..|steps| - 1]) +
      match OpOf(Exec(s, steps[..|steps| - 1]), steps[|steps| - 1])
      case None => []
      case Some(op) => [op]
  }

  function After(op: W.Op<Callable>, n: nat): nat {
    if op.Tick? then n + 1 else n
  }

  lemma NowMoves(s: Sys, step: Step)
    requires Enabled(s, step)
    ensures Apply(s, step).now == s.now + (if OpOf(s, step) == Some(W.Tick) then 1 else 0)
  {
  }

  /** A wheel, the timers queued so far and the tick reached. */
  datatype Course = Course(wheel: W.State<Callable>, log: seq<Stamp>, now: nat)

  function CourseOf(s: Sys): Course {
    Course(Ahead(s), AheadLog(s), s.now)
  }

  /** Where one operation that happens at once leads. */
  function Advance(c: Course, op: W.Op<Callable>): Course {
    Course(W.Next(c.wheel, op), c.log + Emits(c.wheel, op, c.now), After(op, c.now))
  }

  function Advanced(c: Course, ops: seq<W.Op<Callable>>): Course
    decreases |ops|
  {
    if ops == [] then c else Advanced(Advance(c, ops[0]), ops[1..])
  }

  lemma {:induction false} AdvancedSnoc(c: Course, ops: seq<W.Op<Callable>>, op: W.Op<Callable>)
    ensures Advanced(c, ops + [op]) == Advance(Advanced(c, ops), op)
    decreases |ops|
  {
    if ops == [] {
      assert ops + [op] == [op] && [op][1..] == [];
    } else {
      RestOfAppend(ops, [op]);
      AdvancedSnoc(Advance(c, ops[0]), ops[1..], op);
    }
  }

  /** The wheel and the clock of a course are those of the plain run. */
  lemma {:induction false} AdvancedWheel(c: Course, ops: seq<W.Op<Callable>>)
    ensures Advanced(c, ops).wheel == W.Run(c.wheel, ops) && Advanced(c, ops).now == c.now + W.Ticks(ops)
    decreases |ops|
  {
    if ops != [] {
      AdvancedWheel(Advance(c, ops[0]), ops[1..]);
    }
  }

  lemma StepAdvances(s: Sys, step: Step)
    requires Inv(s) && OpenInv(s) && Enabled(s, step) && !IsCancel(step)
    ensures CourseOf(Apply(s, step)) ==
            match OpOf(s, step)
            case None => CourseOf(s)
            case Some(op) => Advance(CourseOf(s), op)
  {
    StepIsAtomic(s, step);
    NowMoves(s, step);
  }

  lemma LeadsOn(c: Course, ops: seq<W.Op<Callable>>, t: Sys, step: Step)
    requires Advanced(c, ops) == CourseOf(t) && Inv(t) && OpenInv(t) && Enabled(t, step) && !IsCancel(step)
    ensures match OpOf(t, step)
            case None => Advanced(c, ops) == CourseOf(Apply(t, step))
            case Some(op) => Advanced(c, ops + [op]) == CourseOf(Apply(t, step))
  {
    StepAdvances(t, step);
    match OpOf(t, step) {
      case None =>
      case Some(op) => AdvancedSnoc(c, ops, op);
    }
  }

  lemma {:induction false} RunIsAtomic(s: Sys, steps: seq<Step>)
    requires Inv(s) && OpenInv(s) && Feasible(s, steps) && CancelFree(steps)
    ensures Inv(Exec(s, steps)) && OpenInv(Exec(s, steps))
    ensures CourseOf(Exec(s, steps)) == Advanced(CourseOf(s), OpsOf(s, steps))
  {
    if steps != [] {
      var front, last := steps[..|steps| - 1], steps[|steps| - 1];
      RunIsAtomic(s, front);
      InvStep(Exec(s, front), last);
      OpenStep(Exec(s, front), last);
      assert last in steps;
      LeadsOn(CourseOf(s), OpsOf(s, front), Exec(s, front), last);
      assert OpsOf(s, front) + [] == OpsOf(s, front);
    }
  }

  lemma {:induction false} OpenExec(s: Sys, steps: seq<Step>)
    requires Inv(s) && OpenInv(s) && Feasible(s, steps)
    ensures Inv(Exec(s, steps)) && OpenInv(Exec(s, steps))
  {
    if steps != [] {
      OpenExec(s, steps[..|steps| - 1]);
      InvStep(Exec(s, steps[..|steps| - 1]), steps[|steps| - 1]);
      OpenStep(Exec(s, steps[..|steps| - 1]), steps[|steps| - 1]);
    }
  }

  lemma OpenReachable(s: Sys)
    requires Reachable(s)
    ensures Inv(s) && OpenInv(s)
  {
    var u: nat, n: nat, a: nat, r: nat, c: nat, steps: seq<Step> :|
      Feasible(Init(u, n, a, r, c), steps) && s == Exec(Init(u, n, a, r, c), steps);
    InitKeeps(u, n, a, r, c);
    OpenExec(Init(u, n, a, r, c), steps);
  }

  /** The state of affairs between ticks. */
  function Plain(s: Sys): Course {
    Course(s.wheel, Stamps(s.pool.hist.log), s.now)
  }

  lemma NoTickAhead(s: Sys)
    requires !MidTick(Holder(s))
    ensures CourseOf(s) == Plain(s)
  {
    NoneInFront(Stamps(s.pool.hist.log));
  }

  /** Interleaving refines atomic ticks.  Over any stretch without a step of
      cancel_timer that begins and ends between ticks, the wheel goes through the
      operations completed, and the pool's log gains exactly the timers those
      ticks fire, each stamped with its tick, in the order of ticks and cells. */
  lemma {:induction false} InterleavingRefinesWheel(s: Sys, steps: seq<Step>)
    requires Reachable(s) && Feasible(s, steps) && CancelFree(steps)
    requires !MidTick(Holder(s)) && !MidTick(Holder(Exec(s, steps)))
    ensures Plain(Exec(s, steps)) == Advanced(Plain(s), OpsOf(s, steps))
  {
    OpenReachable(s);
    RunIsAtomic(s, steps);
    NoTickAhead(s);
    NoTickAhead(Exec(s, steps));
  }

  /** One tick taken apart: turn, tests, calls of add_task and decrements together
      are the operation on the whole wheel. */
  lemma {:induction false} TickInPieces(s: Sys, steps: seq<Step>)
    requires Reachable(s) && Feasible(s, steps) && CancelFree(steps) && OpsOf(s, steps) == [W.Tick]
    requires !MidTick(Holder(s)) && !MidTick(Holder(Exec(s, steps)))
    ensures Plain(Exec(s, steps)) == Advance(Plain(s), W.Tick)
  {
    InterleavingRefinesWheel(s, steps);
    assert OpsOf(s, steps)[1..] == [];
  }

  // -------------------------------------------------------------- delay law

  function TickIf(x: Stamp, id: nat): seq<nat> {
    if x.Timed? && x.id == id then [x.tick] else []
  }

  /** The ticks with which timer id is stamped. */
  function TicksFor(log: seq<Stamp>, id: nat): seq<nat> {
    if log == [] then [] else TickIf(log[0], id) + TicksFor(log[1..], id)
  }

  lemma {:induction false} TicksForAppend(x: seq<Stamp>, y: seq<Stamp>, id: nat)
    ensures TicksFor(x + y, id) == TicksFor(x, id) + TicksFor(y, id)
  {
    if x == [] {
      NoneInFront(y);
    } else {
      TicksForAppend(x[1..], y, id);
      RestOfAppend(x, y);
      Assoc(TickIf(x[0], id), TicksFor(x[1..], id), TicksFor(y, id));
    }
  }

  function Numbers(hits: seq<(nat, Callable)>): seq<nat> {
    seq(|hits|, i requires 0 <= i < |hits| => hits[i].0)
  }

  lemma NumbersAppend(x: seq<(nat, Callable)>, y: seq<(nat, Callable)>)
    ensures Numbers(x + y) == Numbers(x) + Numbers(y)
  {
  }

  lemma {:induction false} MarkedHits(cells: seq<W.Cell<Callable>>, id: nat, n: nat)
    ensures TicksFor(Marked(cells, n), id) == Numbers(WT.Hits(cells, id, n))
  {
    if cells != [] {
      MarkedHits(cells[1..], id, n);
      assert Marked(cells, n)[1..] == Marked(cells[1..], n);
      var first := if cells[0].id == id then [(n, cells[0].task)] else [];
      NumbersAppend(first, WT.Hits(cells[1..], id, n));
      assert Numbers(first) == if cells[0].id == id then [n] else [];
    }
  }

  /** The dispatches of id by one operation that happens at once. */
  function OwnHits(w: W.State<Callable>, op: W.Op<Callable>, id: nat, n: nat): seq<(nat, Callable)> {
    if op.Tick? then WT.Hits(W.Output(w, W.Tick).cells, id, n + 1) else []
  }

  lemma DispatchesCons(w: W.State<Callable>, ops: seq<W.Op<Callable>>, id: nat, n: nat)
    requires ops != []
    ensures WT.Dispatches(w, ops, id, n) ==
            OwnHits(w, ops[0], id, n) +
            WT.Dispatches(W.Next(w, ops[0]), ops[1..], id, After(ops[0], n))
  {
    NoneInFront(WT.Dispatches(W.Next(w, ops[0]), ops[1..], id, n));
  }

  lemma EmitsHits(w: W.State<Callable>, op: W.Op<Callable>, id: nat, n: nat)
    ensures TicksFor(Emits(w, op, n), id) == Numbers(OwnHits(w, op, id, n))
  {
    if op.Tick? {
      MarkedHits(W.Output(w, W.Tick).cells, id, n + 1);
    }
  }

  /** What a course adds to the log for one timer are its dispatches by the plain run. */
  lemma {:induction false} LogGainsDispatches(c: Course, ops: seq<W.Op<Callable>>, id: nat)
    ensures TicksFor(Advanced(c, ops).log, id) == TicksFor(c.log, id) + Numbers(WT.Dispatches(c.wheel, ops, id, c.now))
    decreases |ops|
  {
    if ops == [] {
      NoneInFront(TicksFor(c.log, id));
    } else {
      var o, rest, d := ops[0], ops[1..], Advance(c, ops[0]);
      LogGainsDispatches(d, rest, id);
      DispatchesCons(c.wheel, ops, id, c.now);
      TicksForAppend(c.log, Emits(c.wheel, o, c.now), id);
      NumbersAppend(OwnHits(c.wheel, o, id, c.now), WT.Dispatches(d.wheel, rest, id, d.now));
      EmitsHits(c.wheel, o, id, c.now);
      Assoc(TicksFor(c.log, id), Numbers(OwnHits(c.wheel, o, id, c.now)),
            Numbers(WT.Dispatches(d.wheel, rest, id, d.now)));
    }
  }

  lemma {:induction false} NotYetStamped(log: seq<P.Job<Stamp>>, id: nat)
    requires forall j | 0 <= j < |log| && log[j].tt == Timer :: log[j].task.Timed? && log[j].task.id != id
    ensures TicksFor(Stamps(log), id) == []
  {
    if log != [] {
      var front, last := log[..|log| - 1], log[|log| - 1];
      NotYetStamped(front, id);
      TicksForAppend(Stamps(front), if last.tt == Timer then [last.task] else [], id);
    }
  }

  lemma {:induction false} NoStops(s: Sys, steps: seq<Step>, id: nat)
    requires Feasible(s, steps)
    ensures W.Stop(id) !in OpsOf(s, steps)
  {
    if steps != [] {
      NoStops(s, steps[..|steps| - 1], id);
    }
  }

  lemma {:induction false} NotStopped(ops: seq<W.Op<Callable>>, id: nat, d: int)
    requires W.Stop(id) !in ops
    ensures !WT.StoppedBefore(ops, id, d)
    decreases |ops|
  {
    if ops != [] {
      NotStopped(ops[1..], id, if ops[0].Tick? then d - 1 else d);
    }
  }

  /** The ticks on which a timer with this delay, inserted at tick n, is queued by tick m. */
  function DueBy(due: Countdown.Due, n: nat, m: nat): seq<nat> {
    match due
    case In(d) => if 0 <= d <= m - n then [n + d] else []
    case Never => []
    case Expired => []
  }

  lemma {:induction false} FateIsDue(v: Option<Countdown.Timer<Callable>>, due: Countdown.Due, task: Callable,
                                     ops: seq<W.Op<Callable>>, id: nat, n: nat)
    requires WT.DueAs(v, due, task) && W.Stop(id) !in ops
    ensures Numbers(WT.Fate(v, ops, id, n)) == DueBy(due, n, n + W.Ticks(ops))
  {
    WT.FateExactly(v, ops, id, n);
    if due.In? {
      NotStopped(ops, id, due.ticks);
    }
  }

  lemma {:induction false} NewIsDue(w: W.State<Callable>, ms: int, task: Callable)
    requires W.Inv(w)
    ensures WT.DueAs(WT.View(W.Add(w, ms, task), w.cid + 1), Countdown.Delay(w.cur, ms), task)
  {
    WT.NewView(w, ms, task);
    WT.PlacementIsDelay(w.cur, ms);
  }

  lemma AddKeeps(w: W.State<Callable>, ms: int, task: Callable)
    requires W.Inv(w)
    ensures W.Inv(W.Add(w, ms, task)) && W.Add(w, ms, task).cid == w.cid + 1
  {
    W.NextInv(w, W.Insert(ms, task));
  }

  lemma {:induction false} ViewDispatches(w: W.State<Callable>, due: Countdown.Due, task: Callable,
                                          ops: seq<W.Op<Callable>>, id: nat, n: nat)
    requires W.Inv(w) && id <= w.cid && WT.DueAs(WT.View(w, id), due, task) && W.Stop(id) !in ops
    ensures Numbers(WT.Dispatches(w, ops, id, n)) == DueBy(due, n, n + W.Ticks(ops))
  {
    WT.DispatchesAreFate(w, ops, id, n);
    FateIsDue(WT.View(w, id), due, task, ops, id, n);
  }

  /** A timer that is due so and has not been queued. */
  ghost predicate Waits(c: Course, id: nat, due: Countdown.Due, task: Callable) {
    && W.Inv(c.wheel) && id <= c.wheel.cid && WT.DueAs(WT.View(c.wheel, id), due, task)
    && TicksFor(c.log, id) == []
  }

  lemma {:induction false} WaitsUntilDue(c: Course, d: Course, ops: seq<W.Op<Callable>>, id: nat,
                                         due: Countdown.Due, task: Callable)
    requires Waits(c, id, due, task) && W.Stop(id) !in ops && d == Advanced(c, ops)
    ensures TicksFor(d.log, id) == DueBy(due, c.now, d.now)
  {
    LogGainsDispatches(c, ops, id);
    NoneInFront(Numbers(WT.Dispatches(c.wheel, ops, id, c.now)));
    ViewDispatches(c.wheel, due, task, ops, id, c.now);
    AdvancedWheel(c, ops);
  }

  lemma InsertMove(s: Sys, u: nat)
    requires Inv(s) && Enabled(s, Move(u)) && s.agents[u].Inserting?
    ensures var t := Apply(s, Move(u));
            && !MidTick(Holder(t)) && t.now == s.now && t.pool.hist.log == s.pool.hist.log
            && t.wheel == W.Add(s.wheel, s.agents[u].ms, s.agents[u].task)
  {
    assert Holds(s.agents[u]) && s.wlock == Some(u);
  }

  lemma NewWaits(s: Sys, t: Sys, ms: int, task: Callable)
    requires W.Inv(s.wheel) && LogInv(s)
    requires t.wheel == W.Add(s.wheel, ms, task) && t.pool.hist.log == s.pool.hist.log
    ensures Waits(Plain(t), s.wheel.cid + 1, Countdown.Delay(s.wheel.cur, ms), task)
  {
    AddKeeps(s.wheel, ms, task);
    NewIsDue(s.wheel, ms, task);
    NotYetStamped(s.pool.hist.log, s.wheel.cid + 1);
  }

  lemma {:induction false} DelayFrom(t: Sys, more: seq<Step>, id: nat, due: Countdown.Due, task: Callable)
    requires Reachable(t) && Feasible(t, more) && CancelFree(more) && Waits(Plain(t), id, due, task)
    requires !MidTick(Holder(t)) && !MidTick(Holder(Exec(t, more)))
    ensures TicksFor(Plain(Exec(t, more)).log, id) == DueBy(due, t.now, Exec(t, more).now)
  {
    InterleavingRefinesWheel(t, more);
    NoStops(t, more, id);
    WaitsUntilDue(Plain(t), Plain(Exec(t, more)), OpsOf(t, more), id, due, task);
  }

  /** The delay law under interleaving.  A timer inserted at tick s.now, in a run
      without steps of cancel_timer that stops between ticks: the pool's log holds
      it exactly once, stamped with the tick that Delay names, when that tick has
      come, and otherwise not at all. */
  lemma {:induction false} DelayLawInterleaved(s: Sys, u: nat, more: seq<Step>)
    requires Reachable(s) && Enabled(s, Move(u)) && s.agents[u].Inserting?
    requires Feasible(Apply(s, Move(u)), more) && CancelFree(more)
    requires !MidTick(Holder(Exec(Apply(s, Move(u)), more)))
    ensures var e := Exec(Apply(s, Move(u)), more);
            TicksFor(Stamps(e.pool.hist.log), s.wheel.cid + 1) ==
            DueBy(Countdown.Delay(s.wheel.cur, s.agents[u].ms), s.now, e.now)
  {
    InvReachable(s);
    ReachableStep(s, Move(u));
    InsertMove(s, u);
    NewWaits(s, Apply(s, Move(u)), s.agents[u].ms, s.agents[u].task);
    DelayFrom(Apply(s, Move(u)), more, s.wheel.cid + 1, Countdown.Delay(s.wheel.cur, s.agents[u].ms),
              s.agents[u].task);
  }
}
