/** The wheel and the pool together, step by step: threads call add_ms_task and
    run ticks under the wheel's mutex, a tick enters the pool's mutex for every
    timer it fires, and cancel_timer, whose lock guards nothing, reads and writes
    the wheel at any point in between.

    A call of cancel_timer is three steps: it looks the cell up, tests its count,
    and clears its valid flag.  The look-up, two map subscripts and the search of
    one bucket, is taken as one step, as is an insertion, which holds the mutex;
    the reference to the cell stays good while the bucket grows. */
module WheelPool {
  import opened Options
  import opened PoolQueues
  import P = PoolProtocol
  import W = Wheel

  /** A callable, of which only its identity matters. */
  type Callable = nat

  /** What is queued in the pool: a timer stamped with the tick that fired it, or
      something else. */
  datatype Stamp = Timed(id: nat, tick: nat) | Plain(task: Callable)

  /** A thread that uses the wheel.  Its calls of add_task are those of the pool
      adder with the same number. */
  datatype Agent =
    | Rest
    | WantInsert(ms: int, task: Callable)
    | Inserting(ms: int, task: Callable)                 // holds the wheel's mutex from here
    | Inserted
    | WantTick
    | Turning                                            // holds the wheel's mutex from here
    | Scanning(k: nat)                                   // about to test cell k
    | Calling(k: nat)                                    // inside add_task for cell k
    | Lowering(k: nat)                                   // about to decrement the count of cell k
    | Ticked

  /** A caller of cancel_timer, with the cell it has found. */
  datatype Canceller =
    | Away
    | Found(id: nat, slot: int, j: nat)                  // about to test the count of the cell
    | Storing(id: nat, slot: int, j: nat)                // about to clear its valid flag and answer true

  datatype Sys = Sys(
    wheel: W.State<Callable>,
    wlock: Option<nat>,                                  // the agent holding the wheel's mutex
    agents: seq<Agent>,
    cancellers: seq<Canceller>,
    pool: P.State<Stamp>,
    now: nat                                             // turns so far
  )

  datatype Step =
    | Pool(step: P.Step<Stamp>)                          // any move of the pool's threads
    | AskInsert(u: nat, ms: int, task: Callable)
    | AskTick(u: nat)
    | Move(u: nat)                                       // agent u makes its next move
    | Look(c: nat, id: nat)                              // cancel_timer(id): finds the cell or answers false
    | Test(c: nat)                                       // goes on, or answers false for an expired cell
    | Store(c: nat)                                      // clears the flag and answers true

  function Init(agents: nat, workers: nat, others: nat, releasers: nat, cancellers: nat): Sys {
    Sys(W.Init(), None, seq(agents, _ => Rest), seq(cancellers, _ => Away),
        P.Init(workers, agents + others, releasers), 0)
  }

  predicate Holds(a: Agent) {
    a.Inserting? || a.Inserted? || a.Turning? || a.Scanning? || a.Calling? || a.Lowering? || a.Ticked?
  }

  /** The bucket the hand stands at. */
  function Here(s: Sys): seq<W.Cell<Callable>> {
    W.Bucket(s.wheel.buckets, s.wheel.cur)
  }

  /** Adders with an agent's number belong to the agent, and only the wheel
      queues timer tasks. */
  predicate PoolMoveAllowed(s: Sys, step: P.Step<Stamp>) {
    step.Begin? ==> step.a >= |s.agents| && step.tt != Timer
  }

  predicate Enabled(s: Sys, step: Step) {
    match step
    case Pool(p) => P.Enabled(s.pool, p) && PoolMoveAllowed(s, p)
    case AskInsert(u, _, _) => u < |s.agents| && s.agents[u].Rest?
    case AskTick(u) => u < |s.agents| && s.agents[u].Rest?
    case Move(u) =>
      && u < |s.agents| && u < |s.pool.adders| && !s.agents[u].Rest?
      && (s.agents[u].WantInsert? || s.agents[u].WantTick? ==> s.wlock == None)
      && (s.agents[u].Scanning? || s.agents[u].Calling? ==> s.pool.adders[u].Idle?)
    case Look(c, _) => c < |s.cancellers| && s.cancellers[c].Away?
    case Test(c) => c < |s.cancellers| && s.cancellers[c].Found?
    case Store(c) => c < |s.cancellers| && s.cancellers[c].Storing?
  }

  function Apply(s: Sys, step: Step): Sys
    requires Enabled(s, step)
  {
    match step
    case Pool(p) => s.(pool := P.Apply(s.pool, p))
    case AskInsert(u, ms, task) => s.(agents := s.agents[u := WantInsert(ms, task)])
    case AskTick(u) => s.(agents := s.agents[u := WantTick])
    case Move(u) => AgentStep(s, u)
    case Look(c, id) => LookStep(s, c, id)
    case Test(c) => TestStep(s, c)
    case Store(c) =>
      s.(wheel := ClearCell(s.wheel, s.cancellers[c].slot, s.cancellers[c].j),
         cancellers := s.cancellers[c := Away])
  }

  function AgentStep(s: Sys, u: nat): Sys
    requires Enabled(s, Move(u))
  {
    match s.agents[u]
    case Rest => s
    case WantInsert(ms, task) => s.(wlock := Some(u), agents := s.agents[u := Inserting(ms, task)])
    case Inserting(ms, task) => s.(wheel := W.Add(s.wheel, ms, task), agents := s.agents[u := Inserted])
    case Inserted => s.(wlock := None, agents := s.agents[u := Rest])
    case WantTick => s.(wlock := Some(u), agents := s.agents[u := Turning])
    case Turning =>
      s.(wheel := Opened(W.Turn(s.wheel), W.Turn(s.wheel).cur), now := s.now + 1,
         agents := s.agents[u := Scanning(0)])
    case Scanning(k) => ScanStep(s, u, k)
    case Calling(k) => s.(agents := s.agents[u := Lowering(k)])
    case Lowering(k) =>
      s.(wheel := LowerCell(s.wheel, k), agents := s.agents[u := Scanning(k + 1)])
    case Ticked => s.(wlock := None, agents := s.agents[u := Rest])
  }

  /** One turn of the loop in process: the end of the list, or the test of cell k. */
  function ScanStep(s: Sys, u: nat, k: nat): Sys
    requires u < |s.agents| && u < |s.pool.adders| && s.pool.adders[u].Idle?
  {
    if k >= |Here(s)| then s.(agents := s.agents[u := Ticked])
    else if W.Fires(Here(s)[k]) then
      s.(agents := s.agents[u := Calling(k)],
         pool := P.Apply(s.pool, P.Begin(u, Timer, Timed(Here(s)[k].id, s.now))))
    else s.(agents := s.agents[u := Lowering(k)])
  }

  /** The search of cancel_timer. */
  function LookStep(s: Sys, c: nat, id: nat): Sys
    requires c < |s.cancellers|
  {
    var slot := W.Indexed(s.wheel.index, id)[id];
    var j := W.Find(W.Bucket(s.wheel.buckets, slot), id);
    s.(wheel := Opened(s.wheel.(index := W.Indexed(s.wheel.index, id)), slot),
       cancellers := s.cancellers[c := if j < |W.Bucket(s.wheel.buckets, slot)| then Found(id, slot, j) else Away])
  }

  /** The test of the cell found, whatever timer it holds by now. */
  function TestStep(s: Sys, c: nat): Sys
    requires c < |s.cancellers| && s.cancellers[c].Found?
  {
    var f := s.cancellers[c];
    var b := W.Bucket(s.wheel.buckets, f.slot);
    s.(cancellers := s.cancellers[c := if f.j < |b| && b[f.j].count < 0 then Away else Storing(f.id, f.slot, f.j)])
  }

  /** Subscripting m_task_map creates an absent bucket. */
  function Opened(w: W.State<Callable>, slot: int): W.State<Callable> {
    w.(buckets := w.buckets[slot := W.Bucket(w.buckets, slot)])
  }

  /** The wheel with one cell replaced. */
  function WithCell(w: W.State<Callable>, slot: int, j: nat, c: W.Cell<Callable>): W.State<Callable> {
    var b := W.Bucket(w.buckets, slot);
    if j < |b| then w.(buckets := w.buckets[slot := b[j := c]]) else w
  }

  function LowerCell(w: W.State<Callable>, k: nat): W.State<Callable> {
    var b := W.Bucket(w.buckets, w.cur);
    if k < |b| then WithCell(w, w.cur, k, b[k].(count := b[k].count - 1)) else w
  }

  function ClearCell(w: W.State<Callable>, slot: int, j: nat): W.State<Callable> {
    var b := W.Bucket(w.buckets, slot);
    if j < |b| then WithCell(w, slot, j, b[j].(valid := false)) else w
  }

  predicate Feasible(s: Sys, steps: seq<Step>)
    decreases |steps|, 0
  {
    steps == [] ||
    (Feasible(s, steps[..|steps| - 1]) && Enabled(Exec(s, steps[..|steps| - 1]), steps[|steps| - 1]))
  }

  function Exec(s: Sys, steps: seq<Step>): Sys
    requires Feasible(s, steps)
    decreases |steps|, 1
  {
    if steps == [] then s
    else Apply(Exec(s, steps[..|steps| - 1]), steps[|steps| - 1])
  }

  ghost predicate Reachable(s: Sys) {
    exists u: nat, n: nat, a: nat, r: nat, c: nat, steps: seq<Step> ::
      Feasible(Init(u, n, a, r, c), steps) && s == Exec(Init(u, n, a, r, c), steps)
  }
}
