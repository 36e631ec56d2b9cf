/** A plain countdown scheduler: the thing a timing wheel stands for.  It keeps,
    per timer, the number of ticks still to go, and knows nothing of slots,
    revolution counts or cell reuse. */
module Countdown {
  import opened Options
  import Wheel

  /** When a new timer is due: after so many ticks, never, or not at all
      because it counts as expired from the start. */
  datatype Due = In(ticks: int) | Never | Expired

  /** The delay a request for ms milliseconds gets at hand position cur. */
  function Delay(cur: int, ms: int): Due {
    var x := ms + cur;
    if x <= -100 then Expired
    else if x <= 0 || x % 100 == 0 then Never
    else if x % 100 > cur then In(ms)
    else In(ms + 100)
  }

  /** left is None for a timer that is never due. */
  datatype Timer<T> = Timer(left: Option<int>, valid: bool, task: T)

  datatype State<T> = State(now: nat, last: nat, pending: map<nat, Timer<T>>)

  datatype Out<T> = Issued(id: nat) | Answer(ok: bool) | Fired(tasks: map<nat, T>)

  function Init<T>(): State<T> {
    State(0, 0, map[])
  }

  function Insert<T>(s: State<T>, ms: int, task: T): State<T> {
    var id := s.last + 1;
    match Delay(s.now % 100 + 1, ms)
    case In(d) => s.(last := id, pending := s.pending[id := Timer(Some(d), true, task)])
    case Never => s.(last := id, pending := s.pending[id := Timer(None, true, task)])
    case Expired => s.(last := id)
  }

  function Stop<T>(s: State<T>, id: nat): State<T> {
    if id in s.pending then s.(pending := s.pending[id := s.pending[id].(valid := false)]) else s
  }

  function Lower(left: Option<int>): Option<int> {
    match left
    case None => None
    case Some(d) => Some(d - 1)
  }

  function Tick<T>(s: State<T>): State<T> {
    s.(now := s.now + 1,
       pending := map id | id in s.pending && s.pending[id].left != Some(1) ::
                    s.pending[id].(left := Lower(s.pending[id].left)))
  }

  function Firing<T>(s: State<T>): map<nat, T> {
    map id | id in s.pending && s.pending[id].left == Some(1) && s.pending[id].valid :: s.pending[id].task
  }

  function Next<T>(s: State<T>, op: Wheel.Op<T>): State<T> {
    match op
    case Insert(ms, task) => Insert(s, ms, task)
    case Stop(id) => Stop(s, id)
    case Tick => Tick(s)
  }

  function Output<T>(s: State<T>, op: Wheel.Op<T>): Out<T> {
    match op
    case Insert(_, _) => Issued(s.last + 1)
    case Stop(id) => Answer(id in s.pending)
    case Tick => Fired(Firing(s))
  }

  function Outputs<T>(s: State<T>, ops: seq<Wheel.Op<T>>): seq<Out<T>>
    decreases |ops|
  {
    if ops == [] then [] else [Output(s, ops[0])] + Outputs(Next(s, ops[0]), ops[1..])
  }
}
