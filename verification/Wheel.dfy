/** The hashed timing wheel as a value: its state and what add_ms_task,
    cancel_timer and one tick (turn, then process) do to it. */
module Wheel {
  import opened Options

  const SCALE: int := 100

  /** C++ integer division by SCALE: truncates toward zero. */
  function Quot(x: int): int {
    if x >= 0 then x / SCALE else -((-x) / SCALE)
  }

  /** C++ remainder by SCALE: takes the sign of x. */
  function Rem(x: int): int {
    x - SCALE * Quot(x)
  }

  datatype Cell<T> = Cell(count: int, id: nat, valid: bool, task: T)

  datatype State<T> = State(
    cur: int,                              // m_current_scale
    cid: nat,
    buckets: map<int, seq<Cell<T>>>,       // m_task_map
    index: map<nat, int>                   // m_id_map
  )

  function Init<T>(): State<T> {
    State(1, 0, map[], map[])
  }

  /** Subscripting m_task_map: an absent bucket reads as empty. */
  function Bucket<T>(m: map<int, seq<Cell<T>>>, k: int): seq<Cell<T>> {
    if k in m then m[k] else []
  }

  // -------------------------------------------------------------------- add

  /** The first reusable cell, or the length when every cell is still live. */
  function FirstExpired<T>(b: seq<Cell<T>>): (r: nat)
    ensures r <= |b|
    ensures forall j | 0 <= j < r :: b[j].count >= 0
    ensures r < |b| ==> b[r].count < 0
  {
    if b == [] || b[0].count < 0 then 0 else 1 + FirstExpired(b[1..])
  }

  function Place<T>(b: seq<Cell<T>>, c: Cell<T>): seq<Cell<T>> {
    var r := FirstExpired(b);
    if r < |b| then b[r := c] else b + [c]
  }

  /** A new cell takes the place of the first cell whose count is negative, and
      goes behind the last one when there is none. */
  lemma PlaceReusesFirst<T>(b: seq<Cell<T>>, c: Cell<T>, r: nat)
    requires r <= |b| && (forall j | 0 <= j < r :: b[j].count >= 0) && (r < |b| ==> b[r].count < 0)
    ensures Place(b, c) == if r < |b| then b[..r] + [c] + b[r + 1..] else b + [c]
  {
    assert FirstExpired(b) == r;
  }

  /** Insertion with the slot and the revolution count left open. */
  function AddAt<T>(s: State<T>, slot: int, count: int, task: T): State<T> {
    var id := s.cid + 1;
    s.(cid := id,
       buckets := s.buckets[slot := Place(Bucket(s.buckets, slot), Cell(count, id, true, task))],
       index := s.index[id := slot])
  }

  function Add<T>(s: State<T>, ms: int, task: T): State<T> {
    AddAt(s, Rem(ms + s.cur), Quot(ms + s.cur), task)
  }

  // ----------------------------------------------------------------- cancel

  /** The first cell carrying the id, or the length when there is none. */
  function Find<T>(b: seq<Cell<T>>, id: nat): (r: nat)
    ensures r <= |b|
    ensures forall j | 0 <= j < r :: b[j].id != id
    ensures r < |b| ==> b[r].id == id
  {
    if b == [] || b[0].id == id then 0 else 1 + Find(b[1..], id)
  }

  /** Subscripting m_id_map: an unknown id is entered with slot 0. */
  function Indexed(index: map<nat, int>, id: nat): map<nat, int> {
    if id in index then index else index[id := 0]
  }

  function Cancel<T>(s: State<T>, id: nat): (State<T>, bool) {
    var index := Indexed(s.index, id);
    var b := Bucket(s.buckets, index[id]);
    var j := Find(b, id);
    if j < |b| && b[j].count >= 0 then
      (s.(index := index, buckets := s.buckets[index[id] := b[j := b[j].(valid := false)]]), true)
    else
      (s.(index := index, buckets := s.buckets[index[id] := b]), false)
  }

  // ------------------------------------------------------------------- tick

  function Turn<T>(s: State<T>): State<T> {
    s.(cur := if s.cur == SCALE then 1 else s.cur + 1)
  }

  function Fires<T>(c: Cell<T>): bool {
    c.count == 0 && c.valid
  }

  /** The cells process hands to the pool, in order. */
  function Firing<T>(b: seq<Cell<T>>): seq<Cell<T>> {
    if b == [] then [] else Firing(b[..|b| - 1]) + (if Fires(b[|b| - 1]) then [b[|b| - 1]] else [])
  }

  /** The bucket after process: every count one lower, expired or not. */
  function Lowered<T>(b: seq<Cell<T>>): seq<Cell<T>> {
    seq(|b|, j requires 0 <= j < |b| => b[j].(count := b[j].count - 1))
  }

  function Process<T>(s: State<T>): State<T> {
    s.(buckets := s.buckets[s.cur := Lowered(Bucket(s.buckets, s.cur))])
  }

  // ------------------------------------------------------------------- runs

  datatype Op<T> = Insert(ms: int, task: T) | Stop(id: nat) | Tick

  datatype Out<T> = Issued(id: nat) | Answer(ok: bool) | Dispatched(cells: seq<Cell<T>>)

  function Next<T>(s: State<T>, op: Op<T>): State<T> {
    match op
    case Insert(ms, task) => Add(s, ms, task)
    case Stop(id) => Cancel(s, id).0
    case Tick => Process(Turn(s))
  }

  function Output<T>(s: State<T>, op: Op<T>): Out<T> {
    match op
    case Insert(_, _) => Issued(s.cid + 1)
    case Stop(id) => Answer(Cancel(s, id).1)
    case Tick => Dispatched(Firing(Bucket(s.buckets, Turn(s).cur)))
  }

  function Run<T>(s: State<T>, ops: seq<Op<T>>): State<T>
    decreases |ops|
  {
    if ops == [] then s else Run(Next(s, ops[0]), ops[1..])
  }

  function Outputs<T>(s: State<T>, ops: seq<Op<T>>): seq<Out<T>>
    decreases |ops|
  {
    if ops == [] then [] else [Output(s, ops[0])] + Outputs(Next(s, ops[0]), ops[1..])
  }

  function Ticks<T>(ops: seq<Op<T>>): nat {
    if ops == [] then 0 else (if ops[0].Tick? then 1 else 0) + Ticks(ops[1..])
  }

  // -------------------------------------------------------------- invariant

  ghost predicate DistinctIds<T>(b: seq<Cell<T>>) {
    forall i, j | 0 <= i < j < |b| :: b[i].id != b[j].id
  }

  /** Every cell sits in the bucket its id is indexed under, once. */
  ghost predicate Inv<T>(s: State<T>) {
    && 1 <= s.cur <= SCALE
    && (forall k | k in s.buckets :: DistinctIds(s.buckets[k]))
    && (forall k, j | k in s.buckets && 0 <= j < |s.buckets[k]| ::
          var id := s.buckets[k][j].id; 1 <= id <= s.cid && id in s.index && s.index[id] == k)
  }

  /** The cell of an id, if the wheel still has one. */
  function Lookup<T>(s: State<T>, id: nat): Option<Cell<T>> {
    if id !in s.index then None
    else
      var b := Bucket(s.buckets, s.index[id]);
      var j := Find(b, id);
      if j < |b| then Some(b[j]) else None
  }

  lemma InitInv<T>()
    ensures Inv(Init<T>())
  {
  }

  lemma AddInv<T>(s: State<T>, slot: int, count: int, task: T)
    requires Inv(s)
    ensures Inv(AddAt(s, slot, count, task))
  {
    var b := Bucket(s.buckets, slot);
    var c := Cell(count, s.cid + 1, true, task);
    assert DistinctIds(Place(b, c));
  }

  lemma CancelInv<T>(s: State<T>, id: nat)
    requires Inv(s)
    ensures Inv(Cancel(s, id).0)
  {
    var b := Bucket(s.buckets, Indexed(s.index, id)[id]);
    assert DistinctIds(b);
  }

  lemma TickInv<T>(s: State<T>)
    requires Inv(s)
    ensures Inv(Process(Turn(s)))
  {
    assert DistinctIds(Lowered(Bucket(s.buckets, Turn(s).cur)));
  }

  lemma NextInv<T>(s: State<T>, op: Op<T>)
    requires Inv(s)
    ensures Inv(Next(s, op))
  {
    match op {
      case Insert(ms, task) => AddInv(s, Rem(ms + s.cur), Quot(ms + s.cur), task);
      case Stop(id) => CancelInv(s, id);
      case Tick => TickInv(s);
    }
  }

  lemma {:induction false} RunInv<T>(s: State<T>, ops: seq<Op<T>>)
    requires Inv(s)
    ensures Inv(Run(s, ops))
    decreases |ops|
  {
    if ops != [] {
      NextInv(s, ops[0]);
      RunInv(Next(s, ops[0]), ops[1..]);
    }
  }

  // ----------------------------------------- what each operation does by id

  lemma FindUnique<T>(b: seq<Cell<T>>, j: nat)
    requires DistinctIds(b) && j < |b|
    ensures Find(b, b[j].id) == j
  {
  }

  /** An insertion changes no live timer: at most it reuses an expired cell. */
  lemma AddLookup<T>(s: State<T>, slot: int, count: int, task: T, id: nat)
    requires Inv(s)
    ensures var t := AddAt(s, slot, count, task);
            if id == t.cid then Lookup(t, id) == Some(Cell(count, id, true, task)) && t.index[id] == slot
            else
              && (id in t.index <==> id in s.index)
              && (id in s.index ==> t.index[id] == s.index[id])
              && (Lookup(t, id) == Lookup(s, id)
                  || (Lookup(t, id).None? && Lookup(s, id).Some? && Lookup(s, id).value.count < 0))
  {
    var t := AddAt(s, slot, count, task);
    AddInv(s, slot, count, task);
    var b, b' := Bucket(s.buckets, slot), t.buckets[slot];
    var r := FirstExpired(b);
    if id == t.cid {
      assert b'[r] == Cell(count, id, true, task);
      FindUnique(b', r);
    } else if id in s.index && s.index[id] == slot {
      assert DistinctIds(b);
      var j := Find(b, id);
      if j < |b| && j != r {
        FindUnique(b', j);
      }
    }
  }

  /** A cancellation answers whether the timer is live and changes only its valid flag. */
  lemma CancelLookup<T>(s: State<T>, stop: nat, id: nat)
    requires Inv(s)
    ensures var (t, ok) := Cancel(s, stop);
            && (ok <==> Lookup(s, stop).Some? && Lookup(s, stop).value.count >= 0)
            && (Lookup(s, id).Some? ==> id in t.index && t.index[id] == s.index[id])
            && Lookup(t, id) == if id == stop && ok then Some(Lookup(s, id).value.(valid := false)) else Lookup(s, id)
  {
    var (t, ok) := Cancel(s, stop);
    CancelInv(s, stop);
    var index := Indexed(s.index, stop);
    var b := Bucket(s.buckets, index[stop]);
    var j := Find(b, stop);
    if id !in s.index && id in index {
      assert Find(b, id) == j;
      assert j == |b|;
    } else if id in s.index && s.index[id] == index[stop] {
      var b' := t.buckets[index[stop]];
      var i := Find(b, id);
      assert |b'| == |b|;
      if i < |b| {
        assert DistinctIds(b');
        FindUnique(b', i);
      }
    }
  }

  /** A tick lowers the counts of the bucket under the hand and nothing else. */
  lemma TickLookup<T>(s: State<T>, id: nat)
    requires Inv(s)
    ensures var t := Process(Turn(s));
            && t.index == s.index
            && Lookup(t, id) ==
               match Lookup(s, id)
               case Some(c) => if s.index[id] == t.cur then Some(c.(count := c.count - 1)) else Some(c)
               case None => None
  {
    var t := Process(Turn(s));
    if id in s.index && s.index[id] == t.cur {
      var b := Bucket(s.buckets, t.cur);
      var i := Find(b, id);
      var b' := t.buckets[t.cur];
      if i < |b| {
        TickInv(s);
        FindUnique(b', i);
      }
    }
  }

  lemma {:induction false} FiringMember<T>(b: seq<Cell<T>>, c: Cell<T>)
    ensures c in Firing(b) <==> c in b && Fires(c)
  {
    if b != [] {
      FiringMember(b[..|b| - 1], c);
      assert b == b[..|b| - 1] + [b[|b| - 1]];
    }
  }

  /** The positions at, from first to last, of the cells that are at count 0 and
      not cancelled. */
  ghost predicate FireAt<T>(b: seq<Cell<T>>, at: seq<nat>) {
    && (forall i | 0 <= i < |at| :: at[i] < |b| && b[at[i]].count == 0 && b[at[i]].valid)
    && (forall i, k | 0 <= i < k < |at| :: at[i] < at[k])
    && forall j | 0 <= j < |b| && b[j].count == 0 && b[j].valid :: j in at
  }

  /** process goes through the bucket in order and misses none. */
  lemma {:induction false} FiringInOrder<T>(b: seq<Cell<T>>) returns (at: seq<nat>)
    ensures FireAt(b, at) && |Firing(b)| == |at| && forall i | 0 <= i < |at| :: Firing(b)[i] == b[at[i]]
  {
    if b == [] {
      at := [];
    } else {
      var n := |b| - 1;
      var front := FiringInOrder(b[..n]);
      at := if Fires(b[n]) then front + [n] else front;
      FireAtSnoc(b, front);
      FiringSnoc(b, front);
    }
  }

  lemma FireAtSnoc<T>(b: seq<Cell<T>>, at: seq<nat>)
    requires b != [] && FireAt(b[..|b| - 1], at)
    ensures FireAt(b, if Fires(b[|b| - 1]) then at + [|b| - 1] else at)
  {
    var n := |b| - 1;
    var longer := if Fires(b[n]) then at + [n] else at;
    forall i | 0 <= i < |at|
      ensures at[i] < n && b[at[i]] == b[..n][at[i]] && longer[i] == at[i]
    {
    }
    forall j | 0 <= j < |b| && b[j].count == 0 && b[j].valid
      ensures j in longer
    {
      if j < n {
        assert b[..n][j] == b[j];
        var i :| 0 <= i < |at| && at[i] == j;
        assert longer[i] == j;
      } else {
        assert longer[|at|] == n;
      }
    }
  }

  lemma FiringSnoc<T>(b: seq<Cell<T>>, at: seq<nat>)
    requires b != [] && FireAt(b[..|b| - 1], at) && |Firing(b[..|b| - 1])| == |at|
    requires forall i | 0 <= i < |at| :: Firing(b[..|b| - 1])[i] == b[at[i]]
    ensures var longer := if Fires(b[|b| - 1]) then at + [|b| - 1] else at;
            |Firing(b)| == |longer| && forall i | 0 <= i < |longer| :: longer[i] < |b| && Firing(b)[i] == b[longer[i]]
  {
  }

  /** A tick dispatches no id twice. */
  lemma {:induction false} FiringDistinct<T>(b: seq<Cell<T>>)
    requires DistinctIds(b)
    ensures DistinctIds(Firing(b))
  {
    if b != [] {
      var front := b[..|b| - 1];
      FiringDistinct(front);
      forall i | 0 <= i < |Firing(front)|
        ensures Firing(front)[i].id != b[|b| - 1].id
      {
        FiringMember(front, Firing(front)[i]);
        var j :| 0 <= j < |front| && front[j] == Firing(front)[i];
        assert b[j].id != b[|b| - 1].id;
      }
    }
  }

  /** An id is dispatched by a tick exactly when its cell is under the hand,
      at count 0 and valid, and then with the task it was given. */
  lemma TickDispatches<T>(s: State<T>, c: Cell<T>)
    requires Inv(s)
    ensures c in Firing(Bucket(s.buckets, Turn(s).cur)) <==>
            Lookup(s, c.id) == Some(c) && s.index[c.id] == Turn(s).cur && Fires(c)
  {
    var b := Bucket(s.buckets, Turn(s).cur);
    FiringMember(b, c);
    if c in b {
      var j :| 0 <= j < |b| && b[j] == c;
      FindUnique(b, j);
    }
  }
}
