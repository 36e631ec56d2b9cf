/** The three task queues of the thread pool, as values: what add_task does
    under the mutex (Admit) and what get_task does under the mutex (Dequeue).
    Both the ThreadPool class and the interleaved protocol use these. */
module PoolQueues {
  /** The task_type enumeration. */
  datatype TaskType = Highest | Timer | Normal {
    /** A larger rank is served first. */
    function Rank(): nat {
      match this
      case Highest => 2
      case Timer => 1
      case Normal => 0
    }
  }

  datatype Queues<E> = Queues(highest: seq<E>, timer: seq<E>, normal: seq<E>) {
    function Of(c: TaskType): seq<E> {
      match c
      case Highest => highest
      case Timer => timer
      case Normal => normal
    }

    function Push(c: TaskType, e: E): Queues<E> {
      match c
      case Highest => this.(highest := highest + [e])
      case Timer => this.(timer := timer + [e])
      case Normal => this.(normal := normal + [e])
    }

    predicate Empty() {
      highest == [] && timer == [] && normal == []
    }
  }

  datatype Taken<E> = Nothing | Taken(tt: TaskType, item: E, rest: Queues<E>)

  /** get_task: the front of the first non-empty queue. */
  function Dequeue<E>(q: Queues<E>): Taken<E> {
    if q.highest != [] then Taken(Highest, q.highest[0], q.(highest := q.highest[1..]))
    else if q.timer != [] then Taken(Timer, q.timer[0], q.(timer := q.timer[1..]))
    else if q.normal != [] then Taken(Normal, q.normal[0], q.(normal := q.normal[1..]))
    else Nothing
  }

  /** The test of add_task: a highest-priority task bypasses the queues when the
      running counter equals the recorded thread count. */
  predicate GoesDirect(c: TaskType, threadNum: int, running: int) {
    c == Highest && threadNum == running
  }

  /** The switch of add_task. */
  function Admit<E>(q: Queues<E>, c: TaskType, e: E, threadNum: int, running: int): Queues<E> {
    if GoesDirect(c, threadNum, running) then q else q.Push(c, e)
  }

  /** add_task in the source's own terms: class by class, behind what is there,
      and a thread of its own for a highest-priority task when the two numbers agree. */
  lemma AdmitAppends<E>(q: Queues<E>, c: TaskType, e: E, threadNum: int, running: int)
    ensures GoesDirect(c, threadNum, running) <==> c.Highest? && threadNum == running
    ensures var r := Admit(q, c, e, threadNum, running);
            match c
            case Highest => r == if threadNum == running then q else q.(highest := q.highest + [e])
            case Timer => r == q.(timer := q.timer + [e])
            case Normal => r == q.(normal := q.normal + [e])
  {
  }

  /** get_task takes the oldest item of the best non-empty class, highest before
      timer before normal, and touches nothing else; it takes nothing exactly when
      every queue is empty. */
  lemma DequeueServesBest<E>(q: Queues<E>)
    ensures Dequeue(q).Nothing? <==> forall c: TaskType :: q.Of(c) == []
    ensures var d := Dequeue(q);
            d.Taken? ==>
              && q.Of(d.tt) == [d.item] + d.rest.Of(d.tt)
              && (forall c: TaskType | c.Rank() > d.tt.Rank() :: q.Of(c) == [])
              && (forall c: TaskType | c != d.tt :: d.rest.Of(c) == q.Of(c))
    ensures var d := Dequeue(q);
            if q.highest != [] then d == Taken(Highest, q.highest[0], Queues(q.highest[1..], q.timer, q.normal))
            else if q.timer != [] then d == Taken(Timer, q.timer[0], Queues([], q.timer[1..], q.normal))
            else if q.normal != [] then d == Taken(Normal, q.normal[0], Queues([], [], q.normal[1..]))
            else d == Nothing
    ensures Highest.Rank() > Timer.Rank() > Normal.Rank()
  {
    assert q.Of(Highest) == q.highest && q.Of(Timer) == q.timer && q.Of(Normal) == q.normal;
  }
}
