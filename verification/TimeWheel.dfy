/** The time_wheel object: its fields and the loops over them, each proved to be
    the corresponding operation on wheel values. */
module TimeWheels {
  import opened PoolQueues
  import opened ThreadPools
  import opened Wheel
  import WT = WheelTheorems
  import Countdown

  class TimeWheel<T> {
    const pool: ThreadPool<T>
    var inited: bool
    /** Threads started by init_wheel that have yet to post their tick. */
    var posters: nat
    var currentScale: int
    var cid: nat
    var taskMap: map<int, seq<Cell<T>>>
    var idMap: map<nat, int>

    ghost function Contents(): State<T>
      reads this
    {
      State(currentScale, cid, taskMap, idMap)
    }

    constructor (pool: ThreadPool<T>)
      ensures this.pool == pool && Contents() == Init() && !inited && posters == 0
    {
      this.pool := pool;
      inited, posters := false, 0;
      currentScale, cid, taskMap, idMap := 1, 0, map[], map[];
    }

    /** init_wheel starts a thread that will post one tick. */
    method InitWheel()
      modifies `inited, `posters
      ensures inited && posters == old(posters) + 1
    {
      posters := posters + 1;
      inited := true;
    }

    /** That thread after its sleep: the tick becomes a highest-priority task. */
    method PostTick(tick: T)
      requires posters > 0
      modifies `posters, pool`normalQueue, pool`timerQueue, pool`highestQueue, pool`detached
      ensures posters == old(posters) - 1
      ensures pool.Contents() == Admit(old(pool.Contents()), Highest, tick, pool.threadNum, pool.currentRunThread)
      ensures pool.detached == if GoesDirect(Highest, pool.threadNum, pool.currentRunThread)
                               then old(pool.detached) + [tick] else old(pool.detached)
    {
      pool.AddTask(Highest, tick);
      posters := posters - 1;
    }

    /** cancel_timer. */
    method CancelTimer(id: nat) returns (ok: bool)
      modifies `taskMap, `idMap
      ensures (Contents(), ok) == Cancel(old(Contents()), id)
    {
      idMap := Indexed(idMap, id);
      var slot := idMap[id];
      var list := Bucket(taskMap, slot);
      taskMap := taskMap[slot := list];
      for i := 0 to |list|
        invariant list == Bucket(old(taskMap), slot) && taskMap == old(taskMap)[slot := list]
        invariant idMap == Indexed(old(idMap), id)
        invariant forall j | 0 <= j < i :: list[j].id != id
      {
        if list[i].id == id {
          assert Find(list, id) == i;
          if list[i].count < 0 {
            return false;
          }
          list := list[i := list[i].(valid := false)];
          taskMap := taskMap[slot := list];
          assert taskMap == old(taskMap)[slot := list];
          return true;
        }
      }
      return false;
    }

    /** add_ms_task. */
    method AddMsTask(ms: int, f: T) returns (id: nat)
      modifies `cid, `taskMap, `idMap
      ensures Contents() == Add(old(Contents()), ms, f) && id == cid
    {
      cid := cid + 1;
      var msTimer := ms + currentScale;
      var t := Cell(Quot(msTimer), cid, true, f);
      var slot := Rem(msTimer);
      var list := Bucket(taskMap, slot);
      ghost var before := list;
      var insert := false;
      for i := 0 to |list|
        invariant list == before && !insert
        invariant forall j | 0 <= j < i :: list[j].count >= 0
      {
        if list[i].count < 0 {
          assert FirstExpired(before) == i;
          list := list[i := t];
          insert := true;
          break;
        }
      }
      if !insert {
        list := list + [t];
      }
      assert list == Place(before, t);
      taskMap := taskMap[slot := list];
      idMap := idMap[cid := slot];
      return cid;
    }

    /** add_s_task. */
    method AddSTask(s: int, f: T) returns (id: nat)
      modifies `cid, `taskMap, `idMap
      ensures Contents() == Add(old(Contents()), 1000 * s, f) && id == cid
    {
      id := AddMsTask(1000 * s, f);
    }

    method Turn()
      modifies `currentScale
      ensures Contents() == Wheel.Turn(old(Contents()))
    {
      if currentScale == SCALE {
        currentScale := 1;
      } else {
        currentScale := currentScale + 1;
      }
    }

    /** process: the callables of the firing cells join the pool's timer queue, each
        once and in cell order. */
    method Process()
      modifies `taskMap, pool`normalQueue, pool`timerQueue, pool`highestQueue, pool`detached
      ensures Contents() == Wheel.Process(old(Contents()))
      ensures pool.detached == old(pool.detached)
      ensures pool.normalQueue == old(pool.normalQueue) && pool.highestQueue == old(pool.highestQueue)
      ensures var firing, n := Firing(Bucket(old(taskMap), currentScale)), |old(pool.timerQueue)|;
              && |pool.timerQueue| == n + |firing| && pool.timerQueue[..n] == old(pool.timerQueue)
              && forall i | 0 <= i < |firing| :: pool.timerQueue[n + i] == firing[i].task
    {
      var list := Bucket(taskMap, currentScale);
      ghost var before, n := list, |pool.timerQueue|;
      for i := 0 to |list|
        invariant Contents() == old(Contents()) && |list| == |before|
        invariant forall j | 0 <= j < i :: list[j] == before[j].(count := before[j].count - 1)
        invariant forall j | i <= j < |list| :: list[j] == before[j]
        invariant pool.detached == old(pool.detached)
        invariant pool.normalQueue == old(pool.normalQueue) && pool.highestQueue == old(pool.highestQueue)
        invariant |pool.timerQueue| == n + |Firing(before[..i])| && pool.timerQueue[..n] == old(pool.timerQueue)
        invariant forall k | 0 <= k < |Firing(before[..i])| :: pool.timerQueue[n + k] == Firing(before[..i])[k].task
      {
        assert before[..i + 1][..i] == before[..i];
        ghost var queued := pool.timerQueue;
        if list[i].count == 0 && list[i].valid {
          pool.AddTask(Timer, list[i].task);
          assert pool.Contents().timer == queued + [list[i].task];
          assert Firing(before[..i + 1]) == Firing(before[..i]) + [before[i]];
        }
        list := list[i := list[i].(count := list[i].count - 1)];
      }
      assert before[..|before|] == before && list == Lowered(before);
      taskMap := taskMap[currentScale := list];
    }

    /** The body of the tick task: turn, then process.  In step with a countdown
        scheduler it queues the task of each timer that fires there, once. */
    method Tick()
      modifies `currentScale, `taskMap, pool`normalQueue, pool`timerQueue, pool`highestQueue, pool`detached
      ensures Contents() == Next(old(Contents()), Op.Tick)
      ensures pool.detached == old(pool.detached)
      ensures pool.normalQueue == old(pool.normalQueue) && pool.highestQueue == old(pool.highestQueue)
      ensures var firing, n := Output(old(Contents()), Op.Tick).cells, |old(pool.timerQueue)|;
              && |pool.timerQueue| == n + |firing| && pool.timerQueue[..n] == old(pool.timerQueue)
              && forall i | 0 <= i < |firing| :: pool.timerQueue[n + i] == firing[i].task
      ensures forall a: Countdown.State<T> | WT.Sim(old(Contents()), a) ::
                && WT.Sim(Contents(), Countdown.Tick(a))
                && WT.QueuesEachOnce(Countdown.Firing(a), pool.timerQueue[|old(pool.timerQueue)|..])
    {
      Turn();
      Process();
      forall a: Countdown.State<T> | WT.Sim(old(Contents()), a)
        ensures WT.Sim(Contents(), Countdown.Tick(a))
        ensures WT.QueuesEachOnce(Countdown.Firing(a), pool.timerQueue[|old(pool.timerQueue)|..])
      {
        WT.StateRefines(old(Contents()), a, Op.Tick);
        WT.TickQueuesWhatFires(old(Contents()), a, pool.timerQueue[|old(pool.timerQueue)|..]);
      }
    }
  }
}
