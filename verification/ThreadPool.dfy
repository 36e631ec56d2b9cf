/** The thread_pool object: its fields, and the methods whose bodies run as one
    critical section.  The interleaving of run, add_task and release is the
    subject of PoolProtocol. */
module ThreadPools {
  import opened Options
  import opened PoolQueues

  class ThreadPool<T> {
    var currentRunThread: int
    var threadNum: int
    var exit: bool
    var inited: bool
    var normalQueue: seq<T>
    var timerQueue: seq<T>
    var highestQueue: seq<T>
    /** Tasks handed to a thread of their own instead of a queue, oldest first. */
    var detached: seq<T>

    ghost function Contents(): Queues<T>
      reads this
    {
      Queues(highestQueue, timerQueue, normalQueue)
    }

    constructor ()
      ensures Contents() == Queues([], [], []) && detached == []
      ensures currentRunThread == 0 && threadNum == 0 && !exit && !inited
    {
      currentRunThread, threadNum, exit, inited := 0, 0, false, false;
      normalQueue, timerQueue, highestQueue, detached := [], [], [], [];
    }

    /** init_thread_pool, with the processor count as a parameter.  The counter
        of the C++ loop is decremented once more by the failing test, and that
        last value is what the recorded thread count becomes. */
    method InitThreadPool(processors: nat) returns (started: nat)
      modifies `threadNum, `inited
      ensures inited
      ensures old(inited) ==> started == 0 && threadNum == old(threadNum)
      ensures !old(inited) ==> started == processors && threadNum == -1
    {
      started := 0;
      if inited {
        return;
      }
      var coreNum: int := processors;
      var more := coreNum != 0;
      coreNum := coreNum - 1;
      while more
        invariant -1 <= coreNum && (more <==> coreNum >= 0)
        invariant started + coreNum + 1 == processors
        decreases coreNum
      {
        started := started + 1;
        more := coreNum != 0;
        coreNum := coreNum - 1;
      }
      threadNum := coreNum;
      inited := true;
    }

    /** The critical section of add_task. */
    method AddTask(tt: TaskType, f: T)
      modifies `normalQueue, `timerQueue, `highestQueue, `detached
      ensures Contents() == Admit(old(Contents()), tt, f, threadNum, currentRunThread)
      ensures detached == if GoesDirect(tt, threadNum, currentRunThread)
                          then old(detached) + [f] else old(detached)
    {
      match tt {
        case Highest =>
          if threadNum == currentRunThread {
            detached := detached + [f];
          } else {
            highestQueue := highestQueue + [f];
          }
        case Normal =>
          normalQueue := normalQueue + [f];
        case Timer =>
          timerQueue := timerQueue + [f];
      }
    }

    /** get_task: the popped callable, or None for the C++ result false. */
    method GetTask() returns (func: Option<T>)
      modifies `normalQueue, `timerQueue, `highestQueue
      ensures match Dequeue(old(Contents()))
              case Nothing => func == None && Contents() == old(Contents())
              case Taken(_, item, rest) => func == Some(item) && Contents() == rest
    {
      if highestQueue != [] {
        func := Some(highestQueue[0]);
        highestQueue := highestQueue[1..];
        return;
      }
      if timerQueue != [] {
        func := Some(timerQueue[0]);
        timerQueue := timerQueue[1..];
        return;
      }
      if normalQueue == [] {
        return None;
      }
      func := Some(normalQueue[0]);
      normalQueue := normalQueue[1..];
    }
  }
}
