/** run, add_task, release and init_thread_pool as threads that interleave.

    Every thread has a program counter; one step is one access to shared state:
    taking or leaving the mutex, one test, one queue operation, one store.  The
    mutex, the condition variable and the atomic exit flag are modelled as they
    behave in C++: the exit flag is stored without the mutex, a wait may wake up
    spuriously, and a notification reaches only threads already asleep. */
module PoolProtocol {
  import opened Options
  import opened PoolQueues

  /** A queued callable.  The ticket is its position in the order of queueing. */
  datatype Job<T> = Job(ticket: nat, tt: TaskType, task: T)

  datatype Thread = W(worker: nat) | A(adder: nat) | R(releaser: nat)

  /** A worker inside run; func is the local variable of that name. */
  datatype Worker<T> =
    | Unborn
    | Born                                               // wants the mutex
    | Testing                                            // about to call get_task
    | Drained                                            // get_task said false; about to load m_exit
    | Parking                                            // predicate false; about to block
    | Sleeping
    | Woken                                              // wants the mutex
    | Checking(func: Option<Job<T>>)                     // after wait, about to test m_exit
    | Passed(func: Option<Job<T>>)                       // about to increment the counter
    | Counted(func: Option<Job<T>>)                      // about to unlock
    | Running(func: Option<Job<T>>)                      // inside func()
    | Finished(func: Option<Job<T>>)                     // wants the mutex
    | Closing(func: Option<Job<T>>)                      // about to decrement the counter
    | Leaving(func: Option<Job<T>>, ran: bool)           // returning, mutex still held
    | Gone(func: Option<Job<T>>, ran: bool)

  /** A caller of add_task; a task running on a worker may be one. */
  datatype Adder<T> =
    | Idle
    | Wanting(tt: TaskType, task: T)
    | Holding(tt: TaskType, task: T)                     // before the switch
    | Pushed(queued: bool)                               // after it, mutex still held
    | Notifying(queued: bool)                            // unlocked, before notify_all

  /** A caller of release. */
  datatype Releaser =
    | Fresh
    | Stored                                             // exit flag set, before notify_all
    | Acquiring
    | Looking                                            // holds the mutex, about to test the counter
    | Dozing                                             // the 100 ms sleep, mutex free
    | Returning                                          // saw the counter at 0, mutex still held
    | Returned

  /** What happened so far; no step reads it. */
  datatype History<T> = History(
    log: seq<Job<T>>,                                    // jobs in the order they were queued
    popped: seq<Job<T>>,                                 // jobs in the order get_task took them
    takers: seq<nat>,                                    // the worker that took popped[j]
    moments: seq<nat>,                                   // how many jobs had been queued by then
    started: seq<nat>,                                   // workers in the order they entered func()
    direct: seq<T>                                       // tasks given a thread of their own
  )

  datatype State<T> = State(
    lock: Option<Thread>,
    exit: bool,
    running: int,                                        // m_current_run_thread
    threadNum: int,
    inited: bool,
    spawned: nat,
    queues: Queues<Job<T>>,
    workers: seq<Worker<T>>,
    adders: seq<Adder<T>>,
    releasers: seq<Releaser>,
    hist: History<T>
  )

  datatype Step<T> =
    | Start                                              // the next move of init_thread_pool
    | Work(i: nat)                                       // worker i makes its next move
    | Begin(a: nat, tt: TaskType, task: T)               // adder a calls add_task
    | Add(a: nat)                                        // adder a makes its next move
    | Release(r: nat)                                    // releaser r makes its next move

  function Init<T>(workers: nat, adders: nat, releasers: nat): State<T> {
    State(None, false, 0, 0, false, 0, Queues([], [], []),
          seq(workers, _ => Unborn), seq(adders, _ => Idle), seq(releasers, _ => Fresh),
          History([], [], [], [], [], []))
  }

  // ------------------------------------------------- one thread on its own

  predicate WorkerHolds<T>(w: Worker<T>) {
    w.Testing? || w.Drained? || w.Parking? || w.Checking? || w.Passed? || w.Counted? || w.Closing? || w.Leaving?
  }

  /** The next move takes the mutex. */
  predicate WorkerTakes<T>(w: Worker<T>) {
    w.Born? || w.Woken? || w.Finished?
  }

  /** The next move gives the mutex up: blocking, unlock before func(), return. */
  predicate WorkerFrees<T>(w: Worker<T>) {
    w.Parking? || w.Counted? || w.Leaving?
  }

  /** Where the next move leaves the worker, given the exit flag and the outcome of get_task. */
  function WorkerNext<T>(w: Worker<T>, exit: bool, taken: Taken<Job<T>>): Worker<T> {
    match w
    case Unborn => Unborn
    case Born => Testing
    case Testing => if taken.Nothing? then Drained else Checking(Some(taken.item))
    case Drained => if exit then Checking(None) else Parking
    case Parking => Sleeping
    case Sleeping => Woken
    case Woken => Testing
    case Checking(f) => if exit then Leaving(f, false) else Passed(f)
    case Passed(f) => Counted(f)
    case Counted(f) => Running(f)
    case Running(f) => Finished(f)
    case Finished(f) => Closing(f)
    case Closing(f) => Leaving(f, true)
    case Leaving(f, ran) => Gone(f, ran)
    case Gone(f, ran) => Gone(f, ran)
  }

  predicate AdderHolds<T>(a: Adder<T>) {
    a.Holding? || a.Pushed?
  }

  function AdderNext<T>(a: Adder<T>, direct: bool): Adder<T> {
    match a
    case Idle => Idle
    case Wanting(tt, task) => Holding(tt, task)
    case Holding(_, _) => Pushed(!direct)
    case Pushed(queued) => Notifying(queued)
    case Notifying(_) => Idle
  }

  predicate ReleaserHolds(r: Releaser) {
    r.Looking? || r.Returning?
  }

  function ReleaserNext(r: Releaser, running: int): Releaser {
    match r
    case Fresh => Stored
    case Stored => Acquiring
    case Acquiring => Looking
    case Looking => if running > 0 then Dozing else Returning
    case Dozing => Acquiring
    case Returning => Returned
    case Returned => Returned
  }

  /** The mutex after a move of thread me. */
  function LockAfter(lock: Option<Thread>, me: Thread, takes: bool, frees: bool): Option<Thread> {
    if takes then Some(me) else if frees then None else lock
  }

  /** Wakes every sleeper: notify_all. */
  function WakeAll<T>(ws: seq<Worker<T>>): seq<Worker<T>> {
    seq(|ws|, i requires 0 <= i < |ws| => if ws[i].Sleeping? then Woken else ws[i])
  }

  // ------------------------------------------------------------------ steps

  predicate Enabled<T>(s: State<T>, step: Step<T>) {
    match step
    case Start => !s.inited && s.spawned <= |s.workers|
    case Work(i) =>
      && i < |s.workers|
      && !s.workers[i].Unborn? && !s.workers[i].Gone?
      && (WorkerTakes(s.workers[i]) ==> s.lock == None)
    case Begin(a, _, _) => a < |s.adders| && s.adders[a].Idle?
    case Add(a) =>
      && a < |s.adders| && !s.adders[a].Idle?
      && (s.adders[a].Wanting? ==> s.lock == None)
    case Release(r) =>
      && r < |s.releasers| && !s.releasers[r].Returned?
      && (s.releasers[r].Acquiring? ==> s.lock == None)
  }

  function Apply<T>(s: State<T>, step: Step<T>): State<T>
    requires Enabled(s, step)
  {
    match step
    case Start => StartStep(s)
    case Work(i) => WorkerStep(s, i)
    case Begin(a, tt, task) => s.(adders := s.adders[a := Wanting(tt, task)])
    case Add(a) => AdderStep(s, a)
    case Release(r) => ReleaserStep(s, r)
  }

  /** init_thread_pool: one worker per step, then the leftover loop counter. */
  function StartStep<T>(s: State<T>): State<T>
    requires s.spawned <= |s.workers|
  {
    if s.spawned < |s.workers| then
      s.(workers := s.workers[s.spawned := Born], spawned := s.spawned + 1)
    else
      s.(threadNum := -1, inited := true)
  }

  function WorkerStep<T>(s: State<T>, i: nat): State<T>
    requires i < |s.workers|
  {
    var w := s.workers[i];
    var taken := Dequeue(s.queues);
    var takesJob := w.Testing? && taken.Taken?;
    s.(lock := LockAfter(s.lock, W(i), WorkerTakes(w), WorkerFrees(w)),
       running := if w.Passed? then s.running + 1 else if w.Closing? then s.running - 1 else s.running,
       queues := if takesJob then taken.rest else s.queues,
       workers := s.workers[i := WorkerNext(w, s.exit, taken)],
       hist := if takesJob then NoteTaken(s.hist, taken.item, i)
               else if w.Counted? then s.hist.(started := s.hist.started + [i])
               else s.hist)
  }

  function NoteTaken<T>(h: History<T>, job: Job<T>, i: nat): History<T> {
    h.(popped := h.popped + [job], takers := h.takers + [i], moments := h.moments + [|h.log|])
  }

  function AdderStep<T>(s: State<T>, a: nat): State<T>
    requires a < |s.adders|
  {
    var p := s.adders[a];
    var direct := p.Holding? && GoesDirect(p.tt, s.threadNum, s.running);
    s.(lock := LockAfter(s.lock, A(a), p.Wanting?, p.Pushed?),
       queues := if p.Holding? then Admit(s.queues, p.tt, Job(|s.hist.log|, p.tt, p.task), s.threadNum, s.running)
                 else s.queues,
       workers := if p.Notifying? then WakeAll(s.workers) else s.workers,
       adders := s.adders[a := AdderNext(p, direct)],
       hist := if p.Holding? then NoteAdded(s.hist, Job(|s.hist.log|, p.tt, p.task), direct) else s.hist)
  }

  function NoteAdded<T>(h: History<T>, job: Job<T>, direct: bool): History<T> {
    if direct then h.(direct := h.direct + [job.task]) else h.(log := h.log + [job])
  }

  function ReleaserStep<T>(s: State<T>, r: nat): State<T>
    requires r < |s.releasers|
  {
    var p := s.releasers[r];
    var next := ReleaserNext(p, s.running);
    s.(lock := LockAfter(s.lock, R(r), p.Acquiring?, p.Returning? || next.Dozing?),
       exit := s.exit || p.Fresh?,
       workers := if p.Stored? then WakeAll(s.workers) else s.workers,
       releasers := s.releasers[r := next])
  }

  // ------------------------------------------------------------------- runs

  predicate Feasible<T>(s: State<T>, steps: seq<Step<T>>)
    decreases |steps|, 0
  {
    steps == [] ||
    (Feasible(s, steps[..|steps| - 1]) && Enabled(Exec(s, steps[..|steps| - 1]), steps[|steps| - 1]))
  }

  /** The state after performing the steps from s, first to last. */
  function Exec<T>(s: State<T>, steps: seq<Step<T>>): State<T>
    requires Feasible(s, steps)
    decreases |steps|, 1
  {
    if steps == [] then s
    else Apply(Exec(s, steps[..|steps| - 1]), steps[|steps| - 1])
  }

  /** The states the program can be in. */
  ghost predicate Reachable<T(!new)>(s: State<T>) {
    exists n: nat, a: nat, r: nat, steps: seq<Step<T>> ::
      Feasible(Init<T>(n, a, r), steps) && s == Exec(Init<T>(n, a, r), steps)
  }
}
