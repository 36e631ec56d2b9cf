/** What becomes of each call of add_task and of each task taken: the requests
    against the log, and the log against what is run. */
module PoolCalls {
  import opened Options
  import opened PoolQueues
  import opened PoolProtocol
  import opened PoolInvariants
  import PT = PoolTheorems

  // ------------------------------------------------------------ one request

  /** The switch of add_task puts the caller's own task behind its own class, and
      nothing anywhere else, or gives it a thread of its own. */
  lemma RequestIsServed<T>(s: State<T>, a: nat, tt: TaskType, task: T)
    requires a < |s.adders| && s.adders[a] == Holding(tt, task)
    ensures var t := Apply(s, Add(a));
            var job := Job(|s.hist.log|, tt, task);
            if tt == Highest && s.threadNum == s.running then
              && t.hist.direct == s.hist.direct + [task] && t.hist.log == s.hist.log
              && t.queues == s.queues
            else
              && t.hist.direct == s.hist.direct && t.hist.log == s.hist.log + [job]
              && t.queues == match tt
                             case Highest => s.queues.(highest := s.queues.highest + [job])
                             case Timer => s.queues.(timer := s.queues.timer + [job])
                             case Normal => s.queues.(normal := s.queues.normal + [job])
  {
  }

  // ---------------------------------------------------- requests over a run

  type Request<T> = (TaskType, T)

  /** The calls of add_task that begin in a run. */
  ghost function Begun<T>(steps: seq<Step<T>>): multiset<Request<T>> {
    if steps == [] then multiset{}
    else
      var last := steps[|steps| - 1];
      Begun(steps[..|steps| - 1]) + (if last.Begin? then multiset{(last.tt, last.task)} else multiset{})
  }

  ghost function Logged<T>(log: seq<Job<T>>): multiset<Request<T>> {
    if log == [] then multiset{}
    else Logged(log[..|log| - 1]) + multiset{(log[|log| - 1].tt, log[|log| - 1].task)}
  }

  /** Tasks with a thread of their own; only the highest class gets one. */
  ghost function Given<T>(direct: seq<T>): multiset<Request<T>> {
    if direct == [] then multiset{}
    else Given(direct[..|direct| - 1]) + multiset{(Highest, direct[|direct| - 1])}
  }

  /** The request of a call that has not reached its switch. */
  ghost function Asked<T>(a: Adder<T>): multiset<Request<T>> {
    if a.Wanting? || a.Holding? then multiset{(a.tt, a.task)} else multiset{}
  }

  ghost function Pending<T>(adders: seq<Adder<T>>): multiset<Request<T>> {
    if adders == [] then multiset{} else Pending(adders[..|adders| - 1]) + Asked(adders[|adders| - 1])
  }

  ghost function Accounted<T>(s: State<T>): multiset<Request<T>> {
    Logged(s.hist.log) + Given(s.hist.direct) + Pending(s.adders)
  }

  lemma SwapSum<T>(x: multiset<T>, y: multiset<T>, z: multiset<T>)
    ensures (x + y) + z == (x + z) + y
    ensures x + (y + z) == (x + y) + z
  {
  }

  lemma PendingSnoc<T>(front: seq<Adder<T>>, last: Adder<T>)
    ensures Pending(front + [last]) == Pending(front) + Asked(last)
  {
    assert (front + [last])[..|front|] == front;
  }

  lemma {:induction false} PendingGains<T>(adders: seq<Adder<T>>, a: nat, x: Adder<T>)
    requires a < |adders| && Asked(adders[a]) == multiset{}
    ensures Pending(adders[a := x]) == Pending(adders) + Asked(x)
  {
    var n := |adders| - 1;
    var front, last := adders[..n], adders[n];
    assert adders == front + [last];
    PendingSnoc(front, last);
    if a == n {
      assert adders[a := x] == front + [x];
      PendingSnoc(front, x);
    } else {
      assert adders[a := x] == front[a := x] + [last];
      PendingSnoc(front[a := x], last);
      PendingGains(front, a, x);
      SwapSum(Pending(front), Asked(x), Asked(last));
    }
  }

  lemma PendingLoses<T>(adders: seq<Adder<T>>, a: nat, x: Adder<T>)
    requires a < |adders| && Asked(x) == multiset{}
    ensures Pending(adders[a := x]) + Asked(adders[a]) == Pending(adders)
  {
    PendingGains(adders[a := x], a, adders[a]);
    assert adders[a := x][a := adders[a]] == adders;
  }

  lemma {:induction false} SamePending<T>(adders: seq<Adder<T>>, a: nat, x: Adder<T>)
    requires a < |adders| && Asked(adders[a]) == Asked(x)
    ensures Pending(adders[a := x]) == Pending(adders)
  {
    var n := |adders| - 1;
    if a == n {
      assert adders[a := x][..n] == adders[..n];
    } else {
      assert adders[a := x][..n] == adders[..n][a := x];
      SamePending(adders[..n], a, x);
    }
  }

  lemma LoggedSnoc<T>(log: seq<Job<T>>, job: Job<T>)
    ensures Logged(log + [job]) == Logged(log) + multiset{(job.tt, job.task)}
  {
    assert (log + [job])[..|log|] == log;
  }

  lemma GivenSnoc<T>(direct: seq<T>, task: T)
    ensures Given(direct + [task]) == Given(direct) + multiset{(Highest, task)}
  {
    assert (direct + [task])[..|direct|] == direct;
  }

  lemma AddKeepsPending<T>(s: State<T>, a: nat)
    requires Enabled(s, Add(a)) && !s.adders[a].Holding?
    ensures Pending(Apply(s, Add(a)).adders) == Pending(s.adders) && Apply(s, Add(a)).hist == s.hist
  {
    SamePending(s.adders, a, Apply(s, Add(a)).adders[a]);
  }

  lemma SwitchEndsPending<T>(s: State<T>, a: nat)
    requires Enabled(s, Add(a)) && s.adders[a].Holding?
    ensures Pending(Apply(s, Add(a)).adders) + multiset{(s.adders[a].tt, s.adders[a].task)} == Pending(s.adders)
  {
    PendingLoses(s.adders, a, Apply(s, Add(a)).adders[a]);
  }

  lemma SwitchIsRecorded<T>(s: State<T>, a: nat)
    requires Enabled(s, Add(a)) && s.adders[a].Holding?
    ensures var t := Apply(s, Add(a));
            Logged(t.hist.log) + Given(t.hist.direct) ==
            Logged(s.hist.log) + Given(s.hist.direct) + multiset{(s.adders[a].tt, s.adders[a].task)}
  {
    var tt, task := s.adders[a].tt, s.adders[a].task;
    RequestIsServed(s, a, tt, task);
    if tt == Highest && s.threadNum == s.running {
      GivenSnoc(s.hist.direct, task);
      SwapSum(Logged(s.hist.log), Given(s.hist.direct), multiset{(tt, task)});
    } else {
      LoggedSnoc(s.hist.log, Job(|s.hist.log|, tt, task));
      SwapSum(Logged(s.hist.log), multiset{(tt, task)}, Given(s.hist.direct));
    }
  }

  lemma AccountedAdd<T>(s: State<T>, a: nat)
    requires Enabled(s, Add(a))
    ensures Accounted(Apply(s, Add(a))) == Accounted(s)
  {
    if s.adders[a].Holding? {
      SwitchEndsPending(s, a);
      SwitchIsRecorded(s, a);
      SwapSum(Logged(s.hist.log) + Given(s.hist.direct), multiset{(s.adders[a].tt, s.adders[a].task)},
              Pending(Apply(s, Add(a)).adders));
    } else {
      AddKeepsPending(s, a);
    }
  }

  lemma AccountedBegin<T>(s: State<T>, a: nat, tt: TaskType, task: T)
    requires Enabled(s, Begin(a, tt, task))
    ensures Accounted(Apply(s, Begin(a, tt, task))) == Accounted(s) + multiset{(tt, task)}
  {
    var x: Adder<T> := Wanting(tt, task);
    PendingGains(s.adders, a, x);
    SwapSum(Logged(s.hist.log) + Given(s.hist.direct), Pending(s.adders), Asked(x));
  }

  lemma OthersAskNothing<T>(s: State<T>, step: Step<T>)
    requires Enabled(s, step) && !step.Begin? && !step.Add?
    ensures Accounted(Apply(s, step)) == Accounted(s)
  {
    var t := Apply(s, step);
    assert t.adders == s.adders && t.hist.log == s.hist.log && t.hist.direct == s.hist.direct;
  }

  lemma AccountedStep<T>(s: State<T>, step: Step<T>)
    requires Enabled(s, step)
    ensures Accounted(Apply(s, step)) ==
            Accounted(s) + (if step.Begin? then multiset{(step.tt, step.task)} else multiset{})
  {
    match step {
      case Add(a) => AccountedAdd(s, a);
      case Begin(a, tt, task) => AccountedBegin(s, a, tt, task);
      case _ => OthersAskNothing(s, step);
    }
  }

  /** Over every run each call of add_task is accounted for once, with its own
      class and task: queued, given a thread, or still before its switch. */
  lemma {:induction false} RequestsAccountedFor<T>(s: State<T>, steps: seq<Step<T>>)
    requires Feasible(s, steps)
    ensures Accounted(Exec(s, steps)) == Accounted(s) + Begun(steps)
  {
    if steps != [] {
      RequestsAccountedFor(s, steps[..|steps| - 1]);
      AccountedStep(Exec(s, steps[..|steps| - 1]), steps[|steps| - 1]);
      SwapSum(Accounted(s), Begun(steps[..|steps| - 1]), Begun([steps[|steps| - 1]]));
    }
  }

  lemma {:induction false} NothingPending<T>(adders: seq<Adder<T>>)
    requires forall a | 0 <= a < |adders| :: adders[a].Idle?
    ensures Pending(adders) == multiset{}
  {
    if adders != [] {
      NothingPending(adders[..|adders| - 1]);
    }
  }

  lemma {:induction false} EveryCallIsAccountedFor<T>(n: nat, a: nat, r: nat, steps: seq<Step<T>>)
    requires Feasible(Init<T>(n, a, r), steps)
    ensures var t := Exec(Init<T>(n, a, r), steps);
            Begun(steps) == Logged(t.hist.log) + Given(t.hist.direct) + Pending(t.adders)
  {
    RequestsAccountedFor(Init<T>(n, a, r), steps);
    NothingPending(Init<T>(n, a, r).adders);
  }

  // ------------------------------------------------------- what is really run

  /** Once counted, a task is entered whatever the exit flag says by then, and a
      task is finished only by having been entered. */
  lemma CountedIsEntered<T>(s: State<T>, i: nat, f: Option<Job<T>>)
    requires i < |s.workers| && s.workers[i] == Counted(f)
    ensures Enabled(s, Work(i)) && Apply(s, Work(i)).workers[i] == Running(f)
  {
  }

  lemma FinishedComesFromRunning<T>(s: State<T>, step: Step<T>, i: nat)
    requires Enabled(s, step) && i < |s.workers| == |Apply(s, step).workers|
    requires Apply(s, step).workers[i].Finished? && !s.workers[i].Finished?
    ensures step == Work(i) && s.workers[i] == Running(Apply(s, step).workers[i].func)
  {
  }

  /** At some point of the run worker i was inside func() with this task. */
  ghost predicate RanDuring<T>(s: State<T>, steps: seq<Step<T>>, i: nat, job: Job<T>)
    requires Feasible(s, steps)
  {
    || (i < |Exec(s, steps).workers| && Exec(s, steps).workers[i] == Running(Some(job)))
    || (steps != [] && RanDuring(s, steps[..|steps| - 1], i, job))
  }

  ghost predicate HasRun<T>(s: State<T>, i: nat, job: Job<T>) {
    i < |s.workers| && HasStarted(s.workers[i]) && JobOf(s.workers[i]) == Some(job)
  }

  /** A move keeps who has run what, except that it may enter a task. */
  lemma RunStep<T>(s: State<T>, step: Step<T>, i: nat, job: Job<T>)
    requires StartInv(s) && Enabled(s, step)
    ensures HasRun(Apply(s, step), i, job) <==>
            HasRun(s, i, job) || (i < |s.workers| && Apply(s, step).workers[i] == Running(Some(job)))
  {
  }

  /** Over every run: a worker counts as having run a task exactly when it was
      inside func() with that task at some point. */
  lemma {:induction false} RunExactlyWhenEntered<T>(n: nat, a: nat, r: nat, steps: seq<Step<T>>, i: nat, job: Job<T>)
    requires Feasible(Init<T>(n, a, r), steps)
    ensures HasRun(Exec(Init<T>(n, a, r), steps), i, job) <==> RanDuring(Init<T>(n, a, r), steps, i, job)
  {
    if steps != [] {
      var front := steps[..|steps| - 1];
      RunExactlyWhenEntered(n, a, r, front, i, job);
      InitInv<T>(n, a, r);
      InvExec(Init<T>(n, a, r), front);
      RunStep(Exec(Init<T>(n, a, r), front), steps[|steps| - 1], i, job);
    }
  }

  /** The record of starts is the record of entries: worker i stands in it
      exactly when it was inside func() with a task it had taken. */
  lemma {:induction false} StartedExactlyWhenEntered<T>(n: nat, a: nat, r: nat, steps: seq<Step<T>>, i: nat)
    requires Feasible(Init<T>(n, a, r), steps)
    ensures var t := Exec(Init<T>(n, a, r), steps);
            i in t.hist.started <==>
            exists j :: 0 <= j < |t.hist.popped| && RanDuring(Init<T>(n, a, r), steps, i, t.hist.popped[j])
  {
    var s, t := Init<T>(n, a, r), Exec(Init<T>(n, a, r), steps);
    InitInv<T>(n, a, r);
    InvExec(s, steps);
    if i in t.hist.started {
      assert HasStarted(t.workers[i]) && HasJob(t.workers[i]);
      var j :| 0 <= j < |t.hist.takers| && t.hist.takers[j] == i;
      RunExactlyWhenEntered(n, a, r, steps, i, t.hist.popped[j]);
    } else {
      forall j | 0 <= j < |t.hist.popped|
        ensures !RanDuring(s, steps, i, t.hist.popped[j])
      {
        RunExactlyWhenEntered(n, a, r, steps, i, t.hist.popped[j]);
      }
    }
  }

  // ---------------------------------------------------------- undisturbed calls

  /** n moves of the same thread in a row. */
  ghost predicate Alone<T>(s: State<T>, step: Step<T>, n: nat, t: State<T>)
    decreases n
  {
    if n == 0 then s == t else Enabled(s, step) && Alone(Apply(s, step), step, n - 1, t)
  }

  function Notified<T>(w: Worker<T>): Worker<T> {
    if w.Sleeping? then Woken else w
  }

  /** A call of add_task that nobody disturbs is over in four moves: its task is
      behind its class or has a thread, every sleeper is awake, the mutex free. */
  lemma CallAlone<T>(s: State<T>, a: nat, tt: TaskType, task: T) returns (t: State<T>)
    requires a < |s.adders| && s.adders[a] == Wanting(tt, task) && s.lock == None
    ensures Alone(s, Add(a), 4, t) && t.lock == None && t.adders == s.adders[a := Idle]
    ensures |t.workers| == |s.workers| && forall i | 0 <= i < |s.workers| :: t.workers[i] == Notified(s.workers[i])
    ensures if tt == Highest && s.threadNum == s.running then
              t.queues == s.queues && t.hist.direct == s.hist.direct + [task]
            else
              && t.queues.Of(tt) == s.queues.Of(tt) + [Job(|s.hist.log|, tt, task)]
              && t.hist.direct == s.hist.direct
    ensures t.running == s.running && t.exit == s.exit && t.releasers == s.releasers
  {
    var t1 := Apply(s, Add(a));
    var t2 := Apply(t1, Add(a));
    var t3 := Apply(t2, Add(a));
    t := Apply(t3, Add(a));
    RequestIsServed(t1, a, tt, task);
    assert t.adders == s.adders[a := Idle];
    assert Alone(t, Add(a), 0, t) && Alone(t3, Add(a), 1, t) && Alone(t2, Add(a), 2, t) && Alone(t1, Add(a), 3, t);
  }

  lemma {:induction false} AloneOn<T>(s: State<T>, step: Step<T>, n: nat, u: State<T>, m: nat, t: State<T>)
    requires Alone(s, step, n, u) && Alone(u, step, m, t)
    ensures Alone(s, step, n + m, t)
    decreases n
  {
    if n > 0 {
      AloneOn(Apply(s, step), step, n - 1, u, m, t);
    }
  }

  lemma EntersAlone<T>(s: State<T>, i: nat) returns (t: State<T>)
    requires i < |s.workers| && (s.workers[i].Born? || s.workers[i].Woken?) && s.lock == None && !s.exit
    requires Dequeue(s.queues).Taken?
    ensures var d := Dequeue(s.queues);
            Alone(s, Work(i), 5, t) &&
            t == s.(running := s.running + 1, queues := d.rest, workers := s.workers[i := Running(Some(d.item))],
                    hist := NoteTaken(s.hist, d.item, i).(started := s.hist.started + [i]))
  {
    var t1 := Apply(s, Work(i));
    var t2 := Apply(t1, Work(i));
    var t3 := Apply(t2, Work(i));
    var t4 := Apply(t3, Work(i));
    t := Apply(t4, Work(i));
    assert t.workers == s.workers[i := Running(Some(Dequeue(s.queues).item))];
    assert Alone(t, Work(i), 0, t) && Alone(t4, Work(i), 1, t) && Alone(t3, Work(i), 2, t);
    assert Alone(t2, Work(i), 3, t) && Alone(t1, Work(i), 4, t);
  }

  lemma LeavesAlone<T>(s: State<T>, i: nat) returns (t: State<T>)
    requires i < |s.workers| && s.workers[i].Running? && s.lock == None
    ensures Alone(s, Work(i), 4, t)
    ensures t == s.(running := s.running - 1, workers := s.workers[i := Gone(s.workers[i].func, true)])
  {
    var t1 := Apply(s, Work(i));
    var t2 := Apply(t1, Work(i));
    var t3 := Apply(t2, Work(i));
    t := Apply(t3, Work(i));
    assert t.workers == s.workers[i := Gone(s.workers[i].func, true)];
    assert Alone(t, Work(i), 0, t) && Alone(t3, Work(i), 1, t) && Alone(t2, Work(i), 2, t);
    assert Alone(t1, Work(i), 3, t);
  }

  lemma RunsAlone<T>(s: State<T>, i: nat) returns (t: State<T>)
    requires i < |s.workers| && (s.workers[i].Born? || s.workers[i].Woken?) && s.lock == None && !s.exit
    requires Dequeue(s.queues).Taken?
    ensures var d := Dequeue(s.queues);
            Alone(s, Work(i), 9, t) &&
            t == s.(queues := d.rest, workers := s.workers[i := Gone(Some(d.item), true)],
                    hist := NoteTaken(s.hist, d.item, i).(started := s.hist.started + [i]))
  {
    var u := EntersAlone(s, i);
    t := LeavesAlone(u, i);
    InAndOut(s, i, Dequeue(s.queues).item, Dequeue(s.queues).rest, u, t);
    AloneOn(s, Work(i), 5, u, 4, t);
  }

  lemma InAndOut<T>(s: State<T>, i: nat, job: Job<T>, rest: Queues<Job<T>>, u: State<T>, t: State<T>)
    requires i < |s.workers|
    requires u == s.(running := s.running + 1, queues := rest, workers := s.workers[i := Running(Some(job))],
                     hist := NoteTaken(s.hist, job, i).(started := s.hist.started + [i]))
    requires t == u.(running := u.running - 1, workers := u.workers[i := Gone(u.workers[i].func, true)])
    ensures t == s.(queues := rest, workers := s.workers[i := Gone(Some(job), true)],
                    hist := NoteTaken(s.hist, job, i).(started := s.hist.started + [i]))
  {
    assert u.workers[i := Gone(Some(job), true)] == s.workers[i := Gone(Some(job), true)];
  }

  /** A new or woken worker that nobody disturbs, with a task queued and the exit
      flag down, takes the oldest task of the best class, runs that task and exits,
      leaving the other tasks, the counter and the mutex as they were. */
  lemma WorkerAlone<T>(s: State<T>, i: nat) returns (t: State<T>, job: Job<T>)
    requires i < |s.workers| && (s.workers[i].Born? || s.workers[i].Woken?) && s.lock == None && !s.exit
    requires !s.queues.Empty()
    ensures Alone(s, Work(i), 9, t) && t.workers == s.workers[i := Gone(Some(job), true)]
    ensures FrontOf(s.queues, job, t.queues)
    ensures t.hist.started == s.hist.started + [i] && t.hist.popped == s.hist.popped + [job]
    ensures t.running == s.running && t.lock == None && t.adders == s.adders && t.releasers == s.releasers
  {
    FrontAndRest(s.queues);
    t := RunsAlone(s, i);
    job := Dequeue(s.queues).item;
  }

  /** The oldest item of the best class, and what is left without it. */
  ghost predicate FrontOf<E>(q: Queues<E>, item: E, rest: Queues<E>) {
    if q.highest != [] then q == rest.(highest := [item] + rest.highest)
    else if q.timer != [] then q == rest.(timer := [item] + rest.timer)
    else q == rest.(normal := [item] + rest.normal)
  }

  lemma FrontAndRest<E>(q: Queues<E>)
    requires !q.Empty()
    ensures Dequeue(q).Taken? && FrontOf(q, Dequeue(q).item, Dequeue(q).rest)
  {
  }

  /** The same worker with the exit flag up: get_task comes before the flag, so the
      task is taken all the same, and dropped. */
  lemma DropsAlone<T>(s: State<T>, i: nat) returns (t: State<T>, job: Job<T>)
    requires i < |s.workers| && (s.workers[i].Born? || s.workers[i].Woken?) && s.lock == None && s.exit
    requires !s.queues.Empty()
    ensures Alone(s, Work(i), 4, t) && t.workers == s.workers[i := Gone(Some(job), false)]
    ensures FrontOf(s.queues, job, t.queues)
    ensures t.hist.started == s.hist.started && t.hist.popped == s.hist.popped + [job]
    ensures t.running == s.running && t.lock == None && t.adders == s.adders && t.releasers == s.releasers
  {
    FrontAndRest(s.queues);
    job := Dequeue(s.queues).item;
    var t1 := Apply(s, Work(i));
    var t2 := Apply(t1, Work(i));
    var t3 := Apply(t2, Work(i));
    t := Apply(t3, Work(i));
    assert t.workers == s.workers[i := Gone(Some(job), false)];
    assert Alone(t, Work(i), 0, t) && Alone(t3, Work(i), 1, t) && Alone(t2, Work(i), 2, t);
    assert Alone(t1, Work(i), 3, t);
  }

  /** A call of release that nobody disturbs, with no task running, returns after
      five moves with the exit flag up and every sleeper awake. */
  lemma ReleaseAlone<T>(s: State<T>, r: nat) returns (t: State<T>)
    requires r < |s.releasers| && s.releasers[r].Fresh? && s.lock == None && s.running == 0
    ensures Alone(s, Release(r), 5, t) && t.exit && t.lock == None && t.releasers == s.releasers[r := Returned]
    ensures |t.workers| == |s.workers| && forall i | 0 <= i < |s.workers| :: t.workers[i] == Notified(s.workers[i])
    ensures t.queues == s.queues && t.adders == s.adders && t.running == s.running && t.hist == s.hist
  {
    var t1 := Apply(s, Release(r));
    var t2 := Apply(t1, Release(r));
    var t3 := Apply(t2, Release(r));
    var t4 := Apply(t3, Release(r));
    t := Apply(t4, Release(r));
    assert t.releasers == s.releasers[r := Returned];
    assert Alone(t, Release(r), 0, t) && Alone(t4, Release(r), 1, t) && Alone(t3, Release(r), 2, t);
    assert Alone(t2, Release(r), 3, t) && Alone(t1, Release(r), 4, t);
  }

  /** While a task runs release sleeps with the mutex free and looks again. */
  lemma ReleaseLooksAgain<T>(s: State<T>, r: nat) returns (t: State<T>)
    requires r < |s.releasers| && s.releasers[r].Acquiring? && s.lock == None && s.running > 0
    ensures Alone(s, Release(r), 3, t) && t == s
  {
    var t1 := Apply(s, Release(r));
    var t2 := Apply(t1, Release(r));
    t := Apply(t2, Release(r));
    assert t.releasers == s.releasers;
    assert Alone(t, Release(r), 0, t) && Alone(t2, Release(r), 1, t) && Alone(t1, Release(r), 2, t);
  }
}
