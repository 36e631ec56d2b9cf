/** Which threads have exited when release returns. */
module ReleaseExit {
  import opened Options
  import opened PoolQueues
  import opened PoolProtocol
  import opened PoolInvariants
  import PT = PoolTheorems

  /** At rest outside the mutex, or about to block: a worker that nothing obliges
      to move. */
  predicate MayLag<T>(w: Worker<T>) {
    AtRest(w) || w.Parking?
  }

  predicate AtRest<T>(w: Worker<T>) {
    w.Unborn? || w.Born? || w.Sleeping? || w.Woken?
  }

  /** Releaser r has returned and worker i has not. */
  predicate Outlived<T>(s: State<T>, r: nat, i: nat) {
    && r < |s.releasers| && s.releasers[r].Returned?
    && i < |s.workers| && !s.workers[i].Gone?
  }

  ghost predicate CanOutlive<T(!new)>(s: State<T>, r: nat, i: nat) {
    exists more: seq<Step<T>> :: Feasible(s, more) && Outlived(Exec(s, more), r, i)
  }

  // ------------------------------------------------- a worker that has to exit

  /** Worker i is past the point where it could still block, and the releaser
      sees it out. */
  ghost predicate SeenOut<T>(s: State<T>, r: nat, i: nat) {
    && s.exit && i < |s.workers| && !MayLag(s.workers[i])
    && r < |s.releasers| && !s.releasers[r].Fresh?
    && (s.releasers[r].Returning? || s.releasers[r].Returned? ==> s.workers[i].Gone?)
  }

  lemma SeenOutWork<T>(s: State<T>, j: nat, r: nat, i: nat)
    requires SeenOut(s, r, i) && Enabled(s, Work(j))
    ensures SeenOut(Apply(s, Work(j)), r, i)
  {
  }

  lemma SeenOutRelease<T>(s: State<T>, q: nat, r: nat, i: nat)
    requires LockInv(s) && CounterInv(s) && SeenOut(s, r, i) && Enabled(s, Release(q))
    ensures SeenOut(Apply(s, Release(q)), r, i)
  {
    if q == r && s.releasers[r].Looking? && s.running <= 0 {
      CountBounds(s.workers, InCounter);
      assert !WorkerHolds(s.workers[i]) && !Is(s.workers[i], InCounter);
    }
  }

  lemma SeenOutStep<T>(s: State<T>, step: Step<T>, r: nat, i: nat)
    requires Inv(s) && SeenOut(s, r, i) && Enabled(s, step)
    ensures SeenOut(Apply(s, step), r, i)
  {
    match step {
      case Work(j) => SeenOutWork(s, j, r, i);
      case Release(q) => SeenOutRelease(s, q, r, i);
      case _ =>
    }
  }

  lemma {:induction false} StaysSeenOut<T>(s: State<T>, more: seq<Step<T>>, r: nat, i: nat)
    requires Inv(s) && SeenOut(s, r, i) && Feasible(s, more)
    ensures SeenOut(Exec(s, more), r, i)
  {
    if more != [] {
      var front := more[..|more| - 1];
      StaysSeenOut(s, front, r, i);
      InvExec(s, front);
      SeenOutStep(Exec(s, front), more[|more| - 1], r, i);
    }
  }

  // ------------------------------------------------ a worker that is outlived

  lemma AnticipatedBy<T(!new)>(s: State<T>, step: Step<T>, r: nat, i: nat)
    requires Enabled(s, step) && CanOutlive(Apply(s, step), r, i)
    ensures CanOutlive(s, r, i)
  {
    var more: seq<Step<T>> :| Feasible(Apply(s, step), more) && Outlived(Exec(Apply(s, step), more), r, i);
    PT.Prepend(s, step, more);
  }

  /** Releaser r waits for the mutex and worker i is at rest. */
  ghost predicate Racing<T>(s: State<T>, r: nat, i: nat) {
    && Inv(s)
    && r < |s.releasers| && s.releasers[r].Acquiring?
    && i < |s.workers| && AtRest(s.workers[i])
  }

  /** With the mutex free and nobody counted the releaser goes straight through. */
  lemma PassesThrough<T(!new)>(s: State<T>, r: nat, i: nat)
    requires Racing(s, r, i) && s.lock == None && s.running == 0
    ensures CanOutlive(s, r, i)
  {
    var t1 := Apply(s, Release(r));
    var t2 := Apply(t1, Release(r));
    var t3 := Apply(t2, Release(r));
    var none: seq<Step<T>> := [];
    assert Feasible(t3, none) && Exec(t3, none) == t3 && Outlived(t3, r, i);
    AnticipatedBy(t2, Release(r), r, i);
    AnticipatedBy(t1, Release(r), r, i);
    AnticipatedBy(s, Release(r), r, i);
  }

  lemma RacingWork<T>(s: State<T>, j: nat, r: nat, i: nat)
    requires Racing(s, r, i) && j != i && Enabled(s, Work(j))
    ensures Racing(Apply(s, Work(j)), r, i)
  {
    InvStep(s, Work(j));
  }

  /** How far a counted worker is from giving up the counter. */
  function ToFinish<T>(w: Worker<T>): nat {
    match w
    case Running(_) => 3
    case Finished(_) => 2
    case Closing(_) => 1
    case _ => 0
  }

  lemma OneIsCounted<T>(s: State<T>) returns (j: nat)
    requires Inv(s) && s.running > 0 && s.lock == None
    ensures j < |s.workers| && (s.workers[j].Running? || s.workers[j].Finished?)
  {
    CountBounds(s.workers, InCounter);
    j :| 0 <= j < |s.workers| && Is(s.workers[j], InCounter);
    assert !WorkerHolds(s.workers[j]);
  }

  /** One counted worker is brought out of its task, then the next. */
  lemma {:induction false} Drains<T(!new)>(s: State<T>, j: nat, r: nat, i: nat)
    requires Racing(s, r, i) && s.running > 0 && j < |s.workers|
    requires if s.workers[j].Closing? then s.lock == Some(W(j))
             else s.lock == None && (s.workers[j].Running? || s.workers[j].Finished?)
    ensures CanOutlive(s, r, i)
    decreases s.running, ToFinish(s.workers[j])
  {
    var t := Apply(s, Work(j));
    RacingWork(s, j, r, i);
    if s.workers[j].Closing? {
      RacingWork(t, j, r, i);
      Outlasts(Apply(t, Work(j)), r, i);
      AnticipatedBy(t, Work(j), r, i);
    } else {
      Drains(t, j, r, i);
    }
    AnticipatedBy(s, Work(j), r, i);
  }

  lemma {:induction false} Outlasts<T(!new)>(s: State<T>, r: nat, i: nat)
    requires Racing(s, r, i) && s.lock == None
    ensures CanOutlive(s, r, i)
    decreases s.running, 4
  {
    if s.running > 0 {
      var j := OneIsCounted(s);
      Drains(s, j, r, i);
    } else {
      CountBounds(s.workers, InCounter);
      PassesThrough(s, r, i);
    }
  }

  lemma RacingHolder<T>(s: State<T>, r: nat, i: nat)
    requires Racing(s, r, i) && s.lock.Some?
    ensures Enabled(s, PT.MoveOf(s.lock.value)) && Racing(Apply(s, PT.MoveOf(s.lock.value)), r, i)
  {
    PT.HolderMoves(s);
    InvStep(s, PT.MoveOf(s.lock.value));
    assert s.lock != Some(R(r)) && s.lock != Some(W(i)) by {
      assert !ReleaserHolds(s.releasers[r]) && !WorkerHolds(s.workers[i]);
    }
  }

  /** Whoever has the mutex gives it up first. */
  lemma {:induction false} LetsGo<T(!new)>(s: State<T>, r: nat, i: nat)
    requires Racing(s, r, i)
    ensures CanOutlive(s, r, i)
    decreases if s.lock == None then 0 else 1 + PT.HoldingTime(s)
  {
    if s.lock == None {
      Outlasts(s, r, i);
    } else {
      PT.HolderMoves(s);
      RacingHolder(s, r, i);
      LetsGo(Apply(s, PT.MoveOf(s.lock.value)), r, i);
      AnticipatedBy(s, PT.MoveOf(s.lock.value), r, i);
    }
  }

  lemma RestOutlasts<T(!new)>(s: State<T>, r: nat, i: nat)
    requires Inv(s) && r < |s.releasers| && s.releasers[r].Stored? && i < |s.workers| && AtRest(s.workers[i])
    ensures CanOutlive(s, r, i)
  {
    InvStep(s, Release(r));
    LetsGo(Apply(s, Release(r)), r, i);
    AnticipatedBy(s, Release(r), r, i);
  }

  /** The comment on release promises that every thread has exited when it
      returns.  Judged when the flag is raised and release is about to notify: it
      can return before worker i has exited exactly when worker i has not been
      created, has not reached its first test of the queues, is asleep, is woken
      and not yet back at the queues, or has missed the flag and is about to block.
      A worker at any other point is waited for, although only running tasks are
      counted. */
  lemma {:induction false} OutlivedExactly<T(!new)>(s: State<T>, r: nat, i: nat)
    requires Reachable(s) && r < |s.releasers| && s.releasers[r].Stored? && i < |s.workers|
    ensures CanOutlive(s, r, i) <==> MayLag(s.workers[i])
  {
    InvReachable(s);
    if s.workers[i].Parking? {
      InvStep(s, Work(i));
      RestOutlasts(Apply(s, Work(i)), r, i);
      AnticipatedBy(s, Work(i), r, i);
    } else if AtRest(s.workers[i]) {
      RestOutlasts(s, r, i);
    } else {
      forall more: seq<Step<T>> | Feasible(s, more)
        ensures !Outlived(Exec(s, more), r, i)
      {
        StaysSeenOut(s, more, r, i);
      }
    }
  }

  lemma {:induction false} SameCrew<T>(s: State<T>, more: seq<Step<T>>)
    requires Feasible(s, more)
    ensures |Exec(s, more).workers| == |s.workers|
  {
    if more != [] {
      SameCrew(s, more[..|more| - 1]);
    }
  }

  predicate HasReturned<T>(s: State<T>, r: nat) {
    r < |s.releasers| && s.releasers[r].Returned?
  }

  ghost predicate AllGone<T>(s: State<T>) {
    forall i | 0 <= i < |s.workers| :: s.workers[i].Gone?
  }

  /** The promise as a whole: release returns only after every thread has exited,
      whatever happens in between, exactly when no worker may lag. */
  lemma {:induction false} ExitPromiseKeptExactly<T(!new)>(s: State<T>, r: nat)
    requires Reachable(s) && r < |s.releasers| && s.releasers[r].Stored?
    ensures (forall more: seq<Step<T>> | Feasible(s, more) && HasReturned(Exec(s, more), r) :: AllGone(Exec(s, more)))
            <==> forall i | 0 <= i < |s.workers| :: !MayLag(s.workers[i])
  {
    if forall i | 0 <= i < |s.workers| :: !MayLag(s.workers[i]) {
      forall more: seq<Step<T>> | Feasible(s, more) && HasReturned(Exec(s, more), r)
        ensures AllGone(Exec(s, more))
      {
        SameCrew(s, more);
        forall i | 0 <= i < |s.workers|
          ensures Exec(s, more).workers[i].Gone?
        {
          OutlivedExactly(s, r, i);
          assert !CanOutlive(s, r, i);
        }
      }
    } else {
      var i :| 0 <= i < |s.workers| && MayLag(s.workers[i]);
      OutlivedExactly(s, r, i);
      var more: seq<Step<T>> :| Feasible(s, more) && Outlived(Exec(s, more), r, i);
      assert HasReturned(Exec(s, more), r) && !AllGone(Exec(s, more));
    }
  }
}
