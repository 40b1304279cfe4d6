/** When the write pool makes progress. Workers waiting for nothing are always worth waking;
    with nothing parked every schedule of the workers drains the store in a fixed number of
    steps; once anything is parked the store never drains; and a worker that sends while it
    holds the lock wedges everything exactly when no other worker is idle
    (controller/data_store.go:185-186, 194-195, 232-245, 253-262). */
module WriteProgress {
  import opened Prelude
  import opened WriteJobs
  import opened WriteQueue
  import opened WritePool
  import opened WriteOrder

  // ----- No lost wakeup -----

  ghost predicate Woken(s: System) {
    s.q.pending != map[] ==>
      s.senders > 0 || exists i :: 0 <= i < |s.workers| && (s.workers[i].Awake? || s.workers[i].Blocked?)
  }

  lemma {:induction false} FinishQuietly(q: Queues, jobs: seq<WriteJob>, repaired: bool)
    requires !Promotes(q, jobs)
    ensures Finish(q, jobs, repaired).pending == q.pending
    ensures forall key :: Get(q.waiting, key) == [] ==> Get(Finish(q, jobs, repaired).waiting, key) == []
  {
    if jobs != [] {
      var init, last := jobs[..|jobs| - 1], jobs[|jobs| - 1];
      assert last in jobs;
      FinishQuietly(q, init, repaired);
    }
  }

  lemma StepWoken(s: System, e: Event, repaired: bool)
    requires Enabled(s, e) && Woken(s)
    ensures Woken(Next(s, e, repaired))
  {
    var t := Next(s, e, repaired);
    match e
    case TakeFromStore(w) => assert t.workers[w].Awake?;
    case TakeFromWorker(w, from) => assert t.workers[w].Awake?;
    case MarkCompleted(w) =>
      if Promotes(s.q, s.workers[w].jobs) {
        assert t.workers[w].Blocked?;
      } else {
        FinishQuietly(s.q, s.workers[w].jobs, repaired);
        SignalKept(s, t, w);
      }
    case CommitNext(w) => SignalKept(s, t, w);
    case _ =>
  }

  lemma SignalKept(s: System, t: System, w: nat)
    requires w < |s.workers| && s.workers[w].Busy? && Woken(s)
    requires t.q.pending == s.q.pending && t.senders == s.senders
    requires |t.workers| == |s.workers| && forall i :: 0 <= i < |s.workers| && i != w ==> t.workers[i] == s.workers[i]
    ensures Woken(t)
  {
    if s.q.pending != map[] && s.senders == 0 {
      var i :| 0 <= i < |s.workers| && (s.workers[i].Awake? || s.workers[i].Blocked?);
      assert t.workers[i] == s.workers[i];
    }
  }

  /** Whenever anything is pending, a Store call is waiting to hand over a token, or a worker
      already holds one, or a completion is about to send one. */
  lemma {:induction false} ReachableWoken(poolSize: nat, events: seq<Event>, repaired: bool)
    requires Exec(poolSize, events, repaired).Some?
    ensures Woken(Exec(poolSize, events, repaired).value)
  {
    if events != [] {
      var s := LastStep(poolSize, events, repaired);
      ReachableWoken(poolSize, events[..|events| - 1], repaired);
      StepWoken(s, events[|events| - 1], repaired);
    }
  }

  // ----- A parked job is re-committed forever -----

  ghost predicate Haunted(s: System, key: string) {
    Get(s.q.waiting, key) != [] && (key in s.q.pending || key in s.q.running)
  }

  lemma StepHaunted(s: System, e: Event, key: string)
    requires Exclusive(s) && Enabled(s, e)
    ensures Haunted(s, key) ==> Haunted(Next(s, e, false), key)
    ensures Get(s.q.waiting, key) == [] ==>
            Get(Next(s, e, false).q.waiting, key) == [] || Haunted(Next(s, e, false), key)
  {
    assert KeyExclusive(s, key);
    match e
    case StoreCall(job) =>
      AppendGet(s.q.waiting, Key(job), [job], key);
      AppendGet(s.q.pending, Key(job), [job], key);
    case ClaimPending(w, order) => ClaimedBatch(s, order, key);
    case MarkCompleted(w) => CompleteHaunted(s, w, key);
    case _ =>
  }

  lemma CompleteHaunted(s: System, w: nat, key: string)
    requires Exclusive(s) && Enabled(s, MarkCompleted(w))
    ensures Haunted(s, key) ==> Haunted(Next(s, MarkCompleted(w), false), key)
    ensures Finish(s.q, s.workers[w].jobs, false).waiting == s.q.waiting
  {
    var jobs := s.workers[w].jobs;
    assert KeyExclusive(s, key);
    FinishPromotesRepeatedly(s.q, jobs, key);
    OfNone(jobs, key);
    RepeatLength(Get(s.q.waiting, key), |Of(jobs, key)|);
    if key !in Keys(jobs) {
      FinishLists(s.q, jobs, false, key);
      FinishReleases(s.q, jobs, false, key);
      IdsNone(jobs, key);
      assert Marked(s.q.running, key) == Marked(Finish(s.q, jobs, false).running, key);
    } else if Get(s.q.waiting, key) != [] {
      Grows(|Of(jobs, key)|, |Get(s.q.waiting, key)|);
    }
  }

  lemma {:induction false} ReachableHaunted(poolSize: nat, events: seq<Event>, key: string)
    requires Exec(poolSize, events, false).Some?
    ensures var s := Exec(poolSize, events, false).value;
            Get(s.q.waiting, key) == [] || Haunted(s, key)
  {
    if events != [] {
      var s := LastStep(poolSize, events, false);
      ReachableHaunted(poolSize, events[..|events| - 1], key);
      ReachableExclusive(poolSize, events[..|events| - 1], false);
      StepHaunted(s, events[|events| - 1], key);
    }
  }

  /** The shipped protocol never drains again once a job has been parked: in every later
      state, however the run goes on, its key is pending or running and still has a parked
      list that its next completion will re-enqueue. */
  lemma {:induction false} ParkedNeverDrains(poolSize: nat, events: seq<Event>, more: seq<Event>, key: string)
    requires Exec(poolSize, events, false).Some?
    requires Get(Exec(poolSize, events, false).value.q.waiting, key) != []
    requires ExecFrom(Exec(poolSize, events, false).value, more, false).Some?
    ensures Haunted(ExecFrom(Exec(poolSize, events, false).value, more, false).value, key)
  {
    if more == [] {
      ReachableHaunted(poolSize, events, key);
    } else {
      var init := more[..|more| - 1];
      var s := LastStepFrom(Exec(poolSize, events, false).value, more, false);
      ParkedNeverDrains(poolSize, events, init, key);
      ExecConcat(Init(poolSize), events, init, false);
      ReachableExclusive(poolSize, events + init, false);
      StepHaunted(s, more[|more| - 1], key);
    }
  }

  // ----- With nothing parked, the workers drain the store -----

  /** A worker's own share of the steps left. */
  function Rank(worker: Worker): nat {
    match worker
    case Idle => 0
    case Awake => 2
    case Busy(_, _) => 1
    case Blocked => 0
  }

  function Ranks(workers: seq<Worker>): nat {
    if workers == [] then 0 else Ranks(workers[..|workers| - 1]) + Rank(workers[|workers| - 1])
  }

  /** The number of worker steps until everything stored is committed and all is idle. */
  ghost function Work(s: System): int {
    3 * s.senders + (|s.stored| - |s.committed|) + Ranks(s.workers)
  }

  /** Nothing parked, and so nothing ever promoted and nobody sending under the lock. */
  ghost predicate Unparked(s: System) {
    s.q.waiting == map[] && s.promoted == {} && LockFree(s)
  }

  predicate IsWorkerEvent(e: Event) {
    !e.StoreCall?
  }

  lemma {:induction false} RanksUpdate(workers: seq<Worker>, w: nat, worker: Worker)
    requires w < |workers|
    ensures Ranks(workers[w := worker]) == Ranks(workers) - Rank(workers[w]) + Rank(worker)
  {
    var init := workers[..|workers| - 1];
    var after := workers[w := worker];
    if w == |workers| - 1 {
      assert after[..|after| - 1] == init;
    } else {
      RanksUpdate(init, w, worker);
      assert after[..|after| - 1] == init[w := worker];
    }
  }

  lemma {:induction false} FinishKeepsParked(q: Queues, jobs: seq<WriteJob>)
    ensures Finish(q, jobs, false).waiting == q.waiting
  {
    if jobs != [] {
      FinishKeepsParked(q, jobs[..|jobs| - 1]);
    }
  }

  /** Parked lists only grow in the shipped protocol. */
  lemma StepParked(s: System, e: Event)
    requires Enabled(s, e)
    ensures s.q.waiting.Keys <= Next(s, e, false).q.waiting.Keys
    ensures IsWorkerEvent(e) ==> Next(s, e, false).q.waiting == s.q.waiting
  {
    match e
    case MarkCompleted(w) => FinishKeepsParked(s.q, s.workers[w].jobs);
    case _ =>
  }

  lemma StepUnparked(s: System, e: Event)
    requires Enabled(s, e) && (s.q.waiting == map[] ==> Unparked(s))
    ensures Next(s, e, false).q.waiting == map[] ==> Unparked(Next(s, e, false))
  {
    StepParked(s, e);
    if Next(s, e, false).q.waiting == map[] {
      assert s.q.waiting.Keys == {};
      match e
      case MarkCompleted(w) => assert !Promotes(s.q, s.workers[w].jobs);
      case _ =>
    }
  }

  lemma {:induction false} ReachableUnparked(poolSize: nat, events: seq<Event>)
    requires Exec(poolSize, events, false).Some?
    ensures Exec(poolSize, events, false).value.q.waiting == map[] ==> Unparked(Exec(poolSize, events, false).value)
  {
    if events != [] {
      var s := LastStep(poolSize, events, false);
      ReachableUnparked(poolSize, events[..|events| - 1]);
      StepUnparked(s, events[|events| - 1]);
    }
  }

  lemma StepWorks(s: System, e: Event)
    requires Enabled(s, e) && Unparked(s) && IsWorkerEvent(e)
    ensures Work(Next(s, e, false)) == Work(s) - 1
    ensures Unparked(Next(s, e, false))
  {
    StepUnparked(s, e);
    StepParked(s, e);
    match e
    case TakeFromStore(w) => RanksUpdate(s.workers, w, Awake);
    case TakeFromWorker(w, from) => assert false;
    case ClaimPending(w, order) => RanksUpdate(s.workers, w, Busy(Flatten(s.q.pending, order), 0));
    case CommitNext(w) => RanksUpdate(s.workers, w, Busy(s.workers[w].jobs, s.workers[w].done + 1));
    case MarkCompleted(w) =>
      assert !Promotes(s.q, s.workers[w].jobs);
      RanksUpdate(s.workers, w, Idle);
  }

  /** With nothing parked, any k steps of the workers use up exactly k of the work left. */
  lemma {:induction false} WorkCounts(s: System, events: seq<Event>)
    requires Unparked(s) && ExecFrom(s, events, false).Some?
    requires forall e :: e in events ==> IsWorkerEvent(e)
    ensures Unparked(ExecFrom(s, events, false).value)
    ensures Work(ExecFrom(s, events, false).value) == Work(s) - |events|
  {
    if events != [] {
      var t := LastStepFrom(s, events, false);
      WorkCounts(s, events[..|events| - 1]);
      assert events[|events| - 1] in events;
      StepWorks(t, events[|events| - 1]);
    }
  }

  ghost predicate Drained(s: System) {
    && s.senders == 0 && s.q.pending == map[] && s.q.waiting == map[]
    && (forall i :: 0 <= i < |s.workers| ==> s.workers[i].Idle?)
    && (forall key :: Of(s.committed, key) == Of(s.stored, key))
  }

  /** No worker has anything left to do but wait. */
  ghost predicate Stalled(s: System) {
    forall e :: IsWorkerEvent(e) ==> !Enabled(s, e)
  }

  /** Some worker is sending while it holds the lock, and no worker is left to receive. */
  ghost predicate Wedged(s: System) {
    !LockFree(s) && forall i :: 0 <= i < |s.workers| ==> !s.workers[i].Idle?
  }

  ghost predicate AllCommitted(s: System) {
    forall i :: 0 <= i < |s.workers| && s.workers[i].Busy? ==> s.workers[i].done == |s.workers[i].jobs|
  }

  /** Shipped or repaired, parked or not: in a reachable state the workers can do nothing
      exactly when everything stored is committed or the pool is wedged with its batches
      committed. */
  lemma StalledExactly(poolSize: nat, events: seq<Event>, repaired: bool)
    requires poolSize >= 1 && Exec(poolSize, events, repaired).Some?
    ensures var s := Exec(poolSize, events, repaired).value;
            Stalled(s) <==> Drained(s) || (Wedged(s) && AllCommitted(s))
  {
    var s := Exec(poolSize, events, repaired).value;
    ReachableExclusive(poolSize, events, repaired);
    PoolKept(poolSize, events, repaired);
    if Stalled(s) {
      if LockFree(s) {
        StalledDrains(poolSize, events, repaired);
      } else {
        StalledWedges(s);
      }
    }
  }

  lemma StalledWedges(s: System)
    requires Exclusive(s) && Stalled(s) && !LockFree(s)
    ensures Wedged(s) && AllCommitted(s)
  {
    var b :| 0 <= b < |s.workers| && s.workers[b].Blocked?;
    forall i | 0 <= i < |s.workers|
      ensures !s.workers[i].Idle? && (s.workers[i].Busy? ==> s.workers[i].done == |s.workers[i].jobs|)
    {
      assert !Enabled(s, TakeFromWorker(i, b)) && !Enabled(s, CommitNext(i));
    }
  }

  lemma StalledDrains(poolSize: nat, events: seq<Event>, repaired: bool)
    requires poolSize >= 1 && Exec(poolSize, events, repaired).Some?
    requires Stalled(Exec(poolSize, events, repaired).value) && LockFree(Exec(poolSize, events, repaired).value)
    ensures Drained(Exec(poolSize, events, repaired).value)
  {
    var s := Exec(poolSize, events, repaired).value;
    ReachableExclusive(poolSize, events, repaired);
    PoolKept(poolSize, events, repaired);
    forall i | 0 <= i < |s.workers| ensures s.workers[i].Idle? {
      AllIdle(s, i);
    }
    assert !Enabled(s, TakeFromStore(0));
    ReachableWoken(poolSize, events, repaired);
    forall key ensures key !in s.q.waiting {
      NothingParked(poolSize, events, repaired, key);
      assert KeyExclusive(s, key);
    }
    forall key ensures Of(s.committed, key) == Of(s.stored, key) {
      if !repaired {
        ReachableUnparked(poolSize, events);
      }
      ReachableTidy(poolSize, events, repaired, key);
      assert KeyExclusive(s, key);
      InFlightUnowned(s, key);
    }
  }

  /** With nothing pending and nothing running, nothing is parked. */
  lemma NothingParked(poolSize: nat, events: seq<Event>, repaired: bool, key: string)
    requires Exec(poolSize, events, repaired).Some?
    requires var s := Exec(poolSize, events, repaired).value;
             s.q.pending == map[] && forall i :: 0 <= i < |s.workers| ==> s.workers[i].Idle?
    ensures Get(Exec(poolSize, events, repaired).value.q.waiting, key) == []
  {
    ReachableExclusive(poolSize, events, repaired);
    assert KeyExclusive(Exec(poolSize, events, repaired).value, key);
    if repaired {
      ReachableTidy(poolSize, events, repaired, key);
    } else {
      ReachableHaunted(poolSize, events, key);
    }
  }

  lemma AllIdle(s: System, i: nat)
    requires Exclusive(s) && LockFree(s) && i < |s.workers| && Stalled(s)
    ensures s.workers[i].Idle?
  {
    assert !Enabled(s, CommitNext(i)) && !Enabled(s, MarkCompleted(i));
    if s.workers[i].Awake? {
      var order := OrderExists(s.q.pending.Keys);
      assert Enabled(s, ClaimPending(i, order));
    }
  }

  lemma {:induction false} PoolKept(poolSize: nat, events: seq<Event>, repaired: bool)
    requires Exec(poolSize, events, repaired).Some?
    ensures |Exec(poolSize, events, repaired).value.workers| == poolSize
  {
    if events != [] {
      var s := LastStep(poolSize, events, repaired);
      PoolKept(poolSize, events[..|events| - 1], repaired);
    }
  }

  lemma {:induction false} RanksOfIdle(workers: seq<Worker>)
    requires forall i :: 0 <= i < |workers| ==> workers[i].Idle?
    ensures Ranks(workers) == 0
  {
    if workers != [] {
      RanksOfIdle(workers[..|workers| - 1]);
    }
  }

  /** Per-key equality of two histories makes them equally long. */
  lemma SameLength(a: seq<WriteJob>, b: seq<WriteJob>)
    requires forall key :: Of(a, key) == Of(b, key)
    ensures |a| == |b|
  {
    forall job ensures multiset(a)[job] == multiset(b)[job] {
      OfMembers(a, Key(job), job);
      OfMembers(b, Key(job), job);
    }
    assert multiset(a) == multiset(b);
    assert |multiset(a)| == |a| && |multiset(b)| == |b|;
  }

  /** Progress for every schedule: from a reachable state with nothing parked, a sequence of
      worker steps that cannot be extended by another has exactly Work(s) steps, whatever the
      interleaving, and ends with every stored job committed in the order of its key. */
  lemma WorkersDrain(poolSize: nat, events: seq<Event>, more: seq<Event>)
    requires poolSize >= 1 && Exec(poolSize, events, false).Some?
    requires Exec(poolSize, events, false).value.q.waiting == map[]
    requires forall e :: e in more ==> IsWorkerEvent(e)
    requires ExecFrom(Exec(poolSize, events, false).value, more, false).Some?
    requires Stalled(ExecFrom(Exec(poolSize, events, false).value, more, false).value)
    ensures |more| == Work(Exec(poolSize, events, false).value)
    ensures Drained(ExecFrom(Exec(poolSize, events, false).value, more, false).value)
  {
    var s := Exec(poolSize, events, false).value;
    var t := ExecFrom(s, more, false).value;
    ReachableUnparked(poolSize, events);
    WorkCounts(s, more);
    ExecConcat(Init(poolSize), events, more, false);
    StalledExactly(poolSize, events + more, false);
    RanksOfIdle(t.workers);
    SameLength(t.stored, t.committed);
  }

  // ----- The send under the lock -----

  /** A wedged pool stays wedged: nothing but commits already claimed can ever follow, so no
      Store call is accepted and no batch completes again. */
  lemma {:induction false} WedgedForever(s: System, events: seq<Event>, repaired: bool)
    requires Wedged(s) && ExecFrom(s, events, repaired).Some?
    ensures Wedged(ExecFrom(s, events, repaired).value)
    ensures forall e :: e in events ==> e.CommitNext?
  {
    if events != [] {
      var t := LastStepFrom(s, events, repaired);
      var last := events[|events| - 1];
      WedgedForever(s, events[..|events| - 1], repaired);
      assert events == events[..|events| - 1] + [last];
      var b :| 0 <= b < |t.workers| && t.workers[b].Blocked?;
      assert last.CommitNext?;
      assert Next(t, last, repaired).workers[b].Blocked?;
    }
  }

  ghost predicate CanUnlock(s: System, repaired: bool) {
    exists more :: UnlocksBy(s, more, repaired)
  }

  ghost predicate UnlocksBy(s: System, more: seq<Event>, repaired: bool) {
    ExecFrom(s, more, repaired).Some? && LockFree(ExecFrom(s, more, repaired).value)
  }

  /** In a reachable state the lock can become free again, by some continuation, exactly when
      the pool is not wedged. */
  lemma UnlockableExactly(poolSize: nat, events: seq<Event>, repaired: bool)
    requires Exec(poolSize, events, repaired).Some?
    ensures var s := Exec(poolSize, events, repaired).value;
            CanUnlock(s, repaired) <==> !Wedged(s)
  {
    var s := Exec(poolSize, events, repaired).value;
    if Wedged(s) {
      forall more | ExecFrom(s, more, repaired).Some? ensures !UnlocksBy(s, more, repaired) {
        WedgedForever(s, more, repaired);
      }
    } else {
      ReachableExclusive(poolSize, events, repaired);
      Unlocks(s, repaired);
    }
  }

  lemma Unlocks(s: System, repaired: bool)
    requires Orderly(s) && !Wedged(s)
    ensures CanUnlock(s, repaired)
  {
    if LockFree(s) {
      assert UnlocksBy(s, [], repaired);
    } else {
      var b :| 0 <= b < |s.workers| && s.workers[b].Blocked?;
      var w :| 0 <= w < |s.workers| && s.workers[w].Idle?;
      TakingUnlocks(s, w, b, repaired);
      var more := [] + [TakeFromWorker(w, b)];
      ExecSnoc(s, [], TakeFromWorker(w, b), repaired);
      assert UnlocksBy(s, more, repaired);
    }
  }

  lemma TakingUnlocks(s: System, w: nat, b: nat, repaired: bool)
    requires Orderly(s) && Enabled(s, TakeFromWorker(w, b))
    ensures LockFree(Next(s, TakeFromWorker(w, b), repaired))
  {
    forall i | 0 <= i < |s.workers| && i != b ensures !s.workers[i].Blocked? {
    }
  }
}
