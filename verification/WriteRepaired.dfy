/** The repaired write protocol comes to rest: the workers can only take so many steps before
    the next Store call (controller/data_store.go:214-262, with the parked list cleared). */
module WriteRepaired {
  import opened Prelude
  import opened WriteJobs
  import opened WriteQueue
  import opened WritePool
  import opened WriteOrder
  import opened WriteProgress

  /** An upper bound on the worker steps left: a parked key costs a token, and a worker sending
      under the lock has one to hand over. */
  ghost function Weight(s: System): int {
    Work(s) + 3 * |s.q.waiting| + if LockFree(s) then 0 else 3
  }

  lemma FewerKeys(a: JobLists, b: JobLists)
    requires a.Keys <= b.Keys
    ensures |a| <= |b| && (a.Keys != b.Keys ==> |a| < |b|)
  {
    assert b.Keys == a.Keys + (b.Keys - a.Keys);
    assert |a| == |a.Keys| && |b| == |b.Keys|;
  }

  /** Completing a batch parks nothing, and takes away what it promotes. */
  lemma CompletedParks(s: System, w: nat)
    requires Exclusive(s) && Enabled(s, MarkCompleted(w))
    ensures var t := Next(s, MarkCompleted(w), true);
            |t.q.waiting| <= |s.q.waiting| && (Promotes(s.q, s.workers[w].jobs) ==> |t.q.waiting| < |s.q.waiting|)
  {
    var jobs := s.workers[w].jobs;
    var after := Finish(s.q, jobs, true).waiting;
    forall key ensures key in after <==> key in s.q.waiting && key !in Keys(jobs) {
      FinishPromotesOnce(s.q, jobs, key);
    }
    if Promotes(s.q, jobs) {
      var job :| job in jobs && Get(s.q.waiting, Key(job)) != [];
      assert Key(job) in s.q.waiting && Key(job) !in after;
    }
    FewerKeys(after, s.q.waiting);
  }

  lemma StepWeighs(s: System, e: Event)
    requires Exclusive(s) && Enabled(s, e) && IsWorkerEvent(e)
    ensures Weight(Next(s, e, true)) < Weight(s)
  {
    match e
    case TakeFromStore(w) => TakenWeighs(s, w);
    case TakeFromWorker(w, from) =>
      RanksUpdate(s.workers, w, Awake);
      RanksUpdate(s.workers[w := Awake], from, Idle);
      TakingUnlocks(s, w, from, true);
    case ClaimPending(w, order) => RanksUpdate(s.workers, w, Busy(Flatten(s.q.pending, order), 0));
    case CommitNext(w) => CommittedWeighs(s, w);
    case MarkCompleted(w) => CompletedWeighs(s, w);
  }

  lemma TakenWeighs(s: System, w: nat)
    requires Enabled(s, TakeFromStore(w))
    ensures Weight(Next(s, TakeFromStore(w), true)) < Weight(s)
  {
    RanksUpdate(s.workers, w, Awake);
    assert LockFree(Next(s, TakeFromStore(w), true)) == LockFree(s) by {
      SameLock(s.workers, w, Awake);
    }
  }

  lemma CommittedWeighs(s: System, w: nat)
    requires Enabled(s, CommitNext(w))
    ensures Weight(Next(s, CommitNext(w), true)) < Weight(s)
  {
    var after := Busy(s.workers[w].jobs, s.workers[w].done + 1);
    RanksUpdate(s.workers, w, after);
    assert LockFree(Next(s, CommitNext(w), true)) == LockFree(s) by {
      SameLock(s.workers, w, after);
    }
  }

  lemma SameLock(workers: seq<Worker>, w: nat, after: Worker)
    requires w < |workers| && !workers[w].Blocked? && !after.Blocked?
    ensures (forall i :: 0 <= i < |workers| ==> !workers[i].Blocked?)
            <==> var changed := workers[w := after]; forall i :: 0 <= i < |changed| ==> !changed[i].Blocked?
  {
    forall i | 0 <= i < |workers| ensures workers[w := after][i].Blocked? <==> workers[i].Blocked? {
    }
  }

  lemma CompletedWeighs(s: System, w: nat)
    requires Exclusive(s) && Enabled(s, MarkCompleted(w))
    ensures Weight(Next(s, MarkCompleted(w), true)) < Weight(s)
  {
    var after := if Promotes(s.q, s.workers[w].jobs) then Blocked else Idle;
    CompletedParks(s, w);
    RanksUpdate(s.workers, w, after);
    if after.Idle? {
      SameLock(s.workers, w, after);
    }
  }

  /** No more is committed than was stored. */
  lemma CommittedWithinStored(poolSize: nat, events: seq<Event>)
    requires Exec(poolSize, events, true).Some?
    ensures |Exec(poolSize, events, true).value.committed| <= |Exec(poolSize, events, true).value.stored|
  {
    var s := Exec(poolSize, events, true).value;
    forall job ensures multiset(s.committed)[job] <= multiset(s.stored)[job] {
      CommittedFewer(poolSize, events, job);
    }
    assert multiset(s.stored) == multiset(s.committed) + (multiset(s.stored) - multiset(s.committed));
    assert |multiset(s.stored)| == |s.stored| && |multiset(s.committed)| == |s.committed|;
  }

  lemma CommittedFewer(poolSize: nat, events: seq<Event>, job: WriteJob)
    requires Exec(poolSize, events, true).Some?
    ensures var s := Exec(poolSize, events, true).value; multiset(s.committed)[job] <= multiset(s.stored)[job]
  {
    var s, key := Exec(poolSize, events, true).value, Key(job);
    ReachableTidy(poolSize, events, true, key);
    OfMembers(s.committed, key, job);
    OfMembers(s.stored, key, job);
    CountRest(Of(s.committed, key), InFlight(s.workers, key), Get(s.q.pending, key), Get(s.q.waiting, key), job);
  }

  lemma CountRest(a: seq<WriteJob>, b: seq<WriteJob>, c: seq<WriteJob>, d: seq<WriteJob>, job: WriteJob)
    ensures multiset(a)[job] <= multiset(a + b + c + d)[job]
  {
  }

  /** Every worker step takes some weight away, whatever the interleaving. */
  lemma {:induction false} WeightCounts(poolSize: nat, events: seq<Event>, more: seq<Event>)
    requires Exec(poolSize, events, true).Some? && forall e :: e in more ==> IsWorkerEvent(e)
    requires ExecFrom(Exec(poolSize, events, true).value, more, true).Some?
    ensures Weight(ExecFrom(Exec(poolSize, events, true).value, more, true).value) + |more|
         <= Weight(Exec(poolSize, events, true).value)
  {
    if more != [] {
      var s, init := Exec(poolSize, events, true).value, more[..|more| - 1];
      var t := LastStepFrom(s, more, true);
      WeightCounts(poolSize, events, init);
      ExecConcat(Init(poolSize), events, init, true);
      ReachableExclusive(poolSize, events + init, true);
      StepWeighs(t, more[|more| - 1]);
    }
  }

  /** So the workers come to rest within that many steps, parked jobs or not; and where they can
      do nothing more, everything is committed or the pool is wedged. */
  lemma RepairedRests(poolSize: nat, events: seq<Event>, more: seq<Event>)
    requires poolSize >= 1 && Exec(poolSize, events, true).Some? && forall e :: e in more ==> IsWorkerEvent(e)
    requires ExecFrom(Exec(poolSize, events, true).value, more, true).Some?
    ensures |more| <= Weight(Exec(poolSize, events, true).value)
    ensures var t := ExecFrom(Exec(poolSize, events, true).value, more, true).value;
            Stalled(t) <==> Drained(t) || (Wedged(t) && AllCommitted(t))
  {
    WeightCounts(poolSize, events, more);
    ExecConcat(Init(poolSize), events, more, true);
    CommittedWithinStored(poolSize, events + more);
    StalledExactly(poolSize, events + more, true);
  }
}
