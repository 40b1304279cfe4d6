/** The write protocol as a whole: Store callers, the pool of workers and the unbuffered
    channel between them (controller/data_store.go:89-99, 161-262).

    A section under writesLock is one step. The one exception is the send that
    markJobsCompleted makes while it still holds the lock: a worker there is Blocked, and
    no other section runs until some idle worker receives. */
module WritePool {
  import opened Prelude
  import opened WriteJobs
  import opened WriteQueue

  datatype Worker =
    | Idle                                        // receiving on pendingWorkChan
    | Awake                                       // received, about to call nextJobs
    | Busy(jobs: seq<WriteJob>, done: nat)        // in pushJobs, `done` commits made
    | Blocked                                     // sending in markJobsCompleted, lock held

  /** `senders` counts the Store calls blocked on the channel. The last three fields are
      history: every job stored, every job committed, and the keys whose parked list some
      completion has promoted. */
  datatype System = System(
    q: Queues,
    workers: seq<Worker>,
    senders: nat,
    stored: seq<WriteJob>,
    committed: seq<WriteJob>,
    promoted: set<string>)

  datatype Event =
    | StoreCall(job: WriteJob)
    | TakeFromStore(w: nat)
    | TakeFromWorker(w: nat, from: nat)
    | ClaimPending(w: nat, order: seq<string>)
    | CommitNext(w: nat)
    | MarkCompleted(w: nat)

  function Init(poolSize: nat): System {
    System(EMPTY, seq(poolSize, _ => Idle), 0, [], [], {})
  }

  predicate LockFree(s: System) {
    forall i :: 0 <= i < |s.workers| ==> !s.workers[i].Blocked?
  }

  ghost predicate Enabled(s: System, e: Event) {
    match e
    case StoreCall(_) => LockFree(s)
    case TakeFromStore(w) => w < |s.workers| && s.workers[w].Idle? && s.senders > 0
    case TakeFromWorker(w, from) =>
      w < |s.workers| && from < |s.workers| && s.workers[w].Idle? && s.workers[from].Blocked?
    case ClaimPending(w, order) =>
      w < |s.workers| && s.workers[w].Awake? && LockFree(s) && IsOrder(order, s.q.pending.Keys)
    case CommitNext(w) =>
      w < |s.workers| && s.workers[w].Busy? && s.workers[w].done < |s.workers[w].jobs|
    case MarkCompleted(w) =>
      w < |s.workers| && s.workers[w].Busy? && s.workers[w].done == |s.workers[w].jobs| && LockFree(s)
  }

  ghost function Next(s: System, e: Event, repaired: bool): System
    requires Enabled(s, e)
  {
    match e
    case StoreCall(job) =>
      s.(q := Accept(s.q, job), senders := s.senders + 1, stored := s.stored + [job])
    case TakeFromStore(w) =>
      s.(workers := s.workers[w := Awake], senders := s.senders - 1)
    case TakeFromWorker(w, from) =>
      s.(workers := s.workers[w := Awake][from := Idle])
    case ClaimPending(w, order) =>
      s.(q := Claim(s.q, order), workers := s.workers[w := Busy(Flatten(s.q.pending, order), 0)])
    case CommitNext(w) =>
      var b := s.workers[w];
      s.(workers := s.workers[w := Busy(b.jobs, b.done + 1)], committed := s.committed + [b.jobs[b.done]])
    case MarkCompleted(w) =>
      var jobs := s.workers[w].jobs;
      s.(q := Finish(s.q, jobs, repaired),
         workers := s.workers[w := if Promotes(s.q, jobs) then Blocked else Idle],
         promoted := s.promoted + PromotedKeys(s.q, jobs))
  }

  function PromotedKeys(q: Queues, jobs: seq<WriteJob>): set<string> {
    set key | key in Keys(jobs) && Get(q.waiting, key) != []
  }

  /** The state after a run, or None when some event of it was not enabled. */
  ghost function ExecFrom(s: System, events: seq<Event>, repaired: bool): Option<System> {
    if events == [] then Some(s)
    else After(ExecFrom(s, events[..|events| - 1], repaired), events[|events| - 1], repaired)
  }

  ghost function After(s: Option<System>, e: Event, repaired: bool): Option<System> {
    if s.Some? && Enabled(s.value, e) then Some(Next(s.value, e, repaired)) else None
  }

  ghost function Exec(poolSize: nat, events: seq<Event>, repaired: bool): Option<System> {
    ExecFrom(Init(poolSize), events, repaired)
  }

  /** A run that ends in a state ends with an enabled step from a shorter run's state. */
  lemma LastStepFrom(s: System, events: seq<Event>, repaired: bool) returns (t: System)
    requires events != [] && ExecFrom(s, events, repaired).Some?
    ensures ExecFrom(s, events[..|events| - 1], repaired) == Some(t)
    ensures Enabled(t, events[|events| - 1])
    ensures ExecFrom(s, events, repaired) == Some(Next(t, events[|events| - 1], repaired))
  {
    t := ExecFrom(s, events[..|events| - 1], repaired).value;
  }

  lemma LastStep(poolSize: nat, events: seq<Event>, repaired: bool) returns (t: System)
    requires events != [] && Exec(poolSize, events, repaired).Some?
    ensures Exec(poolSize, events[..|events| - 1], repaired) == Some(t)
    ensures Enabled(t, events[|events| - 1])
    ensures Exec(poolSize, events, repaired) == Some(Next(t, events[|events| - 1], repaired))
  {
    t := LastStepFrom(Init(poolSize), events, repaired);
  }

  lemma ExecSnoc(s: System, events: seq<Event>, e: Event, repaired: bool)
    requires ExecFrom(s, events, repaired).Some? && Enabled(ExecFrom(s, events, repaired).value, e)
    ensures ExecFrom(s, events + [e], repaired) == Some(Next(ExecFrom(s, events, repaired).value, e, repaired))
  {
    assert (events + [e])[..|events|] == events;
  }

  /** Running on from where a run ended is one longer run. */
  lemma {:induction false} ExecConcat(s: System, first: seq<Event>, second: seq<Event>, repaired: bool)
    requires ExecFrom(s, first, repaired).Some?
    ensures ExecFrom(s, first + second, repaired) == ExecFrom(ExecFrom(s, first, repaired).value, second, repaired)
  {
    if second == [] {
      assert first + second == first;
    } else {
      var all, init, last := first + second, second[..|second| - 1], second[|second| - 1];
      ExecConcat(s, first, init, repaired);
      assert all[..|all| - 1] == first + init && all[|all| - 1] == last;
      assert ExecFrom(s, all, repaired) == After(ExecFrom(s, first + init, repaired), last, repaired);
    }
  }

  // ----- Per-key exclusion -----

  ghost predicate IsOwner(s: System, i: int, key: string) {
    0 <= i < |s.workers| && s.workers[i].Busy? && key in Keys(s.workers[i].jobs)
  }

  /** The lists of one key are its own, and a running key belongs to exactly one worker,
      whose batch carries exactly the marked ids; nothing of it is pending meanwhile. */
  ghost predicate KeyExclusive(s: System, key: string) {
    && Listed(s.q.pending, key)
    && Listed(s.q.waiting, key)
    && (key in s.q.running ==> s.q.running[key] != {} && key !in s.q.pending && exists i :: IsOwner(s, i, key))
    && (forall i :: IsOwner(s, i, key) ==> key in s.q.running && s.q.running[key] == Ids(s.workers[i].jobs, key))
    && (forall i, j :: IsOwner(s, i, key) && IsOwner(s, j, key) ==> i == j)
  }

  ghost predicate Orderly(s: System) {
    && (forall i :: 0 <= i < |s.workers| && s.workers[i].Busy? ==> s.workers[i].done <= |s.workers[i].jobs|)
    && (forall i, j :: 0 <= i < j < |s.workers| ==> !(s.workers[i].Blocked? && s.workers[j].Blocked?))
  }

  ghost predicate Exclusive(s: System) {
    Orderly(s) && forall key :: KeyExclusive(s, key)
  }

  /** Per-key exclusion in every reachable state, for any pool size, any interleaving and
      any ids, of the shipped and of the repaired protocol. */
  lemma {:induction false} ReachableExclusive(poolSize: nat, events: seq<Event>, repaired: bool)
    requires Exec(poolSize, events, repaired).Some?
    ensures Exclusive(Exec(poolSize, events, repaired).value)
  {
    if events == [] {
      InitExclusive(poolSize);
    } else {
      var s := LastStep(poolSize, events, repaired);
      ReachableExclusive(poolSize, events[..|events| - 1], repaired);
      StepExclusive(s, events[|events| - 1], repaired);
    }
  }

  lemma InitExclusive(poolSize: nat)
    ensures Exclusive(Init(poolSize))
  {
    forall key ensures KeyExclusive(Init(poolSize), key) {
    }
  }

  lemma StepExclusive(s: System, e: Event, repaired: bool)
    requires Exclusive(s) && Enabled(s, e)
    ensures Exclusive(Next(s, e, repaired))
  {
    StepOrderly(s, e, repaired);
    forall key ensures KeyExclusive(Next(s, e, repaired), key) {
      match e
      case StoreCall(job) => StoreExclusive(s, job, repaired, key);
      case TakeFromStore(w) => TakeExclusive(s, e, repaired, key);
      case TakeFromWorker(w, from) => TakeExclusive(s, e, repaired, key);
      case ClaimPending(w, order) => ClaimExclusive(s, w, order, repaired, key);
      case CommitNext(w) => TakeExclusive(s, e, repaired, key);
      case MarkCompleted(w) => CompleteExclusive(s, w, repaired, key);
    }
  }

  lemma StepOrderly(s: System, e: Event, repaired: bool)
    requires Orderly(s) && Enabled(s, e)
    ensures Orderly(Next(s, e, repaired))
  {
  }

  /** Steps that leave the queues and every worker's batch alone. */
  lemma TakeExclusive(s: System, e: Event, repaired: bool, key: string)
    requires Exclusive(s) && Enabled(s, e)
    requires e.TakeFromStore? || e.TakeFromWorker? || e.CommitNext?
    ensures KeyExclusive(Next(s, e, repaired), key)
  {
    var t := Next(s, e, repaired);
    assert KeyExclusive(s, key);
    assert forall i :: IsOwner(t, i, key) <==> IsOwner(s, i, key);
  }

  lemma StoreExclusive(s: System, job: WriteJob, repaired: bool, key: string)
    requires Exclusive(s) && LockFree(s)
    ensures KeyExclusive(Next(s, StoreCall(job), repaired), key)
  {
    var t := Next(s, StoreCall(job), repaired);
    assert KeyExclusive(s, key);
    assert forall i :: IsOwner(t, i, key) <==> IsOwner(s, i, key);
    AppendGet(s.q.waiting, Key(job), [job], key);
    AppendGet(s.q.pending, Key(job), [job], key);
  }

  lemma ClaimExclusive(s: System, w: nat, order: seq<string>, repaired: bool, key: string)
    requires Exclusive(s) && Enabled(s, ClaimPending(w, order))
    ensures KeyExclusive(Next(s, ClaimPending(w, order), repaired), key)
  {
    ClaimedBatch(s, order, key);
    OwnershipTaken(s, Next(s, ClaimPending(w, order), repaired), w, key);
  }

  lemma OwnershipTaken(s: System, t: System, w: nat, key: string)
    requires KeyExclusive(s, key)
    requires w < |s.workers| == |t.workers| && forall i :: 0 <= i < |s.workers| && i != w ==>
             s.workers[i] == t.workers[i]
    requires !s.workers[w].Busy? && t.workers[w].Busy?
    requires t.q.pending == map[] && t.q.waiting == s.q.waiting
    requires key in Keys(t.workers[w].jobs) <==> key in s.q.pending
    requires key in t.q.running <==> key in s.q.running || key in s.q.pending
    requires Marked(t.q.running, key) == Marked(s.q.running, key) + Ids(t.workers[w].jobs, key)
    requires Ids(t.workers[w].jobs, key) == {} <==> key !in s.q.pending
    ensures KeyExclusive(t, key)
  {
    OthersKept(s, t, w, key);
    if key in s.q.pending {
      assert forall i :: !IsOwner(s, i, key);
      assert forall i :: IsOwner(t, i, key) ==> i == w;
      assert IsOwner(t, w, key);
    } else {
      assert forall i :: IsOwner(t, i, key) <==> IsOwner(s, i, key);
      assert Marked(t.q.running, key) == Marked(s.q.running, key);
    }
  }

  /** A step that changes only worker w leaves the ownership of the others alone. */
  lemma OthersKept(s: System, t: System, w: nat, key: string)
    requires w < |s.workers| == |t.workers| && forall i :: 0 <= i < |s.workers| && i != w ==>
             s.workers[i] == t.workers[i]
    ensures forall i :: i != w ==> (IsOwner(t, i, key) <==> IsOwner(s, i, key))
  {
  }

  /** The claimed batch holds exactly the pending jobs of each key, now marked running. */
  lemma ClaimedBatch(s: System, order: seq<string>, key: string)
    requires Exclusive(s) && IsOrder(order, s.q.pending.Keys)
    ensures var batch := Flatten(s.q.pending, order);
            && Of(batch, key) == Get(s.q.pending, key)
            && (key in Keys(batch) <==> key in s.q.pending)
            && (key in Claim(s.q, order).running <==> key in s.q.running || key in s.q.pending)
            && Marked(Claim(s.q, order).running, key) == Marked(s.q.running, key) + Ids(batch, key)
            && (Ids(batch, key) == {} <==> key !in s.q.pending)
  {
    assert KeyExclusive(s, key);
    assert WellKeyed(s.q.pending) by {
      forall k ensures Listed(s.q.pending, k) {
        assert KeyExclusive(s, k);
      }
    }
    var batch := Flatten(s.q.pending, order);
    ClaimTakesKey(s.q, order, key);
    ClaimMarksKey(s.q, order, key);
    OfNone(batch, key);
    OfIds(batch, key);
    IdsNone(batch, key);
  }

  lemma OfIds(jobs: seq<WriteJob>, key: string)
    ensures Ids(jobs, key) == IdsIn(Of(jobs, key))
  {
    forall job ensures job in Of(jobs, key) <==> job in jobs && Key(job) == key {
      OfMembers(jobs, key, job);
    }
  }

  lemma CompleteExclusive(s: System, w: nat, repaired: bool, key: string)
    requires Exclusive(s) && Enabled(s, MarkCompleted(w))
    ensures KeyExclusive(Next(s, MarkCompleted(w), repaired), key)
  {
    var jobs := s.workers[w].jobs;
    assert KeyExclusive(s, key);
    FinishReleases(s.q, jobs, repaired, key);
    FinishLists(s.q, jobs, repaired, key);
    IdsNone(jobs, key);
    OwnershipDropped(s, Next(s, MarkCompleted(w), repaired), w, key);
  }

  lemma OwnershipDropped(s: System, t: System, w: nat, key: string)
    requires KeyExclusive(s, key)
    requires w < |s.workers| == |t.workers| && forall i :: 0 <= i < |s.workers| && i != w ==>
             s.workers[i] == t.workers[i]
    requires s.workers[w].Busy? && !t.workers[w].Busy?
    requires Listed(t.q.pending, key) && Listed(t.q.waiting, key)
    requires key !in Keys(s.workers[w].jobs) ==> (key in t.q.pending <==> key in s.q.pending)
    requires Ids(s.workers[w].jobs, key) == {} <==> key !in Keys(s.workers[w].jobs)
    requires Marked(t.q.running, key) == Marked(s.q.running, key) - Ids(s.workers[w].jobs, key)
    requires key in t.q.running ==> t.q.running[key] != {}
    ensures KeyExclusive(t, key)
  {
    OthersKept(s, t, w, key);
    if key in Keys(s.workers[w].jobs) {
      assert IsOwner(s, w, key);
      assert forall i :: !IsOwner(t, i, key);
      assert Marked(t.q.running, key) == {};
    } else {
      assert forall i :: IsOwner(t, i, key) <==> IsOwner(s, i, key);
      assert Marked(t.q.running, key) == Marked(s.q.running, key);
    }
  }

  /** Whatever ids the batch carries, completing it unmarks each of its keys and no other. */
  lemma CompletionReleasesBatch(poolSize: nat, events: seq<Event>, repaired: bool, w: nat)
    requires Exec(poolSize, events, repaired).Some?
    requires Enabled(Exec(poolSize, events, repaired).value, MarkCompleted(w))
    ensures var s := Exec(poolSize, events, repaired).value;
            var t := Next(s, MarkCompleted(w), repaired);
            t.q.running.Keys == s.q.running.Keys - Keys(s.workers[w].jobs)
  {
    ReachableExclusive(poolSize, events, repaired);
    var s := Exec(poolSize, events, repaired).value;
    var t := Next(s, MarkCompleted(w), repaired);
    var jobs := s.workers[w].jobs;
    forall key ensures key in t.q.running <==> key in s.q.running && key !in Keys(jobs) {
      assert KeyExclusive(s, key);
      FinishReleases(s.q, jobs, repaired, key);
      IdsNone(jobs, key);
      if key in Keys(jobs) {
        assert IsOwner(s, w, key);
        assert Marked(t.q.running, key) == {};
      } else {
        assert Marked(t.q.running, key) == Marked(s.q.running, key);
      }
    }
  }

  /** Finishing keeps every list non-empty and its own, and touches only the batch's keys. */
  lemma {:induction false} FinishLists(q: Queues, jobs: seq<WriteJob>, repaired: bool, key: string)
    requires Listed(q.pending, key) && Listed(q.waiting, key)
    ensures Listed(Finish(q, jobs, repaired).pending, key)
    ensures Listed(Finish(q, jobs, repaired).waiting, key)
    ensures key !in Keys(jobs) ==>
              && Get(Finish(q, jobs, repaired).pending, key) == Get(q.pending, key)
              && Get(Finish(q, jobs, repaired).waiting, key) == Get(q.waiting, key)
              && (key in Finish(q, jobs, repaired).pending <==> key in q.pending)
  {
    if jobs != [] {
      var init, last := jobs[..|jobs| - 1], jobs[|jobs| - 1];
      FinishLists(q, init, repaired, key);
      KeysSnoc(jobs);
      var before := Finish(q, init, repaired);
      AppendGet(before.pending, Key(last), Get(before.waiting, Key(last)), key);
    }
  }
}
