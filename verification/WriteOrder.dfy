/** What the write protocol does to the writes of one key: nothing is ever lost, and they
    are committed once each and in the order stored exactly as long as no completion has
    promoted a parked list of that key (docs/data.md:54-58; controller/data_store.go:161-246). */
module WriteOrder {
  import opened Prelude
  import opened WriteJobs
  import opened WriteQueue
  import opened WritePool

  /** The claimed jobs of a worker that it has not committed yet. */
  function Remaining(worker: Worker): seq<WriteJob> {
    if worker.Busy? && worker.done <= |worker.jobs| then worker.jobs[worker.done..] else []
  }

  function InFlight(workers: seq<Worker>, key: string): seq<WriteJob> {
    if workers == [] then []
    else InFlight(workers[..|workers| - 1], key) + Of(Remaining(workers[|workers| - 1]), key)
  }

  /** Stored writes of the key are committed, then in flight, then pending, then parked. */
  ghost predicate Conserved(s: System, key: string) {
    Of(s.stored, key)
    == Of(s.committed, key) + InFlight(s.workers, key) + Get(s.q.pending, key) + Get(s.q.waiting, key)
  }

  /** The number of writes of the key the system has made or still holds. */
  ghost function Load(s: System, key: string): nat {
    |Of(s.committed, key)| + |InFlight(s.workers, key)| + |Get(s.q.pending, key)| + |Get(s.q.waiting, key)|
  }

  ghost predicate Accounted(s: System, job: WriteJob) {
    var key := Key(job);
    || job in Of(s.committed, key)
    || job in InFlight(s.workers, key)
    || job in Get(s.q.pending, key)
    || (job in Get(s.q.waiting, key) && key in s.q.running)
  }

  // ----- In-flight jobs under ownership -----

  lemma {:induction false} InFlightNone(workers: seq<Worker>, key: string)
    requires forall i :: 0 <= i < |workers| ==> Of(Remaining(workers[i]), key) == []
    ensures InFlight(workers, key) == []
  {
    if workers != [] {
      InFlightNone(workers[..|workers| - 1], key);
    }
  }

  lemma {:induction false} InFlightOnly(workers: seq<Worker>, w: nat, key: string)
    requires w < |workers|
    requires forall i :: 0 <= i < |workers| && i != w ==> Of(Remaining(workers[i]), key) == []
    ensures InFlight(workers, key) == Of(Remaining(workers[w]), key)
  {
    var init := workers[..|workers| - 1];
    if w == |workers| - 1 {
      InFlightNone(init, key);
    } else {
      InFlightOnly(init, w, key);
    }
  }

  lemma {:induction false} InFlightSame(before: seq<Worker>, after: seq<Worker>, key: string)
    requires |before| == |after|
    requires forall i :: 0 <= i < |before| ==> Of(Remaining(before[i]), key) == Of(Remaining(after[i]), key)
    ensures InFlight(before, key) == InFlight(after, key)
  {
    if before != [] {
      InFlightSame(before[..|before| - 1], after[..|after| - 1], key);
    }
  }

  lemma NotOwnerNothing(s: System, i: nat, key: string)
    requires i < |s.workers| && !IsOwner(s, i, key)
    ensures Of(Remaining(s.workers[i]), key) == []
  {
    OfNone(Remaining(s.workers[i]), key);
  }

  /** The in-flight jobs of a key are those of its owner. */
  lemma InFlightOwner(s: System, w: nat, key: string)
    requires KeyExclusive(s, key) && IsOwner(s, w, key)
    ensures InFlight(s.workers, key) == Of(Remaining(s.workers[w]), key)
  {
    forall i | 0 <= i < |s.workers| && i != w ensures Of(Remaining(s.workers[i]), key) == [] {
      NotOwnerNothing(s, i, key);
    }
    InFlightOnly(s.workers, w, key);
  }

  lemma InFlightUnowned(s: System, key: string)
    requires forall i :: !IsOwner(s, i, key)
    ensures InFlight(s.workers, key) == []
  {
    forall i | 0 <= i < |s.workers| ensures Of(Remaining(s.workers[i]), key) == [] {
      NotOwnerNothing(s, i, key);
    }
    InFlightNone(s.workers, key);
  }

  // ----- How each step moves the writes of one key -----

  /** Claiming moves the pending list into flight, committing moves the first in-flight
      write to the committed ones, and no other step moves either. */
  lemma StepMoves(s: System, e: Event, repaired: bool, key: string)
    requires Exclusive(s) && Enabled(s, e)
    ensures var t := Next(s, e, repaired);
            Of(t.committed, key) + InFlight(t.workers, key)
            == Of(s.committed, key) + InFlight(s.workers, key) + if e.ClaimPending? then Get(s.q.pending, key) else []
  {
    match e
    case ClaimPending(w, order) =>
      ClaimMoves(s, w, order, repaired, key);
      Assoc(Of(s.committed, key), InFlight(s.workers, key), Get(s.q.pending, key));
    case CommitNext(w) => CommitMoves(s, w, repaired, key);
    case _ => QuietMoves(s, e, repaired, key);
  }

  lemma QuietMoves(s: System, e: Event, repaired: bool, key: string)
    requires Enabled(s, e) && !e.ClaimPending? && !e.CommitNext?
    ensures Next(s, e, repaired).committed == s.committed
    ensures InFlight(Next(s, e, repaired).workers, key) == InFlight(s.workers, key)
  {
    var t := Next(s, e, repaired);
    forall i | 0 <= i < |s.workers| ensures Of(Remaining(s.workers[i]), key) == Of(Remaining(t.workers[i]), key) {
      if s.workers[i] != t.workers[i] {
        assert Remaining(s.workers[i]) == [] == Remaining(t.workers[i]);
      }
    }
    InFlightSame(s.workers, t.workers, key);
  }

  lemma ClaimMoves(s: System, w: nat, order: seq<string>, repaired: bool, key: string)
    requires Exclusive(s) && Enabled(s, ClaimPending(w, order))
    ensures Next(s, ClaimPending(w, order), repaired).committed == s.committed
    ensures InFlight(Next(s, ClaimPending(w, order), repaired).workers, key)
         == InFlight(s.workers, key) + Get(s.q.pending, key)
  {
    ClaimedBatch(s, order, key);
    ClaimExclusive(s, w, order, repaired, key);
    assert KeyExclusive(s, key);
    InFlightTaken(s, Next(s, ClaimPending(w, order), repaired), w, key);
  }

  lemma InFlightTaken(s: System, t: System, w: nat, key: string)
    requires KeyExclusive(s, key) && KeyExclusive(t, key)
    requires w < |s.workers| == |t.workers| && forall i :: 0 <= i < |s.workers| && i != w ==>
             s.workers[i] == t.workers[i]
    requires s.workers[w].Awake? && t.workers[w].Busy? && t.workers[w].done == 0
    requires Of(t.workers[w].jobs, key) == Get(s.q.pending, key)
    requires key in Keys(t.workers[w].jobs) <==> key in s.q.pending
    ensures InFlight(t.workers, key) == InFlight(s.workers, key) + Get(s.q.pending, key)
  {
    var batch := t.workers[w].jobs;
    assert batch[0..] == batch;
    if key in s.q.pending {
      assert forall i :: !IsOwner(s, i, key);
      InFlightUnowned(s, key);
      assert IsOwner(t, w, key);
      InFlightOwner(t, w, key);
    } else {
      InFlightSame(s.workers, t.workers, key);
    }
  }

  lemma CommitMoves(s: System, w: nat, repaired: bool, key: string)
    requires Exclusive(s) && Enabled(s, CommitNext(w))
    ensures var t := Next(s, CommitNext(w), repaired);
            Of(t.committed, key) + InFlight(t.workers, key) == Of(s.committed, key) + InFlight(s.workers, key)
  {
    var t := Next(s, CommitNext(w), repaired);
    var job := s.workers[w].jobs[s.workers[w].done];
    assert Remaining(s.workers[w]) == [job] + Remaining(t.workers[w]);
    OfConcat([job], Remaining(t.workers[w]), key);
    OfConcat(s.committed, [job], key);
    assert KeyExclusive(s, key);
    if Key(job) == key {
      assert IsOwner(s, w, key);
      InFlightOwner(s, w, key);
      TakeExclusive(s, CommitNext(w), repaired, key);
      assert IsOwner(t, w, key);
      InFlightOwner(t, w, key);
      OneOf(job);
      Assoc(Of(s.committed, key), [job], Of(Remaining(t.workers[w]), key));
    } else {
      OfOther(job, key);
      InFlightSame(s.workers, t.workers, key);
    }
  }

  lemma OneOf(job: WriteJob)
    ensures Of([job], Key(job)) == [job]
  {
    OfAll([job], Key(job));
  }

  lemma OfOther(job: WriteJob, key: string)
    requires Key(job) != key
    ensures Of([job], key) == []
  {
    OfNone([job], key);
  }

  // ----- First in, first out -----

  /** Nothing is parked behind a key that is not running, and the writes are conserved. */
  ghost predicate Tidy(s: System, key: string) {
    Conserved(s, key) && (Get(s.q.waiting, key) != [] ==> key in s.q.running)
  }

  lemma StepTidy(s: System, e: Event, repaired: bool, key: string)
    requires Exclusive(s) && Enabled(s, e) && Tidy(s, key)
    requires repaired || key !in Next(s, e, repaired).promoted
    ensures Tidy(Next(s, e, repaired), key)
  {
    match e
    case StoreCall(job) =>
      QuietMoves(s, e, repaired, key);
      StoreQueues(s, job, key);
      TidyStored(s, Next(s, e, repaired), job, key);
    case MarkCompleted(w) =>
      QuietMoves(s, e, repaired, key);
      CompleteQueues(s, w, repaired, key);
      MovesUp(Of(s.committed, key) + InFlight(s.workers, key), Get(s.q.waiting, key));
    case ClaimPending(w, order) =>
      ClaimedBatch(s, order, key);
      ClaimMoves(s, w, order, repaired, key);
      TidyClaimed(s, Next(s, e, repaired), key);
    case CommitNext(w) =>
      CommitMoves(s, w, repaired, key);
      TidyCommitted(s, Next(s, e, repaired), key);
    case _ =>
      QuietMoves(s, e, repaired, key);
  }

  lemma StoreQueues(s: System, job: WriteJob, key: string)
    ensures var q := Accept(s.q, job);
            && q.running == s.q.running
            && Get(q.pending, key)
              == Get(s.q.pending, key) + (if Key(job) == key && key !in s.q.running then [job] else [])
            && Get(q.waiting, key)
              == Get(s.q.waiting, key) + (if Key(job) == key && key in s.q.running then [job] else [])
    ensures Of(s.stored + [job], key) == Of(s.stored, key) + if Key(job) == key then [job] else []
  {
    AppendGet(s.q.waiting, Key(job), [job], key);
    AppendGet(s.q.pending, Key(job), [job], key);
  }

  /** What completing a batch does to the lists and the mark of one key. */
  lemma CompleteQueues(s: System, w: nat, repaired: bool, key: string)
    requires Exclusive(s) && Enabled(s, MarkCompleted(w))
    requires repaired || key !in Next(s, MarkCompleted(w), repaired).promoted
    ensures var q := Finish(s.q, s.workers[w].jobs, repaired);
            if key in Keys(s.workers[w].jobs) then
              && key in s.q.running && Get(s.q.pending, key) == []
              && Get(q.pending, key) == Get(s.q.waiting, key) && Get(q.waiting, key) == []
            else
              && Get(q.pending, key) == Get(s.q.pending, key) && Get(q.waiting, key) == Get(s.q.waiting, key)
              && (key in q.running <==> key in s.q.running)
  {
    var jobs := s.workers[w].jobs;
    assert KeyExclusive(s, key);
    if key in Keys(jobs) {
      assert IsOwner(s, w, key);
      if repaired {
        FinishPromotesOnce(s.q, jobs, key);
      } else {
        FinishPromotesRepeatedly(s.q, jobs, key);
        RepeatLength([], |Of(jobs, key)|);
      }
    } else {
      FinishLists(s.q, jobs, repaired, key);
      FinishReleases(s.q, jobs, repaired, key);
      IdsNone(jobs, key);
      assert Marked(s.q.running, key) == Marked(Finish(s.q, jobs, repaired).running, key);
    }
  }

  lemma TidyStored(s: System, t: System, job: WriteJob, key: string)
    requires Tidy(s, key)
    requires t.committed == s.committed && InFlight(t.workers, key) == InFlight(s.workers, key)
             && t.q.running == s.q.running
    requires var own := if Key(job) == key then [job] else [];
             && Of(t.stored, key) == Of(s.stored, key) + own
             && Get(t.q.pending, key) == Get(s.q.pending, key) + (if key !in s.q.running then own else [])
             && Get(t.q.waiting, key) == Get(s.q.waiting, key) + (if key in s.q.running then own else [])
    ensures Tidy(t, key)
  {
    var made := Of(s.committed, key) + InFlight(s.workers, key);
    var own := if Key(job) == key then [job] else [];
    if key in s.q.running {
      Assoc(made + Get(s.q.pending, key), Get(s.q.waiting, key), own);
      assert Get(t.q.pending, key) == Get(s.q.pending, key);
    } else {
      assert Get(s.q.waiting, key) == [] == Get(t.q.waiting, key);
      Assoc(made, Get(s.q.pending, key), own);
      Trim(made + Get(s.q.pending, key));
      Trim(made + Get(t.q.pending, key));
    }
  }

  lemma Trim(jobs: seq<WriteJob>)
    ensures jobs + [] == jobs
  {
  }

  lemma TidyClaimed(s: System, t: System, key: string)
    requires Tidy(s, key)
    requires t.stored == s.stored && t.committed == s.committed
    requires InFlight(t.workers, key) == InFlight(s.workers, key) + Get(s.q.pending, key)
    requires Get(t.q.pending, key) == [] && t.q.waiting == s.q.waiting
    requires key in s.q.running ==> key in t.q.running
    ensures Tidy(t, key)
  {
    Assoc(Of(s.committed, key), InFlight(s.workers, key), Get(s.q.pending, key));
  }

  lemma TidyCommitted(s: System, t: System, key: string)
    requires Tidy(s, key)
    requires t.stored == s.stored && t.q == s.q
    requires Of(t.committed, key) + InFlight(t.workers, key) == Of(s.committed, key) + InFlight(s.workers, key)
    ensures Tidy(t, key)
  {
  }

  /** What is parked moves up when nothing is pending before it. */
  lemma MovesUp(made: seq<WriteJob>, parked: seq<WriteJob>)
    ensures made + [] + parked == made + parked + []
  {
  }

  /** The repaired protocol writes every key's jobs once each and in the order stored, in
      every reachable state; the shipped one does so for a key no completion has promoted. */
  lemma {:induction false} ReachableTidy(poolSize: nat, events: seq<Event>, repaired: bool, key: string)
    requires Exec(poolSize, events, repaired).Some?
    requires repaired || key !in Exec(poolSize, events, repaired).value.promoted
    ensures Tidy(Exec(poolSize, events, repaired).value, key)
  {
    if events == [] {
      InFlightUnowned(Init(poolSize), key);
    } else {
      var s := LastStep(poolSize, events, repaired);
      ReachableTidy(poolSize, events[..|events| - 1], repaired, key);
      ReachableExclusive(poolSize, events[..|events| - 1], repaired);
      StepTidy(s, events[|events| - 1], repaired, key);
    }
  }

  // ----- What the shipped promotion costs -----

  lemma StepLoad(s: System, e: Event, key: string)
    requires Exclusive(s) && Enabled(s, e)
    ensures var t := Next(s, e, false);
            && Load(t, key) - |Of(t.stored, key)| >= Load(s, key) - |Of(s.stored, key)|
            && (key in t.promoted && key !in s.promoted ==>
                  Load(t, key) - |Of(t.stored, key)| > Load(s, key) - |Of(s.stored, key)|)
            && s.promoted <= t.promoted
  {
    StepMoves(s, e, false, key);
    match e
    case StoreCall(job) =>
      OfConcat(s.stored, [job], key);
      if Key(job) == key {
        OneOf(job);
      } else {
        OfOther(job, key);
      }
      AppendGet(s.q.waiting, Key(job), [job], key);
      AppendGet(s.q.pending, Key(job), [job], key);
    case ClaimPending(w, order) => ClaimedBatch(s, order, key);
    case MarkCompleted(w) =>
      var jobs := s.workers[w].jobs;
      FinishPromotesRepeatedly(s.q, jobs, key);
      RepeatLength(Get(s.q.waiting, key), |Of(jobs, key)|);
      OfNone(jobs, key);
      if key in Keys(jobs) && Get(s.q.waiting, key) != [] {
        Grows(|Of(jobs, key)|, |Get(s.q.waiting, key)|);
      }
    case _ =>
  }

  lemma Grows(times: nat, length: nat)
    requires times > 0 && length > 0
    ensures times * length > 0
  {
  }

  lemma {:induction false} ReachableLoad(poolSize: nat, events: seq<Event>, key: string)
    requires Exec(poolSize, events, false).Some?
    ensures var s := Exec(poolSize, events, false).value;
            && Load(s, key) >= |Of(s.stored, key)|
            && (key in s.promoted ==> Load(s, key) > |Of(s.stored, key)|)
  {
    if events == [] {
      InFlightUnowned(Init(poolSize), key);
    } else {
      var s := LastStep(poolSize, events, false);
      ReachableLoad(poolSize, events[..|events| - 1], key);
      ReachableExclusive(poolSize, events[..|events| - 1], false);
      StepLoad(s, events[|events| - 1], key);
    }
  }

  /** Exactly when the shipped protocol keeps a key's writes in order and unduplicated: in a
      reachable state the equation holds if and only if no completed batch of the key ever
      found its parked list non-empty. Once broken it never holds again. */
  lemma ShippedConservesExactly(poolSize: nat, events: seq<Event>, key: string)
    requires Exec(poolSize, events, false).Some?
    ensures var s := Exec(poolSize, events, false).value;
            Conserved(s, key) <==> key !in s.promoted
  {
    var s := Exec(poolSize, events, false).value;
    ReachableLoad(poolSize, events, key);
    if key !in s.promoted {
      ReachableTidy(poolSize, events, false, key);
    }
  }

  // ----- At least once -----

  lemma StepAccounted(s: System, e: Event, repaired: bool, job: WriteJob)
    requires Exclusive(s) && Enabled(s, e)
    requires Accounted(s, job) || e == StoreCall(job)
    ensures Accounted(Next(s, e, repaired), job)
  {
    var key := Key(job);
    var t := Next(s, e, repaired);
    StepMoves(s, e, repaired, key);
    InConcat(s, e, t, job);
    if !(job in Of(t.committed, key) || job in InFlight(t.workers, key)) {
      match e
      case StoreCall(other) => StoreQueues(s, other, key);
      case ClaimPending(w, order) => ClaimedBatch(s, order, key);
      case MarkCompleted(w) => CompleteAccounted(s, w, repaired, job);
      case _ =>
    }
  }

  lemma InConcat(s: System, e: Event, t: System, job: WriteJob)
    requires Of(t.committed, Key(job)) + InFlight(t.workers, Key(job))
          == Of(s.committed, Key(job)) + InFlight(s.workers, Key(job))
             + if e.ClaimPending? then Get(s.q.pending, Key(job)) else []
    ensures (job in Of(t.committed, Key(job)) || job in InFlight(t.workers, Key(job))) <==>
              || job in Of(s.committed, Key(job))
              || job in InFlight(s.workers, Key(job))
              || (e.ClaimPending? && job in Get(s.q.pending, Key(job)))
  {
    var left := Of(t.committed, Key(job)) + InFlight(t.workers, Key(job));
    assert job in left <==> job in Of(t.committed, Key(job)) || job in InFlight(t.workers, Key(job));
  }

  lemma CompleteAccounted(s: System, w: nat, repaired: bool, job: WriteJob)
    requires Exclusive(s) && Enabled(s, MarkCompleted(w))
    requires job in Get(s.q.pending, Key(job)) || (job in Get(s.q.waiting, Key(job)) && Key(job) in s.q.running)
    ensures var t := Next(s, MarkCompleted(w), repaired);
            || job in Get(t.q.pending, Key(job))
            || (job in Get(t.q.waiting, Key(job)) && Key(job) in t.q.running)
  {
    var key, jobs := Key(job), s.workers[w].jobs;
    assert KeyExclusive(s, key);
    if key in Keys(jobs) {
      assert IsOwner(s, w, key);
      if repaired {
        FinishPromotesOnce(s.q, jobs, key);
      } else {
        FinishPromotesRepeatedly(s.q, jobs, key);
        OfNone(jobs, key);
        RepeatLength(Get(s.q.waiting, key), |Of(jobs, key)|);
      }
    } else {
      FinishLists(s.q, jobs, repaired, key);
      FinishReleases(s.q, jobs, repaired, key);
      IdsNone(jobs, key);
      assert Marked(s.q.running, key) == Marked(Finish(s.q, jobs, repaired).running, key);
    }
  }

  /** At least once, as written: every job ever stored is committed, in flight, pending, or
      parked behind a key that is running now, so none is stranded among the parked. */
  lemma {:induction false} ReachableAccounted(poolSize: nat, events: seq<Event>, repaired: bool, job: WriteJob)
    requires Exec(poolSize, events, repaired).Some?
    requires job in Exec(poolSize, events, repaired).value.stored
    ensures Accounted(Exec(poolSize, events, repaired).value, job)
  {
    if events != [] {
      var s := LastStep(poolSize, events, repaired);
      var e := events[|events| - 1];
      ReachableExclusive(poolSize, events[..|events| - 1], repaired);
      if job in s.stored {
        ReachableAccounted(poolSize, events[..|events| - 1], repaired, job);
      }
      StepAccounted(s, e, repaired, job);
    }
  }
}
