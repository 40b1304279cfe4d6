/** Runs that show where the shipped write protocol falls short of docs/data.md:54-66: a
    stale write that overtakes a newer one, and a wedged pool for every pool size. */
module WriteWitnesses {
  import opened Prelude
  import opened WriteJobs
  import opened WriteQueue
  import opened WritePool
  import opened WriteProgress

  lemma Extend(poolSize: nat, events: seq<Event>, s: System, e: Event, t: System, repaired: bool)
    requires Exec(poolSize, events, repaired) == Some(s) && Enabled(s, e) && Next(s, e, repaired) == t
    ensures Exec(poolSize, events + [e], repaired) == Some(t)
  {
    ExecSnoc(Init(poolSize), events, e, repaired);
  }

  lemma ClaimOneKey(q: Queues, key: string, jobs: seq<WriteJob>)
    requires q.pending == map[key := jobs]
    ensures IsOrder([key], q.pending.Keys)
    ensures Flatten(q.pending, [key]) == jobs
    ensures Claim(q, [key]) == Queues(map[], q.running[key := Marked(q.running, key) + IdsIn(jobs)], q.waiting)
  {
    var order := [key];
    assert order[..|order| - 1] == [];
    assert Get(q.pending, key) == jobs;
    assert Flatten(q.pending, order) == [] + jobs;
    assert MarkRunning(q.running, q.pending, []) == q.running;
    assert MarkRunning(q.running, q.pending, order)
        == q.running[key := Marked(q.running, key) + IdsIn(Get(q.pending, order[|order| - 1]))];
  }

  // ----- A wedged pool of any size -----

  /** Worker 0 has committed its batch of one job and the same job is parked again. */
  ghost function Parked(poolSize: nat, job: WriteJob): System
    requires poolSize > 0
  {
    System(
      Queues(map[], map[Key(job) := {Id(job)}], map[Key(job) := [job]]),
      Init(poolSize).workers[0 := Busy([job], 1)], 1, [job, job], [job], {})
  }

  lemma ReachToken(poolSize: nat, job: WriteJob, repaired: bool) returns (events: seq<Event>)
    requires poolSize > 0
    ensures Exec(poolSize, events, repaired)
         == Some(System(EMPTY.(pending := map[Key(job) := [job]]), Init(poolSize).workers[0 := Awake], 0, [job], [],
           {}))
  {
    var start := Init(poolSize);
    events := [];
    var s := start.(q := EMPTY.(pending := map[Key(job) := [job]]), senders := 1, stored := [job]);
    assert Next(start, StoreCall(job), repaired) == s;
    Extend(poolSize, events, start, StoreCall(job), s, repaired);
    events := events + [StoreCall(job)];
    var t := s.(workers := start.workers[0 := Awake], senders := 0);
    Extend(poolSize, events, s, TakeFromStore(0), t, repaired);
    events := events + [TakeFromStore(0)];
  }

  lemma ReachClaimed(poolSize: nat, job: WriteJob, repaired: bool) returns (events: seq<Event>)
    requires poolSize > 0
    ensures Exec(poolSize, events, repaired)
         == Some(System(Queues(map[], map[Key(job) := {Id(job)}], map[]),
                        Init(poolSize).workers[0 := Busy([job], 0)], 0, [job], [], {}))
  {
    events := ReachToken(poolSize, job, repaired);
    var s := Exec(poolSize, events, repaired).value;
    ClaimOneKey(s.q, Key(job), [job]);
    assert Marked(map[], Key(job)) + IdsIn([job]) == {Id(job)};
    assert s.workers[0 := Busy([job], 0)] == Init(poolSize).workers[0 := Busy([job], 0)];
    Extend(poolSize, events, s, ClaimPending(0, [Key(job)]), Next(s, ClaimPending(0, [Key(job)]), repaired), repaired);
    events := events + [ClaimPending(0, [Key(job)])];
  }

  lemma ReachParked(poolSize: nat, job: WriteJob, repaired: bool) returns (events: seq<Event>)
    requires poolSize > 0
    ensures Exec(poolSize, events, repaired) == Some(Parked(poolSize, job))
  {
    events := ReachClaimed(poolSize, job, repaired);
    var s := Exec(poolSize, events, repaired).value;
    var t := s.(workers := Init(poolSize).workers[0 := Busy([job], 1)], committed := [job]);
    assert Next(s, CommitNext(0), repaired) == t;
    Extend(poolSize, events, s, CommitNext(0), t, repaired);
    events := events + [CommitNext(0)];
    assert Next(t, StoreCall(job), repaired) == Parked(poolSize, job);
    Extend(poolSize, events, t, StoreCall(job), Parked(poolSize, job), repaired);
    events := events + [StoreCall(job)];
  }

  /** Worker 0 is about to complete a key with a parked list, a Store call waits, and the
      first `awake` workers after worker 0 have taken tokens. */
  ghost predicate Closing(s: System, job: WriteJob, awake: nat) {
    && 0 <= awake < |s.workers|
    && s.workers[0] == Busy([job], 1)
    && (forall i :: 1 <= i <= awake ==> s.workers[i] == Awake)
    && (forall i :: awake < i < |s.workers| ==> s.workers[i] == Idle)
    && Key(job) in s.q.running && Get(s.q.waiting, Key(job)) != [] && s.senders > 0
  }

  lemma {:induction false} ReachAwake(poolSize: nat, job: WriteJob, awake: nat, repaired: bool)
      returns (events: seq<Event>)
    requires awake < poolSize
    ensures Exec(poolSize, events, repaired).Some? && Closing(Exec(poolSize, events, repaired).value, job, awake)
    ensures |Exec(poolSize, events, repaired).value.workers| == poolSize
  {
    if awake == 0 {
      events := ReachParked(poolSize, job, repaired);
    } else {
      events := ReachAwake(poolSize, job, awake - 1, repaired);
      var s := Exec(poolSize, events, repaired).value;
      var e := TakeFromStore(awake);
      Extend(poolSize, events, s, e, Next(s, e, repaired), repaired);
      events, s := events + [e], Next(s, e, repaired);
      e := StoreCall(job);
      Extend(poolSize, events, s, e, Next(s, e, repaired), repaired);
      events := events + [e];
    }
  }

  /** Whatever the pool size, some run wedges the pool, with the shipped promotion and with
      the repaired one alike: raising the pool size only takes more stored jobs. */
  lemma EveryPoolWedges(poolSize: nat, job: WriteJob, repaired: bool) returns (events: seq<Event>)
    requires poolSize > 0
    ensures Exec(poolSize, events, repaired).Some? && Wedged(Exec(poolSize, events, repaired).value)
  {
    events := ReachAwake(poolSize, job, poolSize - 1, repaired);
    var s := Exec(poolSize, events, repaired).value;
    var e := MarkCompleted(0);
    assert job in s.workers[0].jobs;
    Extend(poolSize, events, s, e, Next(s, e, repaired), repaired);
    events := events + [e];
    assert Next(s, e, repaired).workers[0].Blocked?;
  }

  // ----- A stale write -----

  /** For any two writes of one key, the shipped protocol has a run that stores `newer` last
      but commits `older` once more after it, so the file goes back. */
  lemma StaleWrite(older: WriteJob, newer: WriteJob) returns (events: seq<Event>)
    requires Key(older) == Key(newer)
    ensures Exec(2, events, false).Some?
    ensures Exec(2, events, false).value.stored == [older, older, newer]
    ensures Exec(2, events, false).value.committed == [older, older, newer, older]
  {
    var key := Key(older);
    var s: System;
    events, s := StoreThenPark(older);
    // Worker 1 takes the promotion's token; `newer` joins the promoted job as pending.
    var t := System(Queues(map[key := [older]], map[], map[key := [older]]), [Idle, Awake], 1,
                    [older, older], [older], {key});
    assert Next(s, TakeFromWorker(1, 0), false) == t;
    Extend(2, events, s, TakeFromWorker(1, 0), t, false);
    events := events + [TakeFromWorker(1, 0)];
    s := System(Queues(map[key := [older, newer]], map[], map[key := [older]]), [Idle, Awake], 2,
      [older, older, newer], [older], {key});
    assert [older] + [newer] == [older, newer];
    assert [older, older] + [newer] == [older, older, newer];
    assert Next(t, StoreCall(newer), false) == s;
    Extend(2, events, t, StoreCall(newer), s, false);
    events := events + [StoreCall(newer)];
    events, s := CommitBoth(older, newer, events, s);
    // Both jobs of the batch promote the same stale parked list again.
    events := CommitStale(older, newer, events, s);
  }

  lemma StoreThenPark(job: WriteJob) returns (events: seq<Event>, s: System)
    ensures Exec(2, events, false) == Some(s)
    ensures s == System(Queues(map[Key(job) := [job]], map[], map[Key(job) := [job]]), [Blocked, Idle], 1, [job, job],
              [job], {Key(job)})
  {
    var key := Key(job);
    events := ReachParked(2, job, false);
    var t := Parked(2, job);
    s := System(Queues(map[key := [job]], map[], map[key := [job]]), [Blocked, Idle], 1, [job, job], [job], {key});
    FinishSingle(t.q, job);
    assert job in [job];
    assert Keys([job]) == {key};
    assert Next(t, MarkCompleted(0), false) == s;
    Extend(2, events, t, MarkCompleted(0), s, false);
    events := events + [MarkCompleted(0)];
  }

  lemma FinishSingle(q: Queues, job: WriteJob)
    ensures Finish(q, [job], false) == FinishOne(q, job, false)
  {
    assert [job][..0] == [];
  }

  lemma CommitBoth(older: WriteJob, newer: WriteJob, before: seq<Event>, s: System)
      returns (events: seq<Event>, t: System)
    requires Key(older) == Key(newer)
    requires Exec(2, before, false) == Some(s)
    requires var key := Key(older);
             s == System(Queues(map[key := [older, newer]], map[], map[key := [older]]), [Idle, Awake], 2,
               [older, older, newer], [older], {key})
    ensures Exec(2, events, false) == Some(t)
    ensures t.workers == [Idle, Busy([older, newer], 2)] && t.q.pending == map[]
            && t.q.waiting == map[Key(older) := [older]]
    ensures t.stored == [older, older, newer] && t.committed == [older, older, newer]
  {
    var key := Key(older);
    ClaimOneKey(s.q, key, [older, newer]);
    t := s.(q := Claim(s.q, [key]), workers := [Idle, Busy([older, newer], 0)]);
    assert Next(s, ClaimPending(1, [key]), false) == t;
    Extend(2, before, s, ClaimPending(1, [key]), t, false);
    events, t := CommitTwo([older, newer], before + [ClaimPending(1, [key])], t);
    assert [older] + [older] + [newer] == [older, older, newer];
  }

  lemma CommitTwo(jobs: seq<WriteJob>, before: seq<Event>, s: System) returns (events: seq<Event>, t: System)
    requires Exec(2, before, false) == Some(s) && |jobs| == 2 && s.workers == [Idle, Busy(jobs, 0)]
    ensures Exec(2, events, false) == Some(t)
    ensures t == s.(workers := [Idle, Busy(jobs, 2)], committed := s.committed + [jobs[0]] + [jobs[1]])
  {
    var u := s.(workers := [Idle, Busy(jobs, 1)], committed := s.committed + [jobs[0]]);
    assert Next(s, CommitNext(1), false) == u;
    Extend(2, before, s, CommitNext(1), u, false);
    events := before + [CommitNext(1)];
    t := u.(workers := [Idle, Busy(jobs, 2)], committed := u.committed + [jobs[1]]);
    assert Next(u, CommitNext(1), false) == t;
    Extend(2, events, u, CommitNext(1), t, false);
    events := events + [CommitNext(1)];
  }

  lemma CommitStale(older: WriteJob, newer: WriteJob, before: seq<Event>, s: System) returns (events: seq<Event>)
    requires Key(older) == Key(newer)
    requires Exec(2, before, false) == Some(s)
    requires s.workers == [Idle, Busy([older, newer], 2)] && s.q.pending == map[]
             && s.q.waiting == map[Key(older) := [older]]
    requires s.stored == [older, older, newer] && s.committed == [older, older, newer]
    ensures Exec(2, events, false).Some?
    ensures Exec(2, events, false).value.stored == [older, older, newer]
    ensures Exec(2, events, false).value.committed == [older, older, newer, older]
  {
    var key := Key(older);
    FinishPair(s.q, older, newer);
    assert older in [older, newer];
    var t := s.(q := Finish(s.q, [older, newer], false), workers := [Idle, Blocked],
                promoted := s.promoted + PromotedKeys(s.q, [older, newer]));
    assert Next(s, MarkCompleted(1), false) == t;
    Extend(2, before, s, MarkCompleted(1), t, false);
    events := before + [MarkCompleted(1)];
    var u := t.(workers := [Awake, Idle]);
    assert Next(t, TakeFromWorker(0, 1), false) == u;
    Extend(2, events, t, TakeFromWorker(0, 1), u, false);
    events := events + [TakeFromWorker(0, 1)];
    events := CommitFirst(older, events, u);
  }

  lemma CommitFirst(job: WriteJob, before: seq<Event>, s: System) returns (events: seq<Event>)
    requires Exec(2, before, false) == Some(s)
    requires s.workers == [Awake, Idle] && s.q.pending == map[Key(job) := [job, job]]
    ensures Exec(2, events, false).Some?
    ensures Exec(2, events, false).value.stored == s.stored
    ensures Exec(2, events, false).value.committed == s.committed + [job]
  {
    var key := Key(job);
    ClaimOneKey(s.q, key, [job, job]);
    var t := s.(q := Claim(s.q, [key]), workers := [Busy([job, job], 0), Idle]);
    assert Next(s, ClaimPending(0, [key]), false) == t;
    Extend(2, before, s, ClaimPending(0, [key]), t, false);
    events := before + [ClaimPending(0, [key])];
    Extend(2, events, t, CommitNext(0), Next(t, CommitNext(0), false), false);
    events := events + [CommitNext(0)];
  }

  lemma FinishPair(q: Queues, older: WriteJob, newer: WriteJob)
    requires Key(older) == Key(newer) && q.pending == map[] && q.waiting == map[Key(older) := [older]]
    ensures Finish(q, [older, newer], false).pending == map[Key(older) := [older, older]]
    ensures Finish(q, [older, newer], false).waiting == q.waiting
  {
    FinishSingle(q, older);
    var both := [older, newer];
    assert both[..|both| - 1] == [older];
    assert [older] + [older] == [older, older];
    assert Finish(q, both, false) == FinishOne(FinishOne(q, older, false), newer, false);
  }
}
