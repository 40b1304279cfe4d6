/** What becomes of a key once a parked list of it was promoted, with no further Store call: the
    shipped protocol commits that list over and over (controller/data_store.go:198-240). */
module WriteEcho {
  import opened Prelude
  import opened WriteJobs
  import opened WriteQueue
  import opened WritePool
  import opened WriteOrder
  import opened WriteProgress
  import opened GitTree

  /** Since the writes in base, the key was claimed as its parked list that many times over, and
      nothing else of it is pending. */
  ghost predicate Echo(s: System, key: string, base: seq<WriteJob>, parked: seq<WriteJob>, times: nat) {
    && Get(s.q.waiting, key) == parked
    && Of(s.committed, key) + InFlight(s.workers, key) == base + Repeat(parked, times)
    && Repeats(Get(s.q.pending, key), parked)
  }

  ghost predicate Repeats(jobs: seq<WriteJob>, parked: seq<WriteJob>) {
    exists n: nat :: jobs == Repeat(parked, n)
  }

  lemma {:induction false} RepeatAdd(jobs: seq<WriteJob>, a: nat, b: nat)
    ensures Repeat(jobs, a + b) == Repeat(jobs, a) + Repeat(jobs, b)
    decreases b
  {
    if b == 0 {
      assert Repeat(jobs, a) + [] == Repeat(jobs, a);
    } else {
      RepeatAdd(jobs, a, b - 1);
      Assoc(Repeat(jobs, a), Repeat(jobs, b - 1), jobs);
    }
  }

  lemma StepEcho(s: System, e: Event, key: string, base: seq<WriteJob>, parked: seq<WriteJob>, times: nat)
      returns (more: nat)
    requires Exclusive(s) && Enabled(s, e) && IsWorkerEvent(e) && Echo(s, key, base, parked, times)
    ensures Echo(Next(s, e, false), key, base, parked, more) && more >= times
  {
    more := times;
    StepMoves(s, e, false, key);
    StepParked(s, e);
    var made := Of(s.committed, key) + InFlight(s.workers, key);
    assert made + [] == made;
    match e
    case ClaimPending(w, order) => more := ClaimedEcho(s, w, order, key, base, parked, times);
    case MarkCompleted(w) => CompletedEcho(s.q, s.workers[w].jobs, key, parked);
    case _ =>
  }

  lemma ClaimedEcho(s: System, w: nat, order: seq<string>, key: string, base: seq<WriteJob>, parked: seq<WriteJob>,
                    times: nat)
      returns (more: nat)
    requires Exclusive(s) && Enabled(s, ClaimPending(w, order)) && Echo(s, key, base, parked, times)
    ensures Echo(Next(s, ClaimPending(w, order), false), key, base, parked, more) && more >= times
  {
    var made, pending := Of(s.committed, key) + InFlight(s.workers, key), Get(s.q.pending, key);
    more := MadeGrows(made, base, parked, times, pending);
    StepMoves(s, ClaimPending(w, order), false, key);
    NothingPends(Next(s, ClaimPending(w, order), false), key, parked);
    EchoFrom(Next(s, ClaimPending(w, order), false), key, base, parked, more, made + pending);
  }

  lemma EchoFrom(s: System, key: string, base: seq<WriteJob>, parked: seq<WriteJob>, times: nat, made: seq<WriteJob>)
    requires Get(s.q.waiting, key) == parked && Repeats(Get(s.q.pending, key), parked)
    requires Of(s.committed, key) + InFlight(s.workers, key) == made && made == base + Repeat(parked, times)
    ensures Echo(s, key, base, parked, times)
  {
  }

  lemma MadeGrows(made: seq<WriteJob>, base: seq<WriteJob>, parked: seq<WriteJob>, times: nat, pending: seq<WriteJob>)
      returns (more: nat)
    requires made == base + Repeat(parked, times) && Repeats(pending, parked)
    ensures made + pending == base + Repeat(parked, more) && more >= times
  {
    var n: nat :| pending == Repeat(parked, n);
    more := times + n;
    RepeatAdd(parked, times, n);
    Assoc(base, Repeat(parked, times), Repeat(parked, n));
  }

  lemma NothingPends(s: System, key: string, parked: seq<WriteJob>)
    requires s.q.pending == map[]
    ensures Repeats(Get(s.q.pending, key), parked)
  {
    assert Get(s.q.pending, key) == Repeat(parked, 0);
  }

  lemma CompletedEcho(q: Queues, jobs: seq<WriteJob>, key: string, parked: seq<WriteJob>)
    requires Get(q.waiting, key) == parked && Repeats(Get(q.pending, key), parked)
    ensures Repeats(Get(Finish(q, jobs, false).pending, key), parked)
  {
    FinishPromotesRepeatedly(q, jobs, key);
    var n: nat :| Get(q.pending, key) == Repeat(parked, n);
    MoreTimes(parked, n, |Of(jobs, key)|);
  }

  lemma MoreTimes(parked: seq<WriteJob>, n: nat, m: nat)
    ensures Repeats(Repeat(parked, n) + Repeat(parked, m), parked)
  {
    RepeatAdd(parked, n, m);
  }

  /** A completion that promotes a parked list begins the echo. */
  lemma EchoBegins(s: System, w: nat, key: string)
    requires Exclusive(s) && Enabled(s, MarkCompleted(w)) && key in Keys(s.workers[w].jobs)
    ensures var t := Next(s, MarkCompleted(w), false);
            Echo(t, key, Of(t.committed, key), Get(s.q.waiting, key), 0)
  {
    var t, jobs := Next(s, MarkCompleted(w), false), s.workers[w].jobs;
    assert KeyExclusive(s, key) && IsOwner(s, w, key);
    FinishPromotesRepeatedly(s.q, jobs, key);
    QuietMoves(s, MarkCompleted(w), false, key);
    InFlightOwner(s, w, key);
    assert Get(s.q.pending, key) == [];
    assert Get(t.q.pending, key) == Repeat(Get(s.q.waiting, key), |Of(jobs, key)|);
  }

  /** From then on, in every run of the workers, the key is claimed as its parked list only. */
  lemma {:induction false} EchoGoesOn(poolSize: nat, events: seq<Event>, w: nat, more: seq<Event>, key: string)
      returns (times: nat)
    requires Exec(poolSize, events, false).Some? && Enabled(Exec(poolSize, events, false).value, MarkCompleted(w))
    requires key in Keys(Exec(poolSize, events, false).value.workers[w].jobs)
    requires forall e :: e in more ==> IsWorkerEvent(e)
    requires ExecFrom(Next(Exec(poolSize, events, false).value, MarkCompleted(w), false), more, false).Some?
    ensures var s := Exec(poolSize, events, false).value;
            var t := Next(s, MarkCompleted(w), false);
            var u := ExecFrom(t, more, false).value;
            Echo(u, key, Of(t.committed, key), Get(s.q.waiting, key), times) && u.stored == t.stored
  {
    var s := Exec(poolSize, events, false).value;
    var t := Next(s, MarkCompleted(w), false);
    if more == [] {
      ReachableExclusive(poolSize, events, false);
      EchoBegins(s, w, key);
      times := 0;
    } else {
      var init, e := more[..|more| - 1], more[|more| - 1];
      var before := LastStepFrom(t, more, false);
      times := EchoGoesOn(poolSize, events, w, init, key);
      ReachableAfter(poolSize, events, MarkCompleted(w), init);
      ReachableExclusive(poolSize, events + [MarkCompleted(w)] + init, false);
      times := StepEcho(before, e, key, Of(t.committed, key), Get(s.q.waiting, key), times);
    }
  }

  lemma ReachableAfter(poolSize: nat, events: seq<Event>, e: Event, more: seq<Event>)
    requires Exec(poolSize, events, false).Some? && Enabled(Exec(poolSize, events, false).value, e)
    requires ExecFrom(Next(Exec(poolSize, events, false).value, e, false), more, false).Some?
    ensures Exec(poolSize, events + [e] + more, false)
         == ExecFrom(Next(Exec(poolSize, events, false).value, e, false), more, false)
  {
    ExecSnoc(Init(poolSize), events, e, false);
    ExecConcat(Init(poolSize), events + [e], more, false);
  }

  // ----- What the file comes to hold -----

  lemma {:induction false} LatestConcat(a: seq<WriteJob>, b: seq<WriteJob>)
    ensures Latest(a + b) == if Latest(b).Some? then Latest(b) else Latest(a)
  {
    if b == [] {
      assert a + b == a;
    } else {
      assert (a + b)[..|a + b| - 1] == a + b[..|b| - 1];
      LatestConcat(a, b[..|b| - 1]);
    }
  }

  lemma {:induction false} LatestRepeat(jobs: seq<WriteJob>, times: nat)
    requires times >= 1
    ensures Latest(Repeat(jobs, times)) == Latest(jobs)
  {
    LatestConcat(Repeat(jobs, times - 1), jobs);
    if times > 1 {
      LatestRepeat(jobs, times - 1);
    }
  }

  /** Once a promoted batch of the key was committed and none is in flight, its files hold the
      latest of the parked list, then and ever after as long as nothing is stored; so the newest
      write is lost for good exactly when it is not what that list ends with. */
  lemma FilesEcho(poolSize: nat, events: seq<Event>, w: nat, more: seq<Event>, structures: seq<string>, s: string,
                  at: WriteJob)
    requires Exec(poolSize, events, false).Some? && Enabled(Exec(poolSize, events, false).value, MarkCompleted(w))
    requires Key(at) in Keys(Exec(poolSize, events, false).value.workers[w].jobs)
    requires forall e :: e in more ==> IsWorkerEvent(e)
    requires ExecFrom(Next(Exec(poolSize, events, false).value, MarkCompleted(w), false), more, false).Some?
    requires (forall t :: t in structures ==> Known(t)) && s in structures && ValidJob(at)
    requires ValidRun(Exec(poolSize, events, false).value)
    ensures var start, key := Exec(poolSize, events, false).value, Key(at);
            var t := Next(start, MarkCompleted(w), false);
            var u := ExecFrom(t, more, false).value;
            var parked, held := Latest(Get(start.q.waiting, key)), Lookup(Repository(u, structures), FileOf(s, at));
            && u.stored == start.stored
            && (parked.Some? && InFlight(u.workers, key) == [] && Of(u.committed, key) != Of(t.committed, key) ==>
                  held == parked && (held == Latest(Of(u.stored, key)) <==> parked == Latest(Of(start.stored, key))))
  {
    var start, key := Exec(poolSize, events, false).value, Key(at);
    var t := Next(start, MarkCompleted(w), false);
    var u := ExecFrom(t, more, false).value;
    var parked := Get(start.q.waiting, key);
    var times := EchoGoesOn(poolSize, events, w, more, key);
    assert Of(u.committed, key) + [] == Of(u.committed, key) && Of(t.committed, key) + [] == Of(t.committed, key);
    if times > 0 {
      LatestRepeat(parked, times);
    }
    LatestConcat(Of(t.committed, key), Repeat(parked, times));
    var all := events + [MarkCompleted(w)] + more;
    ReachableAfter(poolSize, events, MarkCompleted(w), more);
    forall job | job in u.committed ensures ValidJob(job) {
      CommittedWereStored(poolSize, all, false, job);
    }
    FileHoldsLatest(map[], structures, u.committed, s, at);
  }
}
