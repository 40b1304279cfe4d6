/** Many pollers sharing the scheduler (controller/scheduler.go:34-53, 78-102;
    controller/api.go:61-69). A poll scans the device-jobs of its tags; each nextRun call,
    guarded by the device-job's lock, is one step, so the calls of different polls interleave
    in any way. Every call reads the clock anew. */
module Dispatch {
  import opened Prelude
  import opened Schedules

  datatype Execution = Execution(ref: JobRef, time: int)

  /** What is fixed once the scheduler is built. `created` holds the initial watermarks. */
  datatype Setup = Setup(
    schedules: map<JobRef, Schedule>,
    table: map<string, seq<JobRef>>,
    created: map<JobRef, int>)

  /** One /worker/next request: `pos` is the place in the current scan, `clock` its last
      clock reading. */
  datatype Poll = Poll(scan: seq<JobRef>, before: int, max: nat, pos: nat, got: seq<Execution>, clock: int)

  datatype Call = Call(poll: nat, ref: JobRef, now: int, before: int, lastRun: int, result: Option<int>)

  datatype State = State(lastRun: map<JobRef, int>, polls: seq<Poll>, calls: seq<Call>, clock: int)

  datatype Event =
    | Begin(tags: seq<string>, seconds: int, max: nat, now: int)
    | Advance(poll: nat, now: int)

  /** The device-jobs a request visits, in order: no tags means only the untagged ones. */
  function Scan(table: map<string, seq<JobRef>>, tags: seq<string>): seq<JobRef> {
    ScanTags(table, if tags == [] then [""] else tags)
  }

  function ScanTags(table: map<string, seq<JobRef>>, tags: seq<string>): seq<JobRef> {
    if tags == [] then []
    else ScanTags(table, tags[..|tags| - 1]) + if tags[|tags| - 1] in table then table[tags[|tags| - 1]] else []
  }

  /** The poll still has a call to make. */
  predicate Active(p: Poll) {
    p.pos < |p.scan| && |p.got| < p.max
  }

  /** The poll's last scan found nothing, so its batch is shorter than the maximum. */
  predicate Exhausted(p: Poll) {
    p.pos == |p.scan| && |p.got| < p.max
  }

  /** One nextRun call: a firing is added to the batch and the scan starts over, otherwise
      the scan moves on. */
  function PollStep(p: Poll, now: int, result: Option<int>): Poll
    requires Active(p)
  {
    match result
    case Some(t) => p.(got := p.got + [Execution(p.scan[p.pos], t)], pos := 0, clock := now)
    case None => p.(pos := p.pos + 1, clock := now)
  }

  ghost predicate WellFormed(setup: Setup) {
    && setup.created.Keys == setup.schedules.Keys
    && (forall ref :: ref in setup.schedules ==> Lawful(setup.schedules[ref]))
    && (forall tag, i :: tag in setup.table && 0 <= i < |setup.table[tag]| ==> setup.table[tag][i] in setup.schedules)
  }

  /** Every poll visits known device-jobs and watermarks exist for all of them. */
  ghost predicate Sound(setup: Setup, s: State) {
    && s.lastRun.Keys == setup.schedules.Keys
    && (forall p :: 0 <= p < |s.polls| ==> forall i :: 0 <= i < |s.polls[p].scan| ==>
      s.polls[p].scan[i] in setup.schedules)
  }

  ghost predicate Enabled(s: State, e: Event) {
    e.Advance? ==> e.poll < |s.polls| && Active(s.polls[e.poll])
  }

  function CallOf(setup: Setup, s: State, p: nat, now: int): Call
    requires p < |s.polls| && Active(s.polls[p])
    requires s.polls[p].scan[s.polls[p].pos] in s.lastRun && s.lastRun.Keys == setup.schedules.Keys
  {
    var poll := s.polls[p];
    var ref := poll.scan[poll.pos];
    Call(p, ref, now, poll.before, s.lastRun[ref], NextRun(setup.schedules[ref], s.lastRun[ref], now, poll.before))
  }

  ghost function Next(setup: Setup, s: State, e: Event): State
    requires Sound(setup, s) && Enabled(s, e)
  {
    match e
    case Begin(tags, seconds, max, now) =>
      s.(polls := s.polls + [Poll(Scan(setup.table, tags), now + seconds * SECOND, max, 0, [], now)], clock := now)
    case Advance(p, now) =>
      var call := CallOf(setup, s, p, now);
      State(
        if call.result.Some? then s.lastRun[call.ref := call.result.value] else s.lastRun,
        s.polls[p := PollStep(s.polls[p], now, call.result)],
        s.calls + [call],
        now)
  }

  ghost function Exec(setup: Setup, events: seq<Event>): (r: Option<State>)
    requires WellFormed(setup)
    ensures r.Some? ==> Sound(setup, r.value)
  {
    if events == [] then Some(State(setup.created, [], [], 0))
    else
      match Exec(setup, events[..|events| - 1])
      case None => None
      case Some(s) =>
        var e := events[|events| - 1];
        if Enabled(s, e) then NextSound(setup, s, e); Some(Next(setup, s, e)) else None
  }

  lemma NextSound(setup: Setup, s: State, e: Event)
    requires WellFormed(setup) && Sound(setup, s) && Enabled(s, e)
    ensures Sound(setup, Next(setup, s, e))
  {
    if e.Begin? {
      forall i | 0 <= i < |Scan(setup.table, e.tags)| ensures Scan(setup.table, e.tags)[i] in setup.schedules {
        ScanKnown(setup, if e.tags == [] then [""] else e.tags, i);
      }
    }
  }

  lemma {:induction false} ScanKnown(setup: Setup, tags: seq<string>, i: nat)
    requires WellFormed(setup) && i < |ScanTags(setup.table, tags)|
    ensures ScanTags(setup.table, tags)[i] in setup.schedules
  {
    var before := ScanTags(setup.table, tags[..|tags| - 1]);
    if i < |before| {
      ScanKnown(setup, tags[..|tags| - 1], i);
    } else {
      assert ScanTags(setup.table, tags)[i] == setup.table[tags[|tags| - 1]][i - |before|];
    }
  }

  lemma LastStep(setup: Setup, events: seq<Event>) returns (s: State)
    requires WellFormed(setup) && events != [] && Exec(setup, events).Some?
    ensures Exec(setup, events[..|events| - 1]) == Some(s)
    ensures Enabled(s, events[|events| - 1])
    ensures Exec(setup, events) == Some(Next(setup, s, events[|events| - 1]))
  {
    s := Exec(setup, events[..|events| - 1]).value;
  }

  // ----- Exclusive dispatch -----

  ghost predicate IsDispatch(calls: seq<Call>, i: int, ref: JobRef, t: int) {
    0 <= i < |calls| && calls[i].ref == ref && calls[i].result == Some(t)
  }

  /** The firings handed out for a device-job strictly increase, up to its watermark. */
  ghost predicate Increasing(setup: Setup, s: State, ref: JobRef)
    requires ref in s.lastRun && ref in setup.schedules && ref in setup.created
  {
    && setup.created[ref] <= s.lastRun[ref]
    && (forall i, t :: IsDispatch(s.calls, i, ref, t) ==>
          setup.created[ref] < t <= s.lastRun[ref] && Fires(setup.schedules[ref], t) && t < s.calls[i].before)
    && (forall i, j, t, u :: IsDispatch(s.calls, i, ref, t) && IsDispatch(s.calls, j, ref, u) && i < j ==> t < u)
  }

  lemma StepIncreasing(setup: Setup, s: State, e: Event, ref: JobRef)
    requires WellFormed(setup) && Sound(setup, s) && Enabled(s, e)
    requires ref in setup.schedules && Increasing(setup, s, ref)
    ensures Increasing(setup, Next(setup, s, e), ref)
  {
    if e.Advance? {
      var call := CallOf(setup, s, e.poll, e.now);
      TakenIsFirst(setup.schedules[call.ref], call.lastRun, e.now, call.before);
      var t := Next(setup, s, e);
      assert forall i, u :: 0 <= i < |s.calls| ==> (IsDispatch(t.calls, i, ref, u) <==> IsDispatch(s.calls, i, ref, u));
    }
  }

  /** No firing of a device-job is ever handed out twice, and its firings go out in order,
      across all polls, all tags and duplicated tags, even if the clock goes backwards. */
  lemma {:induction false} DispatchIncreases(setup: Setup, events: seq<Event>, ref: JobRef)
    requires WellFormed(setup) && ref in setup.schedules && Exec(setup, events).Some?
    ensures Increasing(setup, Exec(setup, events).value, ref)
  {
    if events != [] {
      var s := LastStep(setup, events);
      DispatchIncreases(setup, events[..|events| - 1], ref);
      StepIncreasing(setup, s, events[|events| - 1], ref);
    }
  }

  /** The timestamps sent to workers are whole seconds, and they increase strictly too. */
  lemma TimestampsIncrease(setup: Setup, events: seq<Event>, ref: JobRef, i: int, j: int, t: int, u: int)
    requires WellFormed(setup) && ref in setup.schedules && Exec(setup, events).Some?
    requires WholeSeconds(setup.schedules[ref]) && i < j
    requires var calls := Exec(setup, events).value.calls; IsDispatch(calls, i, ref, t) && IsDispatch(calls, j, ref, u)
    ensures t / SECOND < u / SECOND
  {
    DispatchIncreases(setup, events, ref);
    WholeSecondsApart(t, u);
  }

  lemma WholeSecondsApart(t: int, u: int)
    requires t < u && t % SECOND == 0 && u % SECOND == 0
    ensures t / SECOND < u / SECOND
  {
  }

  // ----- Batches and calls -----

  /** What the calls of poll p have taken, in order. */
  function Taken(calls: seq<Call>, p: nat): seq<Execution> {
    if calls == [] then []
    else
      var last := calls[|calls| - 1];
      Taken(calls[..|calls| - 1], p)
      + if last.poll == p && last.result.Some? then [Execution(last.ref, last.result.value)] else []
  }

  ghost predicate BatchIsTaken(s: State, p: nat) {
    if p < |s.polls| then s.polls[p].got == Taken(s.calls, p) else Taken(s.calls, p) == []
  }

  /** Every firing handed out is in the batch of the poll whose call took it, and a batch
      holds nothing else. */
  lemma {:induction false} BatchesAreCalls(setup: Setup, events: seq<Event>, p: nat)
    requires WellFormed(setup) && Exec(setup, events).Some?
    ensures BatchIsTaken(Exec(setup, events).value, p)
  {
    if events != [] {
      var s := LastStep(setup, events);
      BatchesAreCalls(setup, events[..|events| - 1], p);
      var e := events[|events| - 1];
      if e.Advance? {
        var after := Next(setup, s, e);
        assert after.calls[..|after.calls| - 1] == s.calls;
      }
    }
  }
}
