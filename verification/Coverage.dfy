/** Which firings reach a worker: a firing is passed over only when it is already past, a
    batch shorter than its maximum leaves nothing behind in its window, and a worker whose
    windows overlap misses nothing (worker/worker.go:120-131, 164-170; controller/api.go:61-69;
    controller/scheduler.go:89-102). */
module Coverage {
  import opened Prelude
  import opened Schedules
  import opened Dispatch

  ghost predicate Dispatched(calls: seq<Call>, ref: JobRef, t: int) {
    exists i :: IsDispatch(calls, i, ref, t)
  }

  /** Handed out in exactly one call, that is, to exactly one poll. */
  ghost predicate DispatchedOnce(calls: seq<Call>, ref: JobRef, t: int) {
    exists i :: IsDispatch(calls, i, ref, t) && forall j :: IsDispatch(calls, j, ref, t) ==> j == i
  }

  /** Call i took a later firing although t was still ahead of the watermark. */
  ghost predicate PassedBy(calls: seq<Call>, i: int, ref: JobRef, t: int) {
    0 <= i < |calls| && calls[i].ref == ref && calls[i].result.Some? && calls[i].lastRun < t < calls[i].result.value
  }

  // ----- Only past firings are skipped -----

  /** Every firing behind the watermark was handed out, or was passed by a call whose own
      clock reading it did not exceed. */
  ghost predicate OnlyPastSkipped(setup: Setup, s: State, ref: JobRef)
    requires ref in s.lastRun && ref in setup.schedules && ref in setup.created
  {
    forall t :: Fires(setup.schedules[ref], t) && setup.created[ref] < t <= s.lastRun[ref] ==>
      Dispatched(s.calls, ref, t) || exists i :: PassedBy(s.calls, i, ref, t) && t <= s.calls[i].now
  }

  lemma StepOnlyPastSkipped(setup: Setup, s: State, e: Event, ref: JobRef)
    requires WellFormed(setup) && Sound(setup, s) && Enabled(s, e)
    requires ref in setup.schedules && OnlyPastSkipped(setup, s, ref)
    ensures OnlyPastSkipped(setup, Next(setup, s, e), ref)
  {
    var after := Next(setup, s, e);
    if e.Advance? {
      var call := CallOf(setup, s, e.poll, e.now);
      TakenIsFirst(setup.schedules[call.ref], call.lastRun, e.now, call.before);
      forall t | Fires(setup.schedules[ref], t) && setup.created[ref] < t <= after.lastRun[ref]
        ensures Dispatched(after.calls, ref, t)
                || exists i :: PassedBy(after.calls, i, ref, t) && t <= after.calls[i].now
      {
        if t <= s.lastRun[ref] {
          SkipKept(s.calls, call, ref, t);
        } else {
          SkipAdded(s.calls, call, ref, t);
        }
      }
    }
  }

  lemma SkipKept(calls: seq<Call>, call: Call, ref: JobRef, t: int)
    requires Dispatched(calls, ref, t) || exists i :: PassedBy(calls, i, ref, t) && t <= calls[i].now
    ensures var after := calls + [call];
            Dispatched(after, ref, t) || exists i :: PassedBy(after, i, ref, t) && t <= after[i].now
  {
    var after := calls + [call];
    if Dispatched(calls, ref, t) {
      var i :| IsDispatch(calls, i, ref, t);
      assert IsDispatch(after, i, ref, t);
    } else {
      var i :| PassedBy(calls, i, ref, t) && t <= calls[i].now;
      assert PassedBy(after, i, ref, t) && t <= after[i].now;
    }
  }

  lemma SkipAdded(calls: seq<Call>, call: Call, ref: JobRef, t: int)
    requires call.ref == ref && call.result.Some? && call.lastRun < t <= call.result.value
    requires t < call.result.value ==> t <= call.now
    ensures var after := calls + [call];
            Dispatched(after, ref, t) || exists i :: PassedBy(after, i, ref, t) && t <= after[i].now
  {
    var after := calls + [call];
    if t == call.result.value {
      assert IsDispatch(after, |calls|, ref, t);
    } else {
      assert PassedBy(after, |calls|, ref, t) && t <= after[|calls|].now;
    }
  }

  lemma {:induction false} SkipsOnlyPast(setup: Setup, events: seq<Event>, ref: JobRef)
    requires WellFormed(setup) && ref in setup.schedules && Exec(setup, events).Some?
    ensures OnlyPastSkipped(setup, Exec(setup, events).value, ref)
  {
    if events != [] {
      var s := LastStep(setup, events);
      SkipsOnlyPast(setup, events[..|events| - 1], ref);
      StepOnlyPastSkipped(setup, s, events[|events| - 1], ref);
    }
  }

  // ----- A clock that does not go back -----

  /** Readings start no earlier than the scheduler's creation and never decrease. */
  ghost predicate Monotone(setup: Setup, events: seq<Event>) {
    && (forall i, j :: 0 <= i < j < |events| ==> events[i].now <= events[j].now)
    && (forall i, ref :: 0 <= i < |events| && ref in setup.created ==> setup.created[ref] <= events[i].now)
  }

  /** Every recorded reading is at most the latest one. */
  ghost predicate Timely(s: State) {
    && (forall i :: 0 <= i < |s.calls| ==> s.calls[i].now <= s.clock)
    && (forall p :: 0 <= p < |s.polls| ==> s.polls[p].clock <= s.clock)
  }

  lemma {:induction false} ReachableTimely(setup: Setup, events: seq<Event>)
    requires WellFormed(setup) && Exec(setup, events).Some? && Monotone(setup, events)
    ensures Timely(Exec(setup, events).value)
    ensures events != [] ==> Exec(setup, events).value.clock == events[|events| - 1].now
  {
    if events != [] {
      var s := LastStep(setup, events);
      var init := events[..|events| - 1];
      ReachableTimely(setup, init);
      if init != [] {
        assert init[|init| - 1].now <= events[|events| - 1].now;
      }
    }
  }

  // ----- A quiet call leaves nothing in its window -----

  /** Every firing strictly inside the window of a call that found nothing has been handed
      out: those ahead of the watermark do not exist, and none behind it was skipped. */
  ghost predicate QuietCovered(setup: Setup, s: State) {
    forall c, t :: 0 <= c < |s.calls| && s.calls[c].result.None? && s.calls[c].now < t < s.calls[c].before
      && s.calls[c].ref in setup.schedules && Fires(setup.schedules[s.calls[c].ref], t)
      ==> Dispatched(s.calls, s.calls[c].ref, t)
  }

  lemma QuietCallCovered(setup: Setup, s: State, p: nat, now: int, t: int)
    requires WellFormed(setup) && Sound(setup, s) && p < |s.polls| && Active(s.polls[p])
    requires var call := CallOf(setup, s, p, now);
             && OnlyPastSkipped(setup, s, call.ref)
             && setup.created[call.ref] <= now
             && call.result.None? && now < t < call.before && Fires(setup.schedules[call.ref], t)
    requires forall i :: 0 <= i < |s.calls| ==> s.calls[i].now <= now
    ensures Dispatched(s.calls, CallOf(setup, s, p, now).ref, t)
  {
    var call := CallOf(setup, s, p, now);
    TakenIsFirst(setup.schedules[call.ref], call.lastRun, now, call.before);
    assert t <= s.lastRun[call.ref];
  }

  lemma DispatchedKept(calls: seq<Call>, call: Call, ref: JobRef, t: int)
    requires Dispatched(calls, ref, t)
    ensures Dispatched(calls + [call], ref, t)
  {
    var i :| IsDispatch(calls, i, ref, t);
    assert IsDispatch(calls + [call], i, ref, t);
  }

  lemma StepQuietCovered(setup: Setup, s: State, e: Event)
    requires WellFormed(setup) && Sound(setup, s) && Enabled(s, e) && QuietCovered(setup, s)
    requires forall ref :: ref in setup.schedules ==> OnlyPastSkipped(setup, s, ref) && setup.created[ref] <= e.now
    requires forall i :: 0 <= i < |s.calls| ==> s.calls[i].now <= e.now
    ensures QuietCovered(setup, Next(setup, s, e))
  {
    if e.Advance? {
      var after := Next(setup, s, e);
      var call := CallOf(setup, s, e.poll, e.now);
      assert after.calls == s.calls + [call];
      forall c, t | 0 <= c < |after.calls| && after.calls[c].result.None?
        && after.calls[c].now < t < after.calls[c].before
        && after.calls[c].ref in setup.schedules && Fires(setup.schedules[after.calls[c].ref], t)
        ensures Dispatched(after.calls, after.calls[c].ref, t)
      {
        if c == |s.calls| {
          QuietCallCovered(setup, s, e.poll, e.now, t);
        } else {
          assert after.calls[c] == s.calls[c];
        }
        DispatchedKept(s.calls, call, after.calls[c].ref, t);
      }
    }
  }

  lemma {:induction false} ReachableQuietCovered(setup: Setup, events: seq<Event>)
    requires WellFormed(setup) && Exec(setup, events).Some? && Monotone(setup, events)
    ensures QuietCovered(setup, Exec(setup, events).value)
  {
    if events != [] {
      var s := LastStep(setup, events);
      var init, e := events[..|events| - 1], events[|events| - 1];
      ReachableQuietCovered(setup, init);
      ReachableTimely(setup, init);
      forall ref | ref in setup.schedules ensures OnlyPastSkipped(setup, s, ref) && setup.created[ref] <= e.now {
        SkipsOnlyPast(setup, init, ref);
      }
      if init != [] {
        assert init[|init| - 1].now <= e.now;
      }
      StepQuietCovered(setup, s, e);
    }
  }

  // ----- What a finished poll has seen -----

  /** Some call of poll p found nothing for this device-job, within p's window. */
  ghost predicate SawQuiet(s: State, p: int, ref: JobRef) {
    0 <= p < |s.polls| && exists c :: QuietCall(s, p, ref, c)
  }

  ghost predicate QuietCall(s: State, p: int, ref: JobRef, c: int) {
    && 0 <= p < |s.polls| && 0 <= c < |s.calls|
    && s.calls[c].ref == ref && s.calls[c].result.None? && s.calls[c].before == s.polls[p].before
    && s.calls[c].now <= s.polls[p].clock
  }

  /** The part of the current scan behind each poll was quiet. */
  ghost predicate ScansQuiet(s: State) {
    forall p :: 0 <= p < |s.polls| ==>
      s.polls[p].pos <= |s.polls[p].scan| && forall i :: 0 <= i < s.polls[p].pos ==> SawQuiet(s, p, s.polls[p].scan[i])
  }

  lemma StepScansQuiet(setup: Setup, s: State, e: Event)
    requires WellFormed(setup) && Sound(setup, s) && Enabled(s, e) && ScansQuiet(s)
    requires e.Advance? ==> s.polls[e.poll].clock <= e.now
    ensures ScansQuiet(Next(setup, s, e))
  {
    var after := Next(setup, s, e);
    forall p | 0 <= p < |after.polls|
      ensures after.polls[p].pos <= |after.polls[p].scan|
      ensures forall i :: 0 <= i < after.polls[p].pos ==> SawQuiet(after, p, after.polls[p].scan[i])
    {
      forall i | 0 <= i < after.polls[p].pos ensures SawQuiet(after, p, after.polls[p].scan[i]) {
        if e.Advance? && e.poll == p && i == s.polls[p].pos {
          assert QuietCall(after, p, after.polls[p].scan[i], |s.calls|);
        } else {
          assert SawQuiet(s, p, s.polls[p].scan[i]);
          var c :| QuietCall(s, p, s.polls[p].scan[i], c);
          assert QuietCall(after, p, after.polls[p].scan[i], c);
        }
      }
    }
  }

  lemma {:induction false} ReachableScansQuiet(setup: Setup, events: seq<Event>)
    requires WellFormed(setup) && Exec(setup, events).Some? && Monotone(setup, events)
    ensures ScansQuiet(Exec(setup, events).value)
  {
    if events != [] {
      var s := LastStep(setup, events);
      var init, e := events[..|events| - 1], events[|events| - 1];
      ReachableScansQuiet(setup, init);
      ReachableTimely(setup, init);
      if init != [] {
        assert init[|init| - 1].now <= e.now;
      }
      StepScansQuiet(setup, s, e);
    }
  }

  /** A batch shorter than its maximum: every firing of every device-job it scanned, strictly
      between the clock at its end and the end of its window, has been handed out. */
  lemma ShortBatchCovers(setup: Setup, events: seq<Event>, p: nat, ref: JobRef, t: int)
    requires WellFormed(setup) && Exec(setup, events).Some? && Monotone(setup, events)
    requires var polls := Exec(setup, events).value.polls;
             p < |polls| && Exhausted(polls[p]) && ref in polls[p].scan && polls[p].clock < t < polls[p].before
    requires ref in setup.schedules && Fires(setup.schedules[ref], t)
    ensures Dispatched(Exec(setup, events).value.calls, ref, t)
  {
    var s := Exec(setup, events).value;
    ReachableScansQuiet(setup, events);
    ReachableQuietCovered(setup, events);
    var i :| 0 <= i < |s.polls[p].scan| && s.polls[p].scan[i] == ref;
    assert SawQuiet(s, p, s.polls[p].scan[i]);
    var c :| QuietCall(s, p, ref, c);
  }

  // ----- End to end -----

  /** Polls of one worker in turn, each untruncated and visiting the device-job, each over
      before the window of the one before it ends. */
  ghost predicate Overlapping(s: State, polls: seq<nat>, ref: JobRef) {
    && (forall k :: 0 <= k < |polls| ==>
          polls[k] < |s.polls| && Exhausted(s.polls[polls[k]]) && ref in s.polls[polls[k]].scan)
    && (forall k :: 0 <= k < |polls| - 1 ==> s.polls[polls[k + 1]].clock < s.polls[polls[k]].before)
  }

  /** The last of the polls that was over before t still has t in its window. */
  lemma {:induction false} PollFor(s: State, polls: seq<nat>, ref: JobRef, t: int) returns (k: nat)
    requires polls != [] && Overlapping(s, polls, ref)
    requires s.polls[polls[0]].clock < t < s.polls[polls[|polls| - 1]].before
    ensures k < |polls| && s.polls[polls[k]].clock < t < s.polls[polls[k]].before
  {
    var last := |polls| - 1;
    if s.polls[polls[last]].clock < t {
      k := last;
    } else {
      var init := polls[..last];
      assert s.polls[polls[last]].clock < s.polls[polls[last - 1]].before;
      k := PollFor(s, init, ref, t);
    }
  }

  /** Coverage: whatever other polls interleave, every firing after the worker's first poll
      and before the end of its last window is handed out, and handed out once. */
  lemma EveryFiringDispatchedOnce(setup: Setup, events: seq<Event>, polls: seq<nat>, ref: JobRef, t: int)
    requires WellFormed(setup) && Exec(setup, events).Some? && Monotone(setup, events)
    requires polls != [] && Overlapping(Exec(setup, events).value, polls, ref)
    requires var s := Exec(setup, events).value;
             s.polls[polls[0]].clock < t < s.polls[polls[|polls| - 1]].before
    requires ref in setup.schedules && Fires(setup.schedules[ref], t)
    ensures DispatchedOnce(Exec(setup, events).value.calls, ref, t)
  {
    var s := Exec(setup, events).value;
    var k := PollFor(s, polls, ref, t);
    ShortBatchCovers(setup, events, polls[k], ref, t);
    DispatchIncreases(setup, events, ref);
    var i :| IsDispatch(s.calls, i, ref, t);
    forall j | IsDispatch(s.calls, j, ref, t) ensures j == i {
    }
  }

  /** The requests of a run, in the order of their polls. */
  function Requests(events: seq<Event>): (requests: seq<Event>)
    ensures forall i :: 0 <= i < |requests| ==> requests[i].Begin?
  {
    if events == [] then []
    else Requests(events[..|events| - 1]) + if events[|events| - 1].Begin? then [events[|events| - 1]] else []
  }

  /** A poll is over the window its request asks for, counted from the request's own reading, and
      visits what its tags ask for. */
  lemma {:induction false} PollsAsRequested(setup: Setup, events: seq<Event>, p: nat)
    requires WellFormed(setup) && Exec(setup, events).Some?
    ensures |Exec(setup, events).value.polls| == |Requests(events)|
    ensures p < |Requests(events)| ==>
              var (poll, request) := (Exec(setup, events).value.polls[p], Requests(events)[p]);
              && poll.before == request.now + request.seconds * 1_000_000_000
              && poll.scan == Scan(setup.table, request.tags) && poll.max == request.max
  {
    if events != [] {
      var s := LastStep(setup, events);
      PollsAsRequested(setup, events[..|events| - 1], p);
    }
  }

  /** The worker's cadence: it asks for the next sleepSeconds, sleeps half of that (rounded
      down) after every second request, and its requests and pauses are bounded. */
  ghost predicate Cadence(s: State, events: seq<Event>, polls: seq<nat>, sleepSeconds: nat, latency: int, slack: int) {
    var requests := Requests(events);
    && (forall k :: 0 <= k < |polls| ==>
          polls[k] < |requests| && polls[k] < |s.polls| && requests[polls[k]].seconds == sleepSeconds)
    && (forall k :: 0 <= k < |polls| ==> s.polls[polls[k]].clock <= requests[polls[k]].now + latency)
    && (forall k :: 0 <= k < |polls| - 1 ==>
          requests[polls[k + 1]].now <= s.polls[polls[k]].clock + (sleepSeconds / 2) * SECOND + slack)
  }

  /** With the cadence of worker.Start, windows overlap as soon as two request latencies and
      the scheduling slack fit into the half of the window the worker does not sleep. Then every
      firing up to sleepSeconds after the last request began is handed out, and once. */
  lemma CadenceOverlaps(setup: Setup, events: seq<Event>, polls: seq<nat>, ref: JobRef, sleepSeconds: nat,
                        latency: int, slack: int, t: int)
    requires WellFormed(setup) && Exec(setup, events).Some? && Monotone(setup, events)
    requires polls != [] && Cadence(Exec(setup, events).value, events, polls, sleepSeconds, latency, slack)
    requires 2 * latency + slack + (sleepSeconds / 2) * SECOND < sleepSeconds * SECOND
    requires var s, requests := Exec(setup, events).value, Requests(events);
             && (forall k :: 0 <= k < |polls| ==>
                   Exhausted(s.polls[polls[k]]) && ref in Scan(setup.table, requests[polls[k]].tags))
             && s.polls[polls[0]].clock < t < requests[polls[|polls| - 1]].now + sleepSeconds * 1_000_000_000
    requires ref in setup.schedules && Fires(setup.schedules[ref], t)
    ensures DispatchedOnce(Exec(setup, events).value.calls, ref, t)
  {
    var s, requests := Exec(setup, events).value, Requests(events);
    forall k | 0 <= k < |polls|
      ensures s.polls[polls[k]].before == requests[polls[k]].now + sleepSeconds * SECOND
              && ref in s.polls[polls[k]].scan
    {
      PollsAsRequested(setup, events, polls[k]);
    }
    forall k | 0 <= k < |polls| - 1 ensures s.polls[polls[k + 1]].clock < s.polls[polls[k]].before {
      assert s.polls[polls[k]].clock <= requests[polls[k]].now + latency;
      assert s.polls[polls[k + 1]].clock <= requests[polls[k + 1]].now + latency;
    }
    EveryFiringDispatchedOnce(setup, events, polls, ref, t);
  }
}
