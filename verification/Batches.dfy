/** The batch one request builds when nobody else interferes: rescanning from the first tag
    after every firing taken, as apiWorkerNext does, is a single pass over the device-jobs
    (controller/api.go:61-69; controller/scheduler.go:34-53). */
module Batches {
  import opened Prelude
  import opened Schedules
  import opened Dispatch

  type Watermarks = map<JobRef, int>

  /** The firings strictly between two instants, ascending. */
  function FiringsBetween(schedule: Schedule, after: int, before: int): seq<int>
    decreases before - after
  {
    match NextRun(schedule, after, after, before)
    case None => []
    case Some(t) => [t] + FiringsBetween(schedule, t, before)
  }

  function Executions(ref: JobRef, times: seq<int>): seq<Execution> {
    seq(|times|, i requires 0 <= i < |times| => Execution(ref, times[i]))
  }

  /** One pass: every device-job of the scan in order, all its firings in the window past its
      watermark; a device-job seen before has nothing left. */
  function SinglePass(schedules: map<JobRef, Schedule>, lastRun: Watermarks, scan: seq<JobRef>, now: int,
                      before: int): seq<Execution>
    requires forall ref :: ref in scan ==> ref in schedules && ref in lastRun
  {
    if scan == [] then []
    else
      var ref := scan[0];
      var times := FiringsBetween(schedules[ref], Later(now, lastRun[ref]), before);
      var left := if times == [] then lastRun else lastRun[ref := times[|times| - 1]];
      Executions(ref, times) + SinglePass(schedules, left, scan[1..], now, before)
  }

  /** NextExecution with a fixed clock: the first device-job of the scan that has a firing. */
  function FirstExecution(schedules: map<JobRef, Schedule>, lastRun: Watermarks, scan: seq<JobRef>, now: int,
                          before: int): Option<Execution>
    requires forall ref :: ref in scan ==> ref in schedules && ref in lastRun
  {
    if scan == [] then None
    else
      match NextRun(schedules[scan[0]], lastRun[scan[0]], now, before)
      case Some(t) => Some(Execution(scan[0], t))
      case None => FirstExecution(schedules, lastRun, scan[1..], now, before)
  }

  lemma NextRunAfter(schedule: Schedule, lastRun: int, now: int, before: int)
    ensures NextRun(schedule, lastRun, now, before)
              == NextRun(schedule, Later(now, lastRun), Later(now, lastRun), before)
  {
  }

  /** Where a device-job has nothing in the window, the pass goes on without it. */
  lemma SkipQuiet(schedules: map<JobRef, Schedule>, lastRun: Watermarks, scan: seq<JobRef>, now: int, before: int)
    requires scan != [] && forall ref :: ref in scan ==> ref in schedules && ref in lastRun
    requires NextRun(schedules[scan[0]], lastRun[scan[0]], now, before).None?
    ensures SinglePass(schedules, lastRun, scan, now, before) == SinglePass(schedules, lastRun, scan[1..], now, before)
  {
    NextRunAfter(schedules[scan[0]], lastRun[scan[0]], now, before);
    assert FiringsBetween(schedules[scan[0]], Later(now, lastRun[scan[0]]), before) == [];
    var rest := SinglePass(schedules, lastRun, scan[1..], now, before);
    assert Executions(scan[0], []) + rest == rest;
  }

  /** Taking the first firing off a pass leaves the pass from the moved watermark. */
  lemma {:induction false} PassHead(schedules: map<JobRef, Schedule>, lastRun: Watermarks, scan: seq<JobRef>, now: int,
                                    before: int)
    requires forall ref :: ref in scan ==> ref in schedules && ref in lastRun
    ensures match FirstExecution(schedules, lastRun, scan, now, before)
            case None => SinglePass(schedules, lastRun, scan, now, before) == []
            case Some(x) =>
              && x.ref in scan && NextRun(schedules[x.ref], lastRun[x.ref], now, before) == Some(x.time)
              && SinglePass(schedules, lastRun, scan, now, before)
                 == [x] + SinglePass(schedules, lastRun[x.ref := x.time], scan, now, before)
  {
    if scan != [] {
      var ref := scan[0];
      match NextRun(schedules[ref], lastRun[ref], now, before)
      case Some(t) =>
        PassHeadHere(schedules, lastRun, scan, now, before, t);
      case None =>
        PassHead(schedules, lastRun, scan[1..], now, before);
        SkipQuiet(schedules, lastRun, scan, now, before);
        var first := FirstExecution(schedules, lastRun, scan, now, before);
        if first.Some? {
          SkipQuiet(schedules, lastRun[first.value.ref := first.value.time], scan, now, before);
        }
    }
  }

  lemma PassHeadHere(schedules: map<JobRef, Schedule>, lastRun: Watermarks, scan: seq<JobRef>, now: int, before: int,
                     t: int)
    requires scan != [] && forall ref :: ref in scan ==> ref in schedules && ref in lastRun
    requires NextRun(schedules[scan[0]], lastRun[scan[0]], now, before) == Some(t)
    ensures SinglePass(schedules, lastRun, scan, now, before)
         == [Execution(scan[0], t)] + SinglePass(schedules, lastRun[scan[0] := t], scan, now, before)
  {
    var ref := scan[0];
    var rest := FiringsBetween(schedules[ref], t, before);
    NextRunAfter(schedules[ref], lastRun[ref], now, before);
    assert FiringsBetween(schedules[ref], Later(now, lastRun[ref]), before) == [t] + rest;
    assert Executions(ref, [t] + rest) == [Execution(ref, t)] + Executions(ref, rest);
    assert Later(now, t) == t;
    var left := lastRun[ref := ([t] + rest)[|rest|]];
    assert left == lastRun[ref := t][ref := ([t] + rest)[|rest|]];
    if rest == [] {
      assert left == lastRun[ref := t];
    }
    Assoc([Execution(ref, t)], Executions(ref, rest), SinglePass(schedules, left, scan[1..], now, before));
  }

  // ----- The request loop against a clock that may move -----

  /** A poll and the watermarks after the given clock readings, one per nextRun call. */
  function Replay(schedules: map<JobRef, Schedule>, lastRun: Watermarks, p: Poll,
                  readings: seq<int>): (r: (Poll, Watermarks))
    requires schedules.Keys == lastRun.Keys && forall ref :: ref in p.scan ==> ref in schedules
    ensures r.1.Keys == lastRun.Keys && r.0.scan == p.scan && r.0.before == p.before && r.0.max == p.max
  {
    if readings == [] then (p, lastRun)
    else
      var (q, left) := Replay(schedules, lastRun, p, readings[..|readings| - 1]);
      if !Active(q) then (q, left)
      else
        var ref, now := q.scan[q.pos], readings[|readings| - 1];
        var result := NextRun(schedules[ref], left[ref], now, q.before);
        (PollStep(q, now, result), if result.Some? then left[ref := result.value] else left)
  }

  /** Halfway through a request: what is in the batch and what the pass would still give make
      up the whole pass, and the scan so far was quiet. */
  ghost predicate Halfway(schedules: map<JobRef, Schedule>, whole: seq<Execution>, p: Poll, lastRun: Watermarks,
                          now: int)
    requires schedules.Keys == lastRun.Keys && forall ref :: ref in p.scan ==> ref in schedules
  {
    && p.pos <= |p.scan| && |p.got| <= p.max
    && p.got + SinglePass(schedules, lastRun, p.scan, now, p.before) == whole
    && forall i :: 0 <= i < p.pos ==> NextRun(schedules[p.scan[i]], lastRun[p.scan[i]], now, p.before).None?
  }

  lemma {:induction false} QuietThen(schedules: map<JobRef, Schedule>, lastRun: Watermarks, scan: seq<JobRef>,
                                     pos: nat, now: int, before: int)
    requires pos <= |scan| && forall ref :: ref in scan ==> ref in schedules && ref in lastRun
    requires forall i :: 0 <= i < pos ==> NextRun(schedules[scan[i]], lastRun[scan[i]], now, before).None?
    ensures FirstExecution(schedules, lastRun, scan, now, before)
              == FirstExecution(schedules, lastRun, scan[pos..], now, before)
  {
    if pos > 0 {
      var tail := scan[1..];
      assert forall i :: 0 <= i < pos - 1 ==> tail[i] == scan[i + 1];
      QuietThen(schedules, lastRun, tail, pos - 1, now, before);
      assert tail[pos - 1..] == scan[pos..];
    }
  }

  lemma StepHalfway(schedules: map<JobRef, Schedule>, whole: seq<Execution>, p: Poll, lastRun: Watermarks, now: int)
    requires schedules.Keys == lastRun.Keys && forall ref :: ref in p.scan ==> ref in schedules
    requires Halfway(schedules, whole, p, lastRun, now) && Active(p)
    ensures var ref := p.scan[p.pos];
            var result := NextRun(schedules[ref], lastRun[ref], now, p.before);
            Halfway(schedules, whole, PollStep(p, now, result), if result.Some? then lastRun[ref := result.value]
              else lastRun, now)
  {
    var ref := p.scan[p.pos];
    var result := NextRun(schedules[ref], lastRun[ref], now, p.before);
    if result.Some? {
      QuietThen(schedules, lastRun, p.scan, p.pos, now, p.before);
      assert p.scan[p.pos..][0] == ref;
      var x := Execution(ref, result.value);
      PassHead(schedules, lastRun, p.scan, now, p.before);
      Assoc(p.got, [x], SinglePass(schedules, lastRun[ref := result.value], p.scan, now, p.before));
    }
  }

  lemma {:induction false} ReplayHalfway(schedules: map<JobRef, Schedule>, lastRun: Watermarks, p: Poll,
                                         readings: seq<int>, now: int)
    requires schedules.Keys == lastRun.Keys && forall ref :: ref in p.scan ==> ref in schedules
    requires p.pos == 0 && p.got == [] && forall i :: 0 <= i < |readings| ==> readings[i] == now
    ensures var (q, left) := Replay(schedules, lastRun, p, readings);
            Halfway(schedules, SinglePass(schedules, lastRun, p.scan, now, p.before), q, left, now)
  {
    if readings != [] {
      var init := readings[..|readings| - 1];
      ReplayHalfway(schedules, lastRun, p, init, now);
      var (q, left) := Replay(schedules, lastRun, p, init);
      if Active(q) {
        StepHalfway(schedules, SinglePass(schedules, lastRun, p.scan, now, p.before), q, left, now);
      }
    }
  }

  /** With the clock fixed during a request, the rescanning loop gives exactly the first max
      executions of the single pass. */
  lemma RescanIsSinglePass(schedules: map<JobRef, Schedule>, lastRun: Watermarks, p: Poll, readings: seq<int>, now: int)
    requires schedules.Keys == lastRun.Keys && forall ref :: ref in p.scan ==> ref in schedules
    requires p.pos == 0 && p.got == [] && forall i :: 0 <= i < |readings| ==> readings[i] == now
    requires !Active(Replay(schedules, lastRun, p, readings).0)
    ensures var pass := SinglePass(schedules, lastRun, p.scan, now, p.before);
            Replay(schedules, lastRun, p, readings).0.got == if |pass| <= p.max then pass else pass[..p.max]
  {
    ReplayHalfway(schedules, lastRun, p, readings, now);
    var (q, left) := Replay(schedules, lastRun, p, readings);
    HalfwayDone(schedules, SinglePass(schedules, lastRun, p.scan, now, p.before), q, left, now);
  }

  lemma HalfwayDone(schedules: map<JobRef, Schedule>, whole: seq<Execution>, q: Poll, left: Watermarks, now: int)
    requires schedules.Keys == left.Keys && forall ref :: ref in q.scan ==> ref in schedules
    requires Halfway(schedules, whole, q, left, now) && !Active(q)
    ensures q.got == if |whole| <= q.max then whole else whole[..q.max]
  {
    var rest := SinglePass(schedules, left, q.scan, now, q.before);
    if |q.got| < q.max {
      QuietThen(schedules, left, q.scan, q.pos, now, q.before);
      PassHead(schedules, left, q.scan, now, q.before);
      assert rest == [];
    }
    TakeFront(whole, q.got, rest);
  }

  lemma TakeFront(whole: seq<Execution>, a: seq<Execution>, b: seq<Execution>)
    requires whole == a + b
    ensures whole[..|a|] == a
    ensures b == [] ==> whole == a
    ensures |whole| == |a| ==> whole == a
  {
  }

  /** Replaying readings for a poll is the run of the shared scheduler in which no other poll
      steps in between. */
  lemma {:induction false} ReplayIsRun(setup: Setup, events: seq<Event>, i: nat, readings: seq<int>)
      returns (more: seq<Event>)
    requires WellFormed(setup) && Exec(setup, events).Some? && i < |Exec(setup, events).value.polls|
    ensures Exec(setup, events + more).Some?
    ensures var s, t := Exec(setup, events).value, Exec(setup, events + more).value;
            && |t.polls| == |s.polls|
            && (t.polls[i], t.lastRun) == Replay(setup.schedules, s.lastRun, s.polls[i], readings)
  {
    var s := Exec(setup, events).value;
    assert forall ref :: ref in s.polls[i].scan ==> ref in setup.schedules;
    if readings == [] {
      more := [];
      assert events + more == events;
    } else {
      var before := ReplayIsRun(setup, events, i, readings[..|readings| - 1]);
      var t := Exec(setup, events + before).value;
      if Active(t.polls[i]) {
        var e := Advance(i, readings[|readings| - 1]);
        more := before + [e];
        assert events + more == (events + before) + [e];
        assert ((events + before) + [e])[..|events + before|] == events + before;
      } else {
        more := before;
      }
    }
  }

  // ----- What a single pass lists -----

  /** FiringsBetween is the firings of the open interval, each once and in order. */
  lemma {:induction false} FiringsExact(schedule: Schedule, after: int, before: int, t: int)
    requires Lawful(schedule)
    ensures t in FiringsBetween(schedule, after, before) <==> after < t < before && Fires(schedule, t)
    ensures var times := FiringsBetween(schedule, after, before);
            forall i, j :: 0 <= i < j < |times| ==> times[i] < times[j]
    ensures var times := FiringsBetween(schedule, after, before);
            forall i :: 0 <= i < |times| ==> after < times[i]
    decreases before - after
  {
    TakenIsFirst(schedule, after, after, before);
    match NextRun(schedule, after, after, before)
    case None =>
    case Some(first) => FiringsExact(schedule, first, before, t);
  }

  ghost predicate AllLawful(schedules: map<JobRef, Schedule>, scan: seq<JobRef>)
    requires forall ref :: ref in scan ==> ref in schedules
  {
    forall ref :: ref in scan ==> Lawful(schedules[ref])
  }

  /** A single pass lists exactly the firings of each device-job of the scan strictly between its
      watermark or the clock, whichever is later, and the end of the window. */
  lemma {:induction false} PassListsExactly(schedules: map<JobRef, Schedule>, lastRun: Watermarks, scan: seq<JobRef>,
                                            now: int, before: int, x: Execution)
    requires (forall ref :: ref in scan ==> ref in schedules && ref in lastRun) && AllLawful(schedules, scan)
    ensures x in SinglePass(schedules, lastRun, scan, now, before) <==>
              && x.ref in scan && Later(now, lastRun[x.ref]) < x.time < before && Fires(schedules[x.ref], x.time)
  {
    if scan != [] {
      var ref := scan[0];
      var times := FiringsBetween(schedules[ref], Later(now, lastRun[ref]), before);
      var left := if times == [] then lastRun else lastRun[ref := times[|times| - 1]];
      FiringsExact(schedules[ref], Later(now, lastRun[ref]), before, x.time);
      InExecutions(ref, times, x);
      PassListsExactly(schedules, left, scan[1..], now, before, x);
    }
  }

  lemma InExecutions(ref: JobRef, times: seq<int>, x: Execution)
    ensures x in Executions(ref, times) <==> x.ref == ref && x.time in times
  {
    if x.ref == ref && x.time in times {
      var i :| 0 <= i < |times| && times[i] == x.time;
      assert Executions(ref, times)[i] == x;
    }
  }

  /** The firings of each device-job ascend, and so none is there twice. */
  ghost predicate Ascends(executions: seq<Execution>) {
    forall i, j :: 0 <= i < j < |executions| && executions[i].ref == executions[j].ref ==>
      executions[i].time < executions[j].time
  }

  lemma AscendsConcat(a: seq<Execution>, b: seq<Execution>)
    requires Ascends(a) && Ascends(b)
    requires forall i, j :: 0 <= i < |a| && 0 <= j < |b| && a[i].ref == b[j].ref ==> a[i].time < b[j].time
    ensures Ascends(a + b)
  {
  }

  /** It lists no execution twice, even where the scan comes to a device-job again. */
  lemma {:induction false} PassAscends(schedules: map<JobRef, Schedule>, lastRun: Watermarks, scan: seq<JobRef>,
                                       now: int, before: int)
    requires (forall ref :: ref in scan ==> ref in schedules && ref in lastRun) && AllLawful(schedules, scan)
    ensures Ascends(SinglePass(schedules, lastRun, scan, now, before))
  {
    if scan != [] {
      var ref := scan[0];
      var times := FiringsBetween(schedules[ref], Later(now, lastRun[ref]), before);
      var left := if times == [] then lastRun else lastRun[ref := times[|times| - 1]];
      var own, rest := Executions(ref, times), SinglePass(schedules, left, scan[1..], now, before);
      FiringsExact(schedules[ref], Later(now, lastRun[ref]), before, 0);
      PassAscends(schedules, left, scan[1..], now, before);
      forall i, j | 0 <= i < |own| && 0 <= j < |rest| && own[i].ref == rest[j].ref ensures own[i].time < rest[j].time {
        AfterOwn(schedules, lastRun, scan, now, before, rest[j], i);
      }
      AscendsConcat(own, rest);
    }
  }

  /** What the rest of a pass lists of a device-job comes after what was listed before. */
  lemma AfterOwn(schedules: map<JobRef, Schedule>, lastRun: Watermarks, scan: seq<JobRef>, now: int, before: int,
                 x: Execution, i: nat)
    requires (forall ref :: ref in scan ==> ref in schedules && ref in lastRun) && AllLawful(schedules, scan)
    requires scan != [] && x.ref == scan[0]
    requires var times := FiringsBetween(schedules[scan[0]], Later(now, lastRun[scan[0]]), before);
             && i < |times|
             && x in SinglePass(schedules, lastRun[scan[0] := times[|times| - 1]], scan[1..], now, before)
    ensures FiringsBetween(schedules[scan[0]], Later(now, lastRun[scan[0]]), before)[i] < x.time
  {
    var times := FiringsBetween(schedules[scan[0]], Later(now, lastRun[scan[0]]), before);
    FiringsExact(schedules[scan[0]], Later(now, lastRun[scan[0]]), before, 0);
    PassListsExactly(schedules, lastRun[scan[0] := times[|times| - 1]], scan[1..], now, before, x);
  }

  // ----- What a request returns -----

  /** The execution is of a device-job scanned, at a firing strictly between its watermark or the
      reading, whichever is later, and the end. */
  ghost predicate Due(scan: seq<JobRef>, schedules: map<JobRef, Schedule>, lastRun: Watermarks, now: int, end: int,
                      x: Execution)
    requires forall ref :: ref in scan ==> ref in schedules && ref in lastRun
  {
    && x.ref in scan && now < x.time < end && lastRun[x.ref] < x.time
    && Fires(schedules[x.ref], x.time)
  }

  lemma {:induction false} ReplayWithin(schedules: map<JobRef, Schedule>, lastRun: Watermarks, p: Poll,
                                        readings: seq<int>)
    requires schedules.Keys == lastRun.Keys && forall ref :: ref in p.scan ==> ref in schedules
    requires p.got == []
    ensures forall x :: x in Replay(schedules, lastRun, p, readings).0.got ==> x.ref in p.scan && x.time < p.before
  {
    if readings != [] {
      ReplayWithin(schedules, lastRun, p, readings[..|readings| - 1]);
    }
  }

  /** With the clock fixed, a batch shorter than its maximum holds exactly what is due. */
  lemma ReplayExact(schedules: map<JobRef, Schedule>, lastRun: Watermarks, p: Poll, readings: seq<int>, now: int)
    requires schedules.Keys == lastRun.Keys && forall ref :: ref in p.scan ==> ref in schedules
    requires p.pos == 0 && p.got == [] && forall i :: 0 <= i < |readings| ==> readings[i] == now
    requires var q := Replay(schedules, lastRun, p, readings).0; !Active(q) && |q.got| < p.max
    requires AllLawful(schedules, p.scan)
    ensures forall x :: x in Replay(schedules, lastRun, p, readings).0.got <==>
                          Due(p.scan, schedules, lastRun, now, p.before, x)
    ensures Ascends(Replay(schedules, lastRun, p, readings).0.got)
  {
    RescanIsSinglePass(schedules, lastRun, p, readings, now);
    PassAscends(schedules, lastRun, p.scan, now, p.before);
    forall x ensures x in SinglePass(schedules, lastRun, p.scan, now, p.before) <==>
                       Due(p.scan, schedules, lastRun, now, p.before, x) {
      PassListsExactly(schedules, lastRun, p.scan, now, p.before, x);
    }
  }
}
