/** The scheduler object, its device-jobs and the request that drains them
    (controller/scheduler.go:15-102; controller/api.go:61-69). */
module LocalSchedulers {
  import opened Prelude
  import opened Schedules
  import opened Dispatch
  import opened Batches

  /** time.Now(): any reading, recorded. */
  class Clock {
    ghost var readings: seq<int>

    constructor ()
      ensures readings == []
    {
      readings := [];
    }

    method Now() returns (t: int)
      modifies this
      ensures readings == old(readings) + [t]
    {
      t :| true;
      readings := readings + [t];
    }
  }

  class DeviceJob {
    const ref: JobRef
    const schedule: Schedule
    var lastRun: int

    constructor (ref: JobRef, schedule: Schedule, now: int)
      ensures this.ref == ref && this.schedule == schedule && lastRun == now
    {
      this.ref, this.schedule, lastRun := ref, schedule, now;
    }

    method TakeNext(before: int, clock: Clock) returns (r: Option<int>)
      modifies this, clock
      ensures |clock.readings| == |old(clock.readings)| + 1 && old(clock.readings) <= clock.readings
      ensures r == NextRun(schedule, old(lastRun), clock.readings[|old(clock.readings)|], before)
      ensures lastRun == if r.Some? then r.value else old(lastRun)
    {
      var after := clock.Now();
      if lastRun > after {
        after := lastRun;
      }
      var next := schedule.next(after);
      if next.Some? && next.value > after && next.value < before {
        lastRun := next.value;
        return next;
      }
      return None;
    }
  }

  /** What the scheduler reads of a configured device. */
  datatype Device = Device(tags: seq<string>, jobs: map<string, Schedule>)

  function EffectiveTags(tags: seq<string>): seq<string> {
    if tags == [] then [""] else tags
  }

  class LocalScheduler {
    var deviceJobsByTag: map<string, seq<DeviceJob>>
    ghost var jobs: map<JobRef, DeviceJob>

    ghost predicate Valid()
      reads this
    {
      && (forall ref :: ref in jobs ==> jobs[ref].ref == ref)
      && (forall tag, i :: tag in deviceJobsByTag && 0 <= i < |deviceJobsByTag[tag]| ==>
        Registered(deviceJobsByTag[tag][i]))
    }

    ghost predicate Registered(d: DeviceJob)
      reads this
    {
      d.ref in jobs && jobs[d.ref] == d
    }

    ghost function Marks(): map<JobRef, int>
      reads this`jobs, jobs.Values
    {
      map ref | ref in jobs :: jobs[ref].lastRun
    }

    ghost function JobSchedules(): map<JobRef, Schedule>
      reads this`jobs
    {
      map ref | ref in jobs :: jobs[ref].schedule
    }

    ghost function Table(): map<string, seq<JobRef>>
      reads this`deviceJobsByTag
    {
      map tag | tag in deviceJobsByTag :: Refs(deviceJobsByTag[tag])
    }

    constructor ()
      ensures Valid() && jobs == map[] && deviceJobsByTag == map[]
    {
      deviceJobsByTag, jobs := map[], map[];
    }

    method AddDeviceJobToTag(tag: string, d: DeviceJob)
      requires Valid() && Registered(d)
      modifies this`deviceJobsByTag
      ensures Valid() && Table() == AppendRef(old(Table()), tag, d.ref)
    {
      var list := if tag in deviceJobsByTag then deviceJobsByTag[tag] else [];
      assert Refs(list + [d]) == Refs(list) + [d.ref];
      deviceJobsByTag := deviceJobsByTag[tag := list + [d]];
    }

    /** One round of addDeviceJob's loop: a device-job under its device's tags, or under the
        empty tag when there are none. */
    method AddOneJob(ref: JobRef, schedule: Schedule, tags: seq<string>, clock: Clock)
      requires Valid() && ref !in jobs
      modifies this, clock
      ensures Valid() && fresh(jobs.Values - old(jobs.Values))
      ensures |clock.readings| == |old(clock.readings)| + 1 && old(clock.readings) <= clock.readings
      ensures Marks() == old(Marks())[ref := clock.readings[|old(clock.readings)|]]
      ensures JobSchedules() == old(JobSchedules())[ref := schedule]
      ensures Table() == AppendAll(old(Table()), EffectiveTags(tags), ref)
    {
      var now := clock.Now();
      var d := new DeviceJob(ref, schedule, now);
      jobs := jobs[ref := d];
      assert Marks() == old(Marks())[ref := now] && JobSchedules() == old(JobSchedules())[ref := schedule];
      AddToTags(d, tags);
    }

    method AddToTags(d: DeviceJob, tags: seq<string>)
      requires Valid() && Registered(d)
      modifies this`deviceJobsByTag
      ensures Valid() && Table() == AppendAll(old(Table()), EffectiveTags(tags), d.ref)
    {
      if |tags| == 0 {
        AddDeviceJobToTag("", d);
        AppendOne(old(Table()), "", d.ref);
      } else {
        var i := 0;
        while i < |tags|
          invariant i <= |tags| && Valid() && Registered(d)
          invariant Table() == AppendAll(old(Table()), tags[..i], d.ref)
        {
          AddDeviceJobToTag(tags[i], d);
          assert tags[..i + 1][..i] == tags[..i];
          i := i + 1;
        }
        assert tags[..i] == tags;
      }
    }

    /** addDeviceJob: all jobs of one device, listed in any order of its map. */
    method AddDeviceJob(name: string, device: Device, clock: Clock) returns (ghost entries: seq<Entry>)
      requires Valid() && forall job :: JobRef(name, job) !in jobs
      modifies this, clock
      ensures Valid() && fresh(jobs.Values - old(jobs.Values))
      ensures Lists(entries, name, device, {}) && Timed(entries, old(clock.readings), clock.readings)
      ensures Marks() == MarksOf(old(Marks()), entries)
      ensures JobSchedules() == SchedulesOf(old(JobSchedules()), entries)
      ensures Table() == TableOf(old(Table()), entries)
    {
      entries := [];
      var left := device.jobs.Keys;
      ghost var marks, schedules, table := Marks(), JobSchedules(), Table();
      while left != {}
        invariant left <= device.jobs.Keys && Valid() && fresh(jobs.Values - old(jobs.Values))
        invariant Lists(entries, name, device, left) && Timed(entries, old(clock.readings), clock.readings)
        invariant Holds(table, marks, schedules, entries)
        decreases left
      {
        var job :| job in left;
        Unlisted(marks, entries, name, device, left, job);
        ghost var entry := AddEntry(JobRef(name, job), device.jobs[job], device.tags, clock,
                                    table, marks, schedules, entries, old(clock.readings));
        ListsSnoc(entries, name, device, left, entry);
        entries := entries + [entry];
        left := left - {job};
      }
    }

    /** These entries have been appended to a scheduler that had this before. */
    ghost predicate Holds(table: map<string, seq<JobRef>>, marks: map<JobRef, int>, schedules: map<JobRef, Schedule>,
                          entries: seq<Entry>)
      reads this, jobs.Values
    {
      && Table() == TableOf(table, entries) && Marks() == MarksOf(marks, entries)
      && JobSchedules() == SchedulesOf(schedules, entries)
    }

    /** AddOneJob, seen from the whole loop. */
    method AddEntry(ref: JobRef, schedule: Schedule, tags: seq<string>, clock: Clock,
                    ghost table: map<string, seq<JobRef>>,
                    ghost marks: map<JobRef, int>, ghost schedules: map<JobRef, Schedule>, ghost entries: seq<Entry>,
                    ghost before: seq<int>)
        returns (ghost entry: Entry)
      requires Valid() && Holds(table, marks, schedules, entries) && ref !in MarksOf(marks, entries)
      requires Timed(entries, before, clock.readings)
      modifies this, clock
      ensures Valid() && fresh(jobs.Values - old(jobs.Values))
      ensures entry.ref == ref && entry.schedule == schedule && entry.tags == EffectiveTags(tags)
      ensures Holds(table, marks, schedules, entries + [entry]) && Timed(entries + [entry], before, clock.readings)
    {
      assert ref !in Marks();
      AddOneJob(ref, schedule, tags, clock);
      ghost var n := |old(clock.readings)|;
      entry := Entry(ref, schedule, EffectiveTags(tags), clock.readings[n]);
      assert clock.readings == old(clock.readings) + [clock.readings[n]];
      EntriesSnoc(table, marks, schedules, entries, entry);
    }

    /** One nextRun call, seen from the whole scheduler. */
    method Visit(d: DeviceJob, before: int, clock: Clock) returns (r: Option<int>)
      requires Valid() && Registered(d)
      modifies d, clock
      ensures |clock.readings| == |old(clock.readings)| + 1 && old(clock.readings) <= clock.readings
      ensures d.ref in old(Marks()) && d.ref in JobSchedules()
      ensures r == NextRun(JobSchedules()[d.ref], old(Marks())[d.ref], clock.readings[|old(clock.readings)|], before)
      ensures Marks() == if r.Some? then old(Marks())[d.ref := r.value] else old(Marks())
    {
      r := d.TakeNext(before, clock);
      forall ref | ref in jobs ensures jobs[ref] == d <==> ref == d.ref {
      }
    }

    lemma ScanRegistered(tags: seq<string>)
      requires Valid()
      ensures forall ref :: ref in ScanTags(Table(), tags) ==> ref in jobs
    {
      if tags != [] {
        ScanRegistered(tags[..|tags| - 1]);
      }
    }

    /** The readings made since a call began drive the poll from p to q. */
    ghost predicate Drives(marks: map<JobRef, int>, p: Poll, readings: seq<int>, q: Poll)
      requires Valid()
      requires marks.Keys == jobs.Keys && forall ref :: ref in p.scan ==> ref in jobs
      reads this, jobs.Values
    {
      (q, Marks()) == Replay(JobSchedules(), marks, p, readings)
    }

    /** One visit moves the poll one step. */
    method VisitNext(d: DeviceJob, before: int, clock: Clock, ghost marks: map<JobRef, int>, ghost p: Poll,
                     ghost from: nat, ghost q: Poll)
      returns (r: Option<int>, ghost q': Poll)
      requires Valid() && Registered(d)
      requires marks.Keys == jobs.Keys && forall ref :: ref in p.scan ==> ref in jobs
      requires from <= |clock.readings| && Drives(marks, p, clock.readings[from..], q)
      requires Active(q) && q.scan[q.pos] == d.ref && q.before == before
      modifies d, clock
      ensures |old(clock.readings)| < |clock.readings| && old(clock.readings) <= clock.readings
      ensures Drives(marks, p, clock.readings[from..], q')
      ensures q' == PollStep(q, clock.readings[|clock.readings| - 1], r)
    {
      ghost var past := clock.readings;
      r := Visit(d, before, clock);
      q' := PollStep(q, clock.readings[|past|], r);
      assert clock.readings[from..][..|clock.readings[from..]| - 1] == past[from..];
    }

    /** The device-jobs of the i-th tag are the stretch of the scan after the earlier tags. */
    lemma TagSlice(tags: seq<string>, i: nat, list: seq<DeviceJob>)
      requires Valid() && i < |tags|
      requires list == if tags[i] in deviceJobsByTag then deviceJobsByTag[tags[i]] else []
      ensures forall j :: 0 <= j < |list| ==> Registered(list[j])
      ensures ScanTags(Table(), tags[..i + 1]) == ScanTags(Table(), tags[..i]) + Refs(list)
      ensures ScanTags(Table(), tags[..i + 1]) <= ScanTags(Table(), tags)
    {
      Listing(tags[i], list);
      ScanSlice(Table(), tags, i);
    }

    lemma Listing(tag: string, list: seq<DeviceJob>)
      requires Valid() && list == if tag in deviceJobsByTag then deviceJobsByTag[tag] else []
      ensures forall j :: 0 <= j < |list| ==> Registered(list[j])
      ensures Refs(list) == if tag in Table() then Table()[tag] else []
    {
    }

    /** The inner loop of NextExecution: the device-jobs of one of the tags. */
    method ScanTag(tags: seq<string>, i: nat, before: int, clock: Clock, ghost marks: map<JobRef, int>, ghost p: Poll,
                   ghost from: nat, ghost q: Poll)
      returns (e: Option<Execution>, ghost q': Poll)
      requires Valid() && i < |tags|
      requires marks.Keys == jobs.Keys && forall ref :: ref in p.scan ==> ref in jobs
      requires from <= |clock.readings| && Drives(marks, p, clock.readings[from..], q)
      requires q.before == before && |q.got| < q.max
      requires q.scan == ScanTags(Table(), tags) && q.pos == |ScanTags(Table(), tags[..i])|
      modifies jobs.Values, clock
      ensures old(clock.readings) <= clock.readings
      ensures Drives(marks, p, clock.readings[from..], q')
      ensures e.Some? ==> q'.pos == 0 && q'.got == q.got + [e.value]
      ensures e.None? ==> q'.pos == |ScanTags(Table(), tags[..i + 1])| && q'.got == q.got
    {
      var list := if tags[i] in deviceJobsByTag then deviceJobsByTag[tags[i]] else [];
      TagSlice(tags, i, list);
      ghost var earlier, own := ScanTags(Table(), tags[..i]), Refs(list);
      q' := q;
      var j := 0;
      while j < |list|
        invariant j <= |list|
        invariant from <= |clock.readings| && old(clock.readings) <= clock.readings
        invariant Drives(marks, p, clock.readings[from..], q')
        invariant q'.pos == q.pos + j && q'.got == q.got && q'.scan == q.scan && q'.before == before && q'.max == q.max
      {
        SliceAt(earlier, own, q.scan, j);
        var run;
        run, q' := VisitNext(list[j], before, clock, marks, p, from, q');
        if run.Some? {
          return Some(Execution(list[j].ref, run.value)), q';
        }
        j := j + 1;
      }
      return None, q';
    }

    /** The first firing of the scan. The ghost arguments say how the call looks to the rest
        of the system: the readings it makes are nextRun steps of a poll under way. */
    method NextExecution(tags: seq<string>, before: int, clock: Clock, ghost marks: map<JobRef, int>, ghost p: Poll,
                         ghost from: nat, ghost q: Poll)
      returns (e: Option<Execution>, ghost q': Poll)
      requires Valid() && p.scan == Scan(Table(), tags) && p.before == before
      requires marks.Keys == jobs.Keys && forall ref :: ref in p.scan ==> ref in jobs
      requires from <= |clock.readings| && Drives(marks, p, clock.readings[from..], q)
      requires q.pos == 0 && |q.got| < q.max
      modifies jobs.Values, clock
      ensures old(clock.readings) <= clock.readings
      ensures Drives(marks, p, clock.readings[from..], q')
      ensures e.Some? ==> q'.pos == 0 && q'.got == q.got + [e.value]
      ensures e.None? ==> q'.pos == |p.scan| && q'.got == q.got
    {
      var all := if |tags| == 0 then [""] else tags;
      q' := q;
      var i := 0;
      while i < |all|
        invariant i <= |all|
        invariant from <= |clock.readings| && old(clock.readings) <= clock.readings
        invariant Drives(marks, p, clock.readings[from..], q')
        invariant q'.pos == |ScanTags(Table(), all[..i])| && q'.got == q.got
      {
        e, q' := ScanTag(all, i, before, clock, marks, p, from, q');
        if e.Some? {
          return;
        }
        i := i + 1;
      }
      assert all[..i] == all;
      return None, q';
    }

    /** The body of a /worker/next request after its parameters are read: the readings it
        makes after the first one drive its poll to an end, and the batch is the poll's. */
    method ApiWorkerNext(tags: seq<string>, seconds: int, max: nat, clock: Clock)
        returns (executions: seq<Execution>, ghost q: Poll)
      requires Valid()
      modifies jobs.Values, clock
      ensures |old(clock.readings)| < |clock.readings| && old(clock.readings) <= clock.readings
      ensures forall ref :: ref in Scan(Table(), tags) ==> ref in jobs
      ensures Drives(old(Marks()), Request(tags, seconds, max, clock.readings[|old(clock.readings)|]),
                     clock.readings[|old(clock.readings)| + 1..], q)
      ensures !Active(q) && executions == q.got
      ensures var now := clock.readings[|old(clock.readings)|];
              forall x :: x in executions ==>
                x.ref in Scan(Table(), tags) && x.time < now + seconds * 1_000_000_000
      ensures var now := clock.readings[|old(clock.readings)|];
              Fixed(clock.readings[|old(clock.readings)|..], now) && |executions| < max && SchedulesLawful() ==>
                && Ascends(executions)
                && forall x :: x in executions <==> Due(Scan(Table(), tags), JobSchedules(), old(Marks()), now,
                                                        now + seconds * 1_000_000_000, x)
    {
      var now := clock.Now();
      ghost var marks, from := Marks(), |clock.readings|;
      ghost var p := Request(tags, seconds, max, now);
      ScanRegistered(if tags == [] then [""] else tags);
      assert clock.readings[from..] == [];
      executions, q := BuildBatch(tags, now + seconds * SECOND, max, clock, marks, p, from);
      Returned(JobSchedules(), marks, p, clock.readings, from, now);
    }

    /** The loop that asks for the next execution until there is none or the batch is full. */
    method BuildBatch(tags: seq<string>, fromNow: int, max: nat, clock: Clock, ghost marks: map<JobRef, int>,
                      ghost p: Poll, ghost from: nat)
        returns (executions: seq<Execution>, ghost q: Poll)
      requires Valid() && p.scan == Scan(Table(), tags) && p.before == fromNow && p.max == max
      requires p.pos == 0 && p.got == [] && marks.Keys == jobs.Keys && forall ref :: ref in p.scan ==> ref in jobs
      requires from == |clock.readings| && marks == Marks()
      modifies jobs.Values, clock
      ensures old(clock.readings) <= clock.readings
      ensures Drives(marks, p, clock.readings[from..], q) && !Active(q) && executions == q.got
    {
      executions := [];
      q := p;
      assert clock.readings[from..] == [];
      var i := 0;
      while i < max
        invariant i <= max && from <= |clock.readings|
        invariant old(clock.readings) <= clock.readings
        invariant Drives(marks, p, clock.readings[from..], q)
        invariant q.pos == 0 && q.got == executions && |executions| == i
      {
        var e;
        e, q := NextExecution(tags, fromNow, clock, marks, p, from, q);
        if e.None? {
          break;
        }
        executions := executions + [e.value];
        i := i + 1;
      }
    }

    ghost predicate SchedulesLawful()
      reads this
    {
      forall ref :: ref in jobs ==> Lawful(jobs[ref].schedule)
    }

    ghost function Request(tags: seq<string>, seconds: int, max: nat, now: int): Poll
      reads this
    {
      Poll(Scan(Table(), tags), now + seconds * SECOND, max, 0, [], now)
    }
  }

  /** The clock stood still. */
  ghost predicate Fixed(readings: seq<int>, now: int) {
    forall i :: 0 <= i < |readings| ==> readings[i] == now
  }

  /** What the batch of a poll holds, seen from the reading its request began with. */
  lemma Returned(schedules: map<JobRef, Schedule>, lastRun: Watermarks, p: Poll, readings: seq<int>, from: nat,
                 now: int)
    requires schedules.Keys == lastRun.Keys && forall ref :: ref in p.scan ==> ref in schedules
    requires p.pos == 0 && p.got == [] && 1 <= from <= |readings|
    requires !Active(Replay(schedules, lastRun, p, readings[from..]).0)
    ensures var got := Replay(schedules, lastRun, p, readings[from..]).0.got;
            && (forall x :: x in got ==> x.ref in p.scan && x.time < p.before)
            && (Fixed(readings[from - 1..], now) && |got| < p.max && AllLawful(schedules, p.scan) ==>
                  && Ascends(got)
                  && forall x :: x in got <==> Due(p.scan, schedules, lastRun, now, p.before, x))
  {
    ReplayWithin(schedules, lastRun, p, readings[from..]);
    if && Fixed(readings[from - 1..], now) && |Replay(schedules, lastRun, p, readings[from..]).0.got| < p.max
       && AllLawful(schedules, p.scan)
    {
      FixedRest(readings, from - 1, now);
      ReplayExact(schedules, lastRun, p, readings[from..], now);
    }
  }

  lemma FixedRest(readings: seq<int>, n: nat, now: int)
    requires n < |readings| && Fixed(readings[n..], now)
    ensures Fixed(readings[n + 1..], now)
  {
    var all, rest := readings[n..], readings[n + 1..];
    forall i | 0 <= i < |rest| ensures rest[i] == now {
      assert rest[i] == all[i + 1];
    }
  }

  /** A device-job as addDeviceJob lists it, with the reading made for it. */
  datatype Entry = Entry(ref: JobRef, schedule: Schedule, tags: seq<string>, created: int)

  ghost function RefsOf(entries: seq<Entry>): set<JobRef> {
    set entry | entry in entries :: entry.ref
  }

  /** The tag table, the watermarks and the schedules once these entries are appended. */
  function TableOf(table: map<string, seq<JobRef>>, entries: seq<Entry>): map<string, seq<JobRef>> {
    if entries == [] then table
    else
      var last := entries[|entries| - 1];
      AppendAll(TableOf(table, entries[..|entries| - 1]), last.tags, last.ref)
  }

  function MarksOf(marks: map<JobRef, int>, entries: seq<Entry>): map<JobRef, int> {
    if entries == [] then marks
    else MarksOf(marks, entries[..|entries| - 1])[entries[|entries| - 1].ref := entries[|entries| - 1].created]
  }

  function SchedulesOf(schedules: map<JobRef, Schedule>, entries: seq<Entry>): map<JobRef, Schedule> {
    if entries == [] then schedules
    else SchedulesOf(schedules, entries[..|entries| - 1])[entries[|entries| - 1].ref := entries[|entries| - 1].schedule]
  }

  /** The readings made since are those of the entries, in order. */
  ghost predicate Timed(entries: seq<Entry>, before: seq<int>, readings: seq<int>) {
    readings == before + seq(|entries|, i requires 0 <= i < |entries| => entries[i].created)
  }

  ghost predicate Distinct(entries: seq<Entry>) {
    forall i, j :: 0 <= i < j < |entries| ==> entries[i].ref != entries[j].ref
  }

  /** Each job of the device once, but those left, with its schedule and its device's tags. */
  ghost predicate Lists(entries: seq<Entry>, name: string, device: Device, left: set<string>) {
    && Distinct(entries)
    && (forall ref :: ref in RefsOf(entries) <==> ref.device == name && ref.job in device.jobs && ref.job !in left)
    && (forall i :: 0 <= i < |entries| ==>
          && entries[i].ref.job in device.jobs && entries[i].schedule == device.jobs[entries[i].ref.job]
          && entries[i].tags == EffectiveTags(device.tags))
  }

  lemma {:induction false} KeysOfMarks(marks: map<JobRef, int>, entries: seq<Entry>)
    ensures MarksOf(marks, entries).Keys == marks.Keys + RefsOf(entries)
  {
    if entries != [] {
      KeysOfMarks(marks, entries[..|entries| - 1]);
      assert entries == entries[..|entries| - 1] + [entries[|entries| - 1]];
      RefsSnoc(entries[..|entries| - 1], entries[|entries| - 1]);
    }
  }

  lemma Unlisted(marks: map<JobRef, int>, entries: seq<Entry>, name: string, device: Device, left: set<string>,
                 job: string)
    requires Lists(entries, name, device, left) && job in left && JobRef(name, job) !in marks
    ensures JobRef(name, job) !in MarksOf(marks, entries)
  {
    KeysOfMarks(marks, entries);
  }

  lemma EntriesSnoc(table: map<string, seq<JobRef>>, marks: map<JobRef, int>, schedules: map<JobRef, Schedule>,
                    entries: seq<Entry>, entry: Entry)
    ensures TableOf(table, entries + [entry]) == AppendAll(TableOf(table, entries), entry.tags, entry.ref)
    ensures MarksOf(marks, entries + [entry]) == MarksOf(marks, entries)[entry.ref := entry.created]
    ensures SchedulesOf(schedules, entries + [entry]) == SchedulesOf(schedules, entries)[entry.ref := entry.schedule]
    ensures forall before, readings :: Timed(entries, before, readings) ==>
            Timed(entries + [entry], before, readings + [entry.created])
  {
    assert (entries + [entry])[..|entries|] == entries;
  }

  lemma ListsSnoc(entries: seq<Entry>, name: string, device: Device, left: set<string>, entry: Entry)
    requires Lists(entries, name, device, left) && entry.ref.device == name && entry.ref.job in left
             && left <= device.jobs.Keys
    requires entry.schedule == device.jobs[entry.ref.job] && entry.tags == EffectiveTags(device.tags)
    ensures Lists(entries + [entry], name, device, left - {entry.ref.job})
  {
    RefsSnoc(entries, entry);
    assert forall i :: 0 <= i < |entries| ==> entries[i].ref in RefsOf(entries);
  }

  lemma RefsSnoc(entries: seq<Entry>, entry: Entry)
    ensures RefsOf(entries + [entry]) == RefsOf(entries) + {entry.ref}
  {
    assert forall e :: e in entries + [entry] <==> e in entries || e == entry;
    assert entry in entries + [entry];
  }

  lemma {:induction false} EntriesConcat(table: map<string, seq<JobRef>>, marks: map<JobRef, int>,
                                         schedules: map<JobRef, Schedule>,
                                         a: seq<Entry>, b: seq<Entry>)
    ensures TableOf(table, a + b) == TableOf(TableOf(table, a), b)
    ensures MarksOf(marks, a + b) == MarksOf(MarksOf(marks, a), b)
    ensures SchedulesOf(schedules, a + b) == SchedulesOf(SchedulesOf(schedules, a), b)
  {
    if b == [] {
      assert a + b == a;
    } else {
      assert (a + b)[..|a + b| - 1] == a + b[..|b| - 1];
      EntriesConcat(table, marks, schedules, a, b[..|b| - 1]);
    }
  }

  /** Each configured device-job once, but those of the devices left, with its schedule and its
      device's tags. */
  ghost predicate ListsAll(entries: seq<Entry>, devices: map<string, Device>, left: set<string>) {
    && Distinct(entries)
    && (forall ref :: ref in RefsOf(entries) <==> IsConfigured(devices, ref) && ref.device !in left)
    && (forall i :: 0 <= i < |entries| ==> Describes(entries[i], devices))
  }

  ghost predicate Describes(entry: Entry, devices: map<string, Device>) {
    && IsConfigured(devices, entry.ref)
    && entry.schedule == devices[entry.ref.device].jobs[entry.ref.job]
    && entry.tags == EffectiveTags(devices[entry.ref.device].tags)
  }

  lemma ListsAllConcat(a: seq<Entry>, b: seq<Entry>, devices: map<string, Device>, left: set<string>, name: string)
    requires ListsAll(a, devices, left) && name in left && name in devices && Lists(b, name, devices[name], {})
    ensures ListsAll(a + b, devices, left - {name})
  {
    assert forall e :: e in a + b <==> e in a || e in b;
    assert RefsOf(a + b) == RefsOf(a) + RefsOf(b);
    assert forall i :: 0 <= i < |a| ==> a[i].ref in RefsOf(a);
    assert forall i :: 0 <= i < |b| ==> b[i].ref in RefsOf(b);
  }

  lemma TimedConcat(a: seq<Entry>, b: seq<Entry>, before: seq<int>, middle: seq<int>, readings: seq<int>)
    requires Timed(a, before, middle) && Timed(b, middle, readings)
    ensures Timed(a + b, before, readings)
  {
  }

  /** NewLocalScheduler over all configured devices, in any order of their map: each configured
      device-job is listed once under each of its device's tags, in the order of the entries,
      and its watermark is the clock reading made for it. */
  method NewLocalScheduler(devices: map<string, Device>, clock: Clock)
      returns (s: LocalScheduler, ghost entries: seq<Entry>)
    modifies clock
    ensures fresh(s) && s.Valid() && fresh(s.jobs.Values)
    ensures ListsAll(entries, devices, {}) && Timed(entries, old(clock.readings), clock.readings)
    ensures s.Marks() == MarksOf(map[], entries)
    ensures s.JobSchedules() == SchedulesOf(map[], entries)
    ensures s.Table() == TableOf(map[], entries)
  {
    s := new LocalScheduler();
    entries := [];
    var left := devices.Keys;
    while left != {}
      invariant left <= devices.Keys && fresh(s) && s.Valid() && fresh(s.jobs.Values)
      invariant ListsAll(entries, devices, left) && Timed(entries, old(clock.readings), clock.readings)
      invariant s.Marks() == MarksOf(map[], entries)
      invariant s.JobSchedules() == SchedulesOf(map[], entries)
      invariant s.Table() == TableOf(map[], entries)
      decreases left
    {
      var name :| name in left;
      KeysOfMarks(map[], entries);
      assert forall job :: JobRef(name, job) !in s.Marks();
      ghost var middle := clock.readings;
      ghost var more := s.AddDeviceJob(name, devices[name], clock);
      ListsAllConcat(entries, more, devices, left, name);
      TimedConcat(entries, more, old(clock.readings), middle, clock.readings);
      EntriesConcat(map[], map[], map[], entries, more);
      entries := entries + more;
      left := left - {name};
    }
  }

  lemma {:induction false} TableHolds(table: map<string, seq<JobRef>>, entries: seq<Entry>, tag: string, ref: JobRef)
    ensures InTable(TableOf(table, entries), tag, ref) <==>
              InTable(table, tag, ref)
              || exists i :: 0 <= i < |entries| && entries[i].ref == ref && tag in entries[i].tags
  {
    if entries != [] {
      var init, last := entries[..|entries| - 1], entries[|entries| - 1];
      TableHolds(table, init, tag, ref);
      AppendedIn(TableOf(table, init), last.tags, last.ref, tag, ref);
      assert forall i :: 0 <= i < |init| ==> init[i] == entries[i];
    }
  }

  /** So the table is built from the configuration. */
  lemma TableIsBuilt(entries: seq<Entry>, devices: map<string, Device>)
    requires ListsAll(entries, devices, {})
    ensures BuiltFrom(TableOf(map[], entries), devices)
  {
    forall tag, ref ensures InTable(TableOf(map[], entries), tag, ref) <==> Tagged(devices, tag, ref) {
      TableHolds(map[], entries, tag, ref);
      if Tagged(devices, tag, ref) {
        assert ref in RefsOf(entries);
        var entry :| entry in entries && entry.ref == ref;
        var i :| 0 <= i < |entries| && entries[i] == entry;
        assert entries[i].ref == ref && tag in entries[i].tags;
      }
    }
  }

  predicate IsConfigured(devices: map<string, Device>, ref: JobRef) {
    ref.device in devices && ref.job in devices[ref.device].jobs
  }

  predicate Tagged(devices: map<string, Device>, tag: string, ref: JobRef) {
    IsConfigured(devices, ref) && tag in EffectiveTags(devices[ref.device].tags)
  }

  /** The tag table lists each configured device-job under exactly its device's tags. */
  ghost predicate BuiltFrom(table: map<string, seq<JobRef>>, devices: map<string, Device>) {
    forall tag, ref :: InTable(table, tag, ref) <==> Tagged(devices, tag, ref)
  }

  /** A request visits a device-job exactly when it names one of its device's tags; without
      tags, or with the empty one, it visits those of devices without tags. */
  lemma VisitedExactly(table: map<string, seq<JobRef>>, devices: map<string, Device>, tags: seq<string>, ref: JobRef)
    requires BuiltFrom(table, devices)
    ensures ref in Scan(table, tags) <==>
              && ref.device in devices && ref.job in devices[ref.device].jobs
              && var own := devices[ref.device].tags;
                 || (exists tag :: tag in tags && tag in own)
                 || ((tags == [] || "" in tags) && (own == [] || "" in own))
  {
    InScan(table, EffectiveTags(tags), ref);
    if ref in Scan(table, tags) {
      var tag :| tag in EffectiveTags(tags) && InTable(table, tag, ref);
      assert Tagged(devices, tag, ref);
    }
    if IsConfigured(devices, ref) {
      if tag :| tag in tags && tag in devices[ref.device].tags {
        assert Tagged(devices, tag, ref) && InTable(table, tag, ref);
      } else if (tags == [] || "" in tags) && (devices[ref.device].tags == [] || "" in devices[ref.device].tags) {
        assert "" in EffectiveTags(tags) && "" in EffectiveTags(devices[ref.device].tags);
        assert Tagged(devices, "", ref) && InTable(table, "", ref);
      }
    }
  }

  lemma {:induction false} InScan(table: map<string, seq<JobRef>>, tags: seq<string>, ref: JobRef)
    ensures ref in ScanTags(table, tags) <==> exists tag :: tag in tags && InTable(table, tag, ref)
  {
    if tags != [] {
      var init, last := tags[..|tags| - 1], tags[|tags| - 1];
      InScan(table, init, ref);
      assert tags == init + [last];
      if InTable(table, last, ref) {
        assert last in tags;
      }
    }
  }

  predicate InTable(table: map<string, seq<JobRef>>, tag: string, ref: JobRef) {
    tag in table && ref in table[tag]
  }

  function AppendRef(table: map<string, seq<JobRef>>, tag: string, ref: JobRef): map<string, seq<JobRef>> {
    table[tag := (if tag in table then table[tag] else []) + [ref]]
  }

  function AppendAll(table: map<string, seq<JobRef>>, tags: seq<string>, ref: JobRef): map<string, seq<JobRef>> {
    if tags == [] then table
    else AppendRef(AppendAll(table, tags[..|tags| - 1], ref), tags[|tags| - 1], ref)
  }

  lemma AppendOne(table: map<string, seq<JobRef>>, tag: string, ref: JobRef)
    ensures AppendAll(table, [tag], ref) == AppendRef(table, tag, ref)
  {
    assert [tag][..0] == [];
  }

  lemma {:induction false} AppendedIn(table: map<string, seq<JobRef>>, tags: seq<string>, added: JobRef, tag: string,
                                      ref: JobRef)
    ensures InTable(AppendAll(table, tags, added), tag, ref)
            <==> InTable(table, tag, ref) || (ref == added && tag in tags)
  {
    if tags != [] {
      var init, last := tags[..|tags| - 1], tags[|tags| - 1];
      AppendedIn(table, init, added, tag, ref);
      assert tags == init + [last];
    }
  }

  lemma SliceAt(a: seq<JobRef>, own: seq<JobRef>, whole: seq<JobRef>, j: nat)
    requires a + own <= whole && j < |own|
    ensures |a| + j < |whole| && whole[|a| + j] == own[j]
  {
    assert (a + own)[|a| + j] == own[j];
  }

  lemma {:induction false} ScanSlice(table: map<string, seq<JobRef>>, tags: seq<string>, i: nat)
    requires i < |tags|
    ensures var own := if tags[i] in table then table[tags[i]] else [];
            && ScanTags(table, tags[..i + 1]) == ScanTags(table, tags[..i]) + own
            && ScanTags(table, tags[..i + 1]) <= ScanTags(table, tags)
  {
    assert tags[..i + 1][..i] == tags[..i];
    if i + 1 < |tags| {
      var init := tags[..|tags| - 1];
      ScanSlice(table, init, i);
      assert init[..i + 1] == tags[..i + 1] && init[..i] == tags[..i];
    } else {
      assert tags[..i + 1] == tags;
    }
  }

  ghost function Refs(list: seq<DeviceJob>): seq<JobRef> {
    seq(|list|, i requires 0 <= i < |list| => list[i].ref)
  }
}
