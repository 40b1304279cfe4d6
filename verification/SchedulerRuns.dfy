/** A scheduler as NewLocalScheduler builds it is a set-up of the machine of all polls. */
module SchedulerRuns {
  import opened Prelude
  import opened Schedules
  import opened Dispatch
  import opened Coverage
  import opened LocalSchedulers

  /** What is fixed once these entries are listed. */
  function SetupOf(entries: seq<Entry>): Setup {
    Setup(SchedulesOf(map[], entries), TableOf(map[], entries), MarksOf(map[], entries))
  }

  lemma {:induction false} KeysHold(entries: seq<Entry>)
    ensures SchedulesOf(map[], entries).Keys == MarksOf(map[], entries).Keys == RefsOf(entries)
  {
    if entries != [] {
      var init, last := entries[..|entries| - 1], entries[|entries| - 1];
      KeysHold(init);
      assert entries == init + [last];
      RefsSnoc(init, last);
    }
  }

  /** The entry that gives a device-job its schedule and its watermark. */
  lemma {:induction false} EntryOf(entries: seq<Entry>, ref: JobRef) returns (i: nat)
    requires ref in MarksOf(map[], entries)
    ensures i < |entries| && Gives(entries[i], ref, SchedulesOf(map[], entries), MarksOf(map[], entries))
  {
    var init, last := entries[..|entries| - 1], entries[|entries| - 1];
    if ref == last.ref {
      i := |init|;
    } else {
      i := EntryOf(init, ref);
    }
  }

  ghost predicate Gives(entry: Entry, ref: JobRef, schedules: map<JobRef, Schedule>, marks: map<JobRef, int>) {
    && entry.ref == ref && ref in schedules && ref in marks
    && schedules[ref] == entry.schedule && marks[ref] == entry.created
  }

  predicate Ascending(readings: seq<int>) {
    forall i, j :: 0 <= i < j < |readings| ==> readings[i] <= readings[j]
  }

  function Readings(events: seq<Event>): seq<int> {
    seq(|events|, i requires 0 <= i < |events| => events[i].now)
  }

  /** The set-up is sound, and on a clock that does not go back every later run meets what
      coverage asks of its readings. */
  lemma BuiltSchedulerSupplies(devices: map<string, Device>, entries: seq<Entry>, before: seq<int>, readings: seq<int>,
                               events: seq<Event>)
    requires ListsAll(entries, devices, {}) && Timed(entries, before, readings)
    requires forall ref :: IsConfigured(devices, ref) ==> Lawful(devices[ref.device].jobs[ref.job])
    ensures WellFormed(SetupOf(entries))
    ensures Ascending(readings + Readings(events)) ==> Monotone(SetupOf(entries), events)
  {
    var setup := SetupOf(entries);
    KeysHold(entries);
    TableIsBuilt(entries, devices);
    forall tag, i | tag in setup.table && 0 <= i < |setup.table[tag]| ensures setup.table[tag][i] in setup.schedules {
      assert InTable(setup.table, tag, setup.table[tag][i]);
      assert Tagged(devices, tag, setup.table[tag][i]);
    }
    forall ref | ref in setup.schedules ensures Lawful(setup.schedules[ref]) && setup.created[ref] in readings {
      var i := EntryOf(entries, ref);
      assert Describes(entries[i], devices);
      assert readings[|before| + i] == entries[i].created;
    }
    if Ascending(readings + Readings(events)) {
      LaterReadings(readings, events);
    }
  }

  lemma LaterReadings(readings: seq<int>, events: seq<Event>)
    requires Ascending(readings + Readings(events))
    ensures forall i, j :: 0 <= i < j < |events| ==> events[i].now <= events[j].now
    ensures forall t, i :: t in readings && 0 <= i < |events| ==> t <= events[i].now
  {
    var all := readings + Readings(events);
    assert forall i :: 0 <= i < |events| ==> all[|readings| + i] == events[i].now;
    forall t, i | t in readings && 0 <= i < |events| ensures t <= events[i].now {
      var k :| 0 <= k < |readings| && readings[k] == t;
      assert all[k] == t && all[|readings| + i] == events[i].now;
    }
  }
}
