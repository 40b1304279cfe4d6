/** The three maps of the git data store and the sections that update them under
    writesLock (controller/data_store.go:64-72, 161-246). */
module WriteQueue {
  import opened Prelude
  import opened WriteJobs

  type JobLists = map<string, seq<WriteJob>>

  datatype Queues = Queues(pending: JobLists, running: map<string, set<string>>, waiting: JobLists)

  const EMPTY := Queues(map[], map[], map[])

  function Get(lists: JobLists, key: string): seq<WriteJob> {
    if key in lists then lists[key] else []
  }

  function Append(lists: JobLists, key: string, jobs: seq<WriteJob>): JobLists {
    if jobs == [] then lists
    else lists[key := if key in lists then lists[key] + jobs else jobs]
  }

  /** The queues after Store's locked section: park behind a running key, else make pending. */
  function Accept(q: Queues, job: WriteJob): Queues {
    if Key(job) in q.running then q.(waiting := Append(q.waiting, Key(job), [job]))
    else q.(pending := Append(q.pending, Key(job), [job]))
  }

  /** The lists of the given keys, one after the other. */
  function Flatten(lists: JobLists, order: seq<string>): seq<WriteJob> {
    if order == [] then []
    else Flatten(lists, order[..|order| - 1]) + Get(lists, order[|order| - 1])
  }

  function MarkRunning(running: map<string, set<string>>, lists: JobLists,
                       order: seq<string>): map<string, set<string>>
  {
    if order == [] then running
    else
      var before := MarkRunning(running, lists, order[..|order| - 1]);
      var key := order[|order| - 1];
      before[key := Marked(before, key) + IdsIn(Get(lists, key))]
  }

  /** The ids marked as running for a key. */
  function Marked(running: map<string, set<string>>, key: string): set<string> {
    if key in running then running[key] else {}
  }

  function IdsIn(jobs: seq<WriteJob>): set<string> {
    set job | job in jobs :: Id(job)
  }

  /** The queues after nextJobs claims everything pending, ranging over the keys in this order. */
  function Claim(q: Queues, order: seq<string>): Queues {
    Queues(map[], MarkRunning(q.running, q.pending, order), q.waiting)
  }

  /** Unmarking one job: the whole key goes with the last id. */
  function Release(running: map<string, set<string>>, job: WriteJob): map<string, set<string>> {
    var key, id := Key(job), Id(job);
    if key !in running || id !in running[key] then running
    else if |running[key]| == 1 then running - {key}
    else running[key := running[key] - {id}]
  }

  /** One round of markJobsCompleted's loop. The shipped code leaves the parked list in place
      after promoting it; with `repaired` the promotion also clears it. */
  function FinishOne(q: Queues, job: WriteJob, repaired: bool): Queues {
    Queues(
      Append(q.pending, Key(job), Get(q.waiting, Key(job))),
      Release(q.running, job),
      if repaired then q.waiting - {Key(job)} else q.waiting)
  }

  function Finish(q: Queues, jobs: seq<WriteJob>, repaired: bool): Queues {
    if jobs == [] then q
    else FinishOne(Finish(q, jobs[..|jobs| - 1], repaired), jobs[|jobs| - 1], repaired)
  }

  /** Whether finishing these jobs moves anything from the parked lists to pending. */
  predicate Promotes(q: Queues, jobs: seq<WriteJob>) {
    exists job :: job in jobs && Get(q.waiting, Key(job)) != []
  }

  method MarkIds(ids: set<string>, jobList: seq<WriteJob>) returns (writeIds: set<string>)
    ensures writeIds == ids + IdsIn(jobList)
  {
    writeIds := ids;
    var i := 0;
    while i < |jobList|
      invariant i <= |jobList| && writeIds == ids + IdsIn(jobList[..i])
    {
      IdsInSnoc(jobList, i);
      writeIds := writeIds + {Id(jobList[i])};
      i := i + 1;
    }
    assert jobList[..i] == jobList;
  }

  /** The data store object: each method is one section guarded by writesLock. */
  class GitDataStore {
    var pendingWrites: JobLists
    var runningWriteIds: map<string, set<string>>
    var waitingOnRunningWrites: JobLists

    ghost function State(): Queues
      reads this
    {
      Queues(pendingWrites, runningWriteIds, waitingOnRunningWrites)
    }

    constructor ()
      ensures State() == EMPTY
    {
      pendingWrites, runningWriteIds, waitingOnRunningWrites := map[], map[], map[];
    }

    method Store(job: WriteJob)
      modifies this
      ensures State() == Accept(old(State()), job)
    {
      var key := Key(job);
      if key in runningWriteIds {
        if key in waitingOnRunningWrites {
          waitingOnRunningWrites := waitingOnRunningWrites[key := waitingOnRunningWrites[key] + [job]];
        } else {
          waitingOnRunningWrites := waitingOnRunningWrites[key := [job]];
        }
      } else {
        if key in pendingWrites {
          pendingWrites := pendingWrites[key := pendingWrites[key] + [job]];
        } else {
          pendingWrites := pendingWrites[key := [job]];
        }
      }
    }

    method NextJobs() returns (jobs: seq<WriteJob>, ghost order: seq<string>)
      modifies this
      ensures IsOrder(order, old(pendingWrites).Keys)
      ensures jobs == Flatten(old(pendingWrites), order)
      ensures State() == Claim(old(State()), order)
    {
      jobs, order := [], [];
      if pendingWrites == map[] {
        return;
      }
      var left := pendingWrites.Keys;
      while left != {}
        invariant left <= pendingWrites.Keys
        invariant pendingWrites == old(pendingWrites)
        invariant waitingOnRunningWrites == old(waitingOnRunningWrites)
        invariant IsOrder(order, pendingWrites.Keys - left)
        invariant jobs == Flatten(pendingWrites, order)
        invariant runningWriteIds == MarkRunning(old(runningWriteIds), pendingWrites, order)
        decreases left
      {
        var key :| key in left;
        var jobList := pendingWrites[key];
        jobs := jobs + jobList;
        MarkListRunning(key, jobList);
        OrderSnoc(order, pendingWrites.Keys, left, key);
        left, order := left - {key}, order + [key];
      }
      pendingWrites := map[];
    }

    method MarkListRunning(key: string, jobList: seq<WriteJob>)
      modifies this`runningWriteIds
      ensures runningWriteIds == old(runningWriteIds)[key := Marked(old(runningWriteIds), key) + IdsIn(jobList)]
    {
      var writeIds := MarkIds(Marked(runningWriteIds, key), jobList);
      runningWriteIds := runningWriteIds[key := writeIds];
    }

    method MarkJobsCompleted(jobs: seq<WriteJob>) returns (anythingEnqueued: bool)
      modifies this
      ensures State() == Finish(old(State()), jobs, false)
      ensures anythingEnqueued <==> Promotes(old(State()), jobs)
    {
      anythingEnqueued := false;
      var i := 0;
      while i < |jobs|
        invariant i <= |jobs|
        invariant State() == Finish(old(State()), jobs[..i], false)
        invariant waitingOnRunningWrites == old(waitingOnRunningWrites)
        invariant anythingEnqueued <==> Promotes(old(State()), jobs[..i])
      {
        assert jobs[..i + 1] == jobs[..i] + [jobs[i]];
        Unmark(jobs[i]);
        var enqueued := EnqueueWaiting(Key(jobs[i]));
        anythingEnqueued := anythingEnqueued || enqueued;
        i := i + 1;
      }
      assert jobs[..i] == jobs;
    }

    method Unmark(job: WriteJob)
      modifies this`runningWriteIds
      ensures runningWriteIds == Release(old(runningWriteIds), job)
    {
      var key := Key(job);
      if key in runningWriteIds {
        var id := Id(job);
        if id in runningWriteIds[key] {
          if |runningWriteIds[key]| == 1 {
            runningWriteIds := runningWriteIds - {key};
          } else {
            runningWriteIds := runningWriteIds[key := runningWriteIds[key] - {id}];
          }
        }
      }
    }

    method EnqueueWaiting(key: string) returns (enqueued: bool)
      modifies this`pendingWrites
      ensures pendingWrites == Append(old(pendingWrites), key, Get(waitingOnRunningWrites, key))
      ensures enqueued <==> Get(waitingOnRunningWrites, key) != []
    {
      enqueued := false;
      var waiting := Get(waitingOnRunningWrites, key);
      var i := 0;
      while i < |waiting|
        invariant i <= |waiting|
        invariant pendingWrites == Append(old(pendingWrites), key, waiting[..i])
        invariant enqueued <==> i > 0
      {
        assert waiting[..i + 1] == waiting[..i] + [waiting[i]];
        AppendSnoc(old(pendingWrites), key, waiting[..i], waiting[i]);
        enqueued := true;
        if key in pendingWrites {
          pendingWrites := pendingWrites[key := pendingWrites[key] + [waiting[i]]];
        } else {
          pendingWrites := pendingWrites[key := [waiting[i]]];
        }
        i := i + 1;
      }
      assert waiting[..i] == waiting;
    }
  }

  lemma AppendSnoc(lists: JobLists, key: string, jobs: seq<WriteJob>, job: WriteJob)
    ensures Append(Append(lists, key, jobs), key, [job]) == Append(lists, key, jobs + [job])
  {
    if jobs == [] {
      assert jobs + [job] == [job];
    } else if key in lists {
      assert (lists[key] + jobs) + [job] == lists[key] + (jobs + [job]);
    }
  }

  /** A key's list, when present, is non-empty and holds jobs of that key only. */
  ghost predicate Listed(lists: JobLists, key: string) {
    && (key in lists ==> lists[key] != [])
    && (forall job :: job in Get(lists, key) ==> Key(job) == key)
  }

  ghost predicate WellKeyed(lists: JobLists) {
    forall key :: Listed(lists, key)
  }

  // ----- What finishing a batch does to one key -----

  /** However the ids of the batch repeat, a key ends up released exactly when the batch
      carries all of its running ids; otherwise the other ids stay marked. */
  lemma {:induction false} FinishReleases(q: Queues, jobs: seq<WriteJob>, repaired: bool, key: string)
    requires key in q.running ==> q.running[key] != {}
    ensures Marked(Finish(q, jobs, repaired).running, key) == Marked(q.running, key) - Ids(jobs, key)
    ensures key in Finish(q, jobs, repaired).running ==> Finish(q, jobs, repaired).running[key] != {}
  {
    if jobs == [] {
      assert Ids(jobs, key) == {};
    } else {
      var init, last := jobs[..|jobs| - 1], jobs[|jobs| - 1];
      FinishReleases(q, init, repaired, key);
      IdsSnoc(jobs, key);
      ReleaseMarks(Finish(q, init, repaired).running, last, key);
      DiffDiff(Marked(q.running, key), Ids(init, key), if Key(last) == key then {Id(last)} else {});
    }
  }

  lemma DiffDiff(a: set<string>, b: set<string>, c: set<string>)
    ensures a - b - c == a - (b + c)
  {
  }

  lemma IdsSnoc(jobs: seq<WriteJob>, key: string)
    requires jobs != []
    ensures var last := jobs[|jobs| - 1];
            Ids(jobs, key) == Ids(jobs[..|jobs| - 1], key) + if Key(last) == key then {Id(last)} else {}
  {
    assert jobs == jobs[..|jobs| - 1] + [jobs[|jobs| - 1]];
  }

  lemma ReleaseMarks(running: map<string, set<string>>, job: WriteJob, key: string)
    requires key in running ==> running[key] != {}
    ensures Marked(Release(running, job), key) == Marked(running, key) - if Key(job) == key then {Id(job)} else {}
    ensures key in Release(running, job) ==> Release(running, job)[key] != {}
  {
    var id := Id(job);
    if Key(job) == key && key in running && id in running[key] {
      assert |running[key] - {id}| == |running[key]| - 1;
      if |running[key]| == 1 {
        assert running[key] - {id} == {};
      }
    }
  }

  /** The shipped promotion: a key's parked list is appended to its pending list once for
      every job of that key in the batch, and stays parked. */
  lemma {:induction false} FinishPromotesRepeatedly(q: Queues, jobs: seq<WriteJob>, key: string)
    ensures Get(Finish(q, jobs, false).pending, key)
              == Get(q.pending, key) + Repeat(Get(q.waiting, key), |Of(jobs, key)|)
    ensures Finish(q, jobs, false).waiting == q.waiting
  {
    if jobs != [] {
      var init, last := jobs[..|jobs| - 1], jobs[|jobs| - 1];
      FinishPromotesRepeatedly(q, init, key);
      var before := Finish(q, init, false);
      AppendGet(before.pending, Key(last), Get(before.waiting, Key(last)), key);
      if Key(last) == key {
        var n := |Of(init, key)|;
        assert |Of(jobs, key)| == n + 1;
        Assoc(Get(q.pending, key), Repeat(Get(q.waiting, key), n), Get(q.waiting, key));
      }
    }
  }

  lemma AppendGet(lists: JobLists, at: string, jobs: seq<WriteJob>, key: string)
    ensures Get(Append(lists, at, jobs), key) == if key == at then Get(lists, key) + jobs else Get(lists, key)
    ensures key in Append(lists, at, jobs) <==> key in lists || (key == at && jobs != [])
  {
  }

  /** The repaired promotion: the parked list moves to pending once and is cleared. */
  lemma {:induction false} FinishPromotesOnce(q: Queues, jobs: seq<WriteJob>, key: string)
    ensures Get(Finish(q, jobs, true).pending, key)
         == Get(q.pending, key) + if key in Keys(jobs) then Get(q.waiting, key) else []
    ensures Get(Finish(q, jobs, true).waiting, key) == if key in Keys(jobs) then [] else Get(q.waiting, key)
    ensures key in Finish(q, jobs, true).waiting <==> key in q.waiting && key !in Keys(jobs)
  {
    if jobs != [] {
      var init, last := jobs[..|jobs| - 1], jobs[|jobs| - 1];
      FinishPromotesOnce(q, init, key);
      KeysSnoc(jobs);
      var before := Finish(q, init, true);
      AppendGet(before.pending, Key(last), Get(before.waiting, Key(last)), key);
    }
  }

  lemma KeysSnoc(jobs: seq<WriteJob>)
    requires jobs != []
    ensures Keys(jobs) == Keys(jobs[..|jobs| - 1]) + {Key(jobs[|jobs| - 1])}
  {
    assert jobs == jobs[..|jobs| - 1] + [jobs[|jobs| - 1]];
  }

  lemma IdsInSnoc(jobs: seq<WriteJob>, i: nat)
    requires i < |jobs|
    ensures IdsIn(jobs[..i + 1]) == IdsIn(jobs[..i]) + {Id(jobs[i])}
  {
    assert jobs[..i + 1] == jobs[..i] + [jobs[i]];
  }

  // ----- What claiming does to one key -----

  lemma LastApart(order: seq<string>, key: string)
    requires order != [] && forall i, j :: 0 <= i < j < |order| ==> order[i] != order[j]
    ensures key in order <==> key in order[..|order| - 1] || key == order[|order| - 1]
    ensures order[|order| - 1] !in order[..|order| - 1]
  {
    assert order == order[..|order| - 1] + [order[|order| - 1]];
  }

  lemma {:induction false} ClaimTakesKey(q: Queues, order: seq<string>, key: string)
    requires forall i, j :: 0 <= i < j < |order| ==> order[i] != order[j]
    requires WellKeyed(q.pending)
    ensures Of(Flatten(q.pending, order), key) == if key in order then Get(q.pending, key) else []
  {
    if order != [] {
      var init, last := order[..|order| - 1], order[|order| - 1];
      ClaimTakesKey(q, init, key);
      assert Listed(q.pending, last);
      LastApart(order, key);
      OfConcat(Flatten(q.pending, init), Get(q.pending, last), key);
      if last == key {
        OfAll(Get(q.pending, last), key);
      } else {
        OfNone(Get(q.pending, last), key);
      }
    }
  }

  lemma {:induction false} ClaimMarksKey(q: Queues, order: seq<string>, key: string)
    requires forall i, j :: 0 <= i < j < |order| ==> order[i] != order[j]
    ensures Marked(Claim(q, order).running, key)
         == Marked(q.running, key) + if key in order then IdsIn(Get(q.pending, key)) else {}
    ensures key in Claim(q, order).running <==> key in q.running || key in order
  {
    if order != [] {
      var init, last := order[..|order| - 1], order[|order| - 1];
      ClaimMarksKey(q, init, key);
      var before := MarkRunning(q.running, q.pending, init);
      assert MarkRunning(q.running, q.pending, order)
               == before[last := Marked(before, last) + IdsIn(Get(q.pending, last))];
      if last == key {
        assert key !in init;
      } else {
        assert key in order <==> key in init;
      }
    }
  }
}
