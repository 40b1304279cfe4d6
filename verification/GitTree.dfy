/** The files that committed jobs leave in a clone: where commitJob writes
    (controller/data_store.go:264-283, 321-343, 410-425) and what the write protocol's
    ordering makes of them. Git itself is not modelled: a commit is a write to the map. */
module GitTree {
  import opened Prelude
  import opened WriteJobs
  import opened WriteQueue
  import opened WritePool
  import opened WriteOrder
  import opened WriteProgress
  import opened WriteWitnesses

  const BY_DEVICE := "by_device"
  const BY_JOB := "by_job"

  /** A cleaned path below the clone's directory, component by component. */
  type Location = seq<string>

  function Split(path: string): (parts: seq<string>)
    ensures parts != []
  {
    if path == "" then [""]
    else
      var rest := Split(path[1..]);
      if path[0] == '/' then [""] + rest else [[path[0]] + rest[0]] + rest[1..]
  }

  /** filepath.Clean on a relative path. */
  function Clean(parts: seq<string>): Location {
    if parts == [] then []
    else
      var before, last := Clean(parts[..|parts| - 1]), parts[|parts| - 1];
      if last == "" || last == "." then before
      else if last == ".." && before != [] && before[|before| - 1] != ".." then before[..|before| - 1]
      else before + [last]
  }

  /** The path commitJob writes for a structure; None for one it does not recognise. */
  function Path(structure: string, job: WriteJob): Option<string> {
    if structure == BY_DEVICE then Some("by_device/" + job.device + "/" + job.name)
    else if structure == BY_JOB then Some("by_job/" + job.name + "/" + job.device)
    else None
  }

  function Locate(path: string): Location {
    Clean(Split(path))
  }

  predicate Known(structure: string) {
    structure == BY_DEVICE || structure == BY_JOB
  }

  function FileOf(structure: string, job: WriteJob): Location
    requires Known(structure)
  {
    Locate(Path(structure, job).value)
  }

  type Files = map<Location, string>

  /** commitJob's writes: one per structure, up to the first unrecognised one, and none at
      all for empty contents. */
  function Written(files: Files, structures: seq<string>, job: WriteJob): Files
    decreases |structures|
  {
    if structures == [] then files
    else
      match Path(structures[0], job)
      case None => files
      case Some(path) => Written(files[Locate(path) := job.contents], structures[1..], job)
  }

  function Commit(files: Files, structures: seq<string>, job: WriteJob): Files {
    if job.contents == "" then files else Written(files, structures, job)
  }

  function CommitAll(files: Files, structures: seq<string>, jobs: seq<WriteJob>): Files {
    if jobs == [] then files
    else Commit(CommitAll(files, structures, jobs[..|jobs| - 1]), structures, jobs[|jobs| - 1])
  }

  /** The working tree of one member of the pool. */
  class GitWorker {
    const structures: seq<string>
    var files: Files

    constructor (structures: seq<string>)
      ensures this.structures == structures && files == map[]
    {
      this.structures := structures;
      files := map[];
    }

    method CommitJob(job: WriteJob) returns (ok: bool)
      modifies this
      ensures files == Commit(old(files), structures, job)
      ensures ok <==> job.contents == "" || forall s :: s in structures ==> Known(s)
    {
      if |job.contents| > 0 {
        var i := 0;
        while i < |structures|
          invariant i <= |structures|
          invariant Written(files, structures[i..], job) == Written(old(files), structures, job)
          invariant forall s :: s in structures[..i] ==> Known(s)
        {
          match Path(structures[i], job)
          case None =>
            assert structures[i] in structures;
            return false;
          case Some(path) =>
            files := files[Locate(path) := job.contents];
          i := i + 1;
        }
        assert structures[..i] == structures;
      }
      return true;
    }

    /** Nothing is written when the clone cannot be cleaned. A job that cannot be committed is
        logged and the next one goes on; a failing push is only logged. */
    method PushJobs(jobs: seq<WriteJob>, cleaned: bool)
      modifies this
      ensures files == if cleaned then CommitAll(old(files), structures, jobs) else old(files)
    {
      if !cleaned {
        return;
      }
      var i := 0;
      while i < |jobs|
        invariant i <= |jobs|
        invariant files == CommitAll(old(files), structures, jobs[..i])
      {
        assert jobs[..i + 1][..i] == jobs[..i];
        var _ := CommitJob(jobs[i]);
        i := i + 1;
      }
      assert jobs[..i] == jobs;
    }
  }

  // ----- Keys and paths -----

  predicate ValidName(name: string) {
    name != "" && name != "." && name != ".." && '/' !in name && JOB_KEY_SPLIT !in name
  }

  predicate ValidJob(job: WriteJob) {
    ValidName(job.device) && ValidName(job.name)
  }

  /** Nothing in the path is dropped or resolved by filepath.Clean. */
  predicate PlainParts(parts: seq<string>) {
    forall i :: 0 <= i < |parts| ==> parts[i] != "" && parts[i] != "." && parts[i] != ".."
  }

  /** Slashes in the names are allowed. */
  predicate PlainJob(job: WriteJob) {
    PlainName(job.device) && PlainName(job.name)
  }

  predicate PlainName(name: string) {
    PlainParts(Split(name)) && JOB_KEY_SPLIT !in name
  }

  lemma {:induction false} SplitPlain(name: string)
    requires '/' !in name
    ensures Split(name) == [name]
  {
    if name != "" {
      SplitPlain(name[1..]);
      assert [name[0]] + name[1..] == name;
    }
  }

  lemma ValidIsPlain(job: WriteJob)
    requires ValidJob(job)
    ensures PlainJob(job)
  {
    SplitPlain(job.device);
    SplitPlain(job.name);
  }

  lemma {:induction false} SplitJoin(a: string, b: string)
    ensures Split(a + "/" + b) == Split(a) + Split(b)
  {
    var path := a + "/" + b;
    if a == "" {
      assert path[1..] == b;
    } else {
      assert path[1..] == a[1..] + "/" + b;
      SplitJoin(a[1..], b);
    }
  }

  /** Different paths have different components. */
  lemma {:induction false} SplitOnce(a: string, b: string)
    requires Split(a) == Split(b)
    ensures a == b
  {
    SplitEmpty(a);
    SplitEmpty(b);
    if a != "" && b != "" {
      SplitTail(a, b);
      SplitOnce(a[1..], b[1..]);
      assert a == [a[0]] + a[1..] && b == [b[0]] + b[1..];
    }
  }

  lemma SplitEmpty(a: string)
    ensures Split(a) == [""] <==> a == ""
  {
  }

  lemma SplitTail(a: string, b: string)
    requires a != "" && b != "" && Split(a) == Split(b)
    ensures a[0] == b[0] && Split(a[1..]) == Split(b[1..])
  {
    var x, y := Split(a[1..]), Split(b[1..]);
    if a[0] == '/' {
      assert Split(a)[0] == "";
      assert x == Split(a)[1..] && y == Split(b)[1..];
    } else {
      assert Split(a)[0] == [a[0]] + x[0] && b[0] != '/';
      assert Split(b)[0] == [b[0]] + y[0];
      assert x[0] == Split(a)[0][1..] == Split(b)[0][1..] == y[0];
      assert x == [x[0]] + Split(a)[1..] && y == [y[0]] + Split(b)[1..];
    }
  }

  lemma {:induction false} CleanPlain(parts: seq<string>)
    requires PlainParts(parts)
    ensures Clean(parts) == parts
  {
    if parts != [] {
      CleanPlain(parts[..|parts| - 1]);
    }
  }

  /** The path below the structure's directory. */
  function Inside(structure: string, job: WriteJob): string {
    if structure == BY_DEVICE then job.device + "/" + job.name else job.name + "/" + job.device
  }

  lemma LocationParts(structure: string, job: WriteJob)
    requires Known(structure) && PlainJob(job)
    ensures FileOf(structure, job) == [structure] + Split(Inside(structure, job))
  {
    if structure == BY_DEVICE {
      assert "by_device/" == BY_DEVICE + "/";
      Located(BY_DEVICE, job.device, job.name);
    } else {
      assert "by_job/" == BY_JOB + "/";
      Located(BY_JOB, job.name, job.device);
    }
  }

  lemma Located(structure: string, first: string, second: string)
    requires Known(structure) && PlainName(first) && PlainName(second)
    ensures Locate(structure + "/" + first + "/" + second) == [structure] + Split(first + "/" + second)
  {
    Rejoin(structure, first, second);
    SplitJoin(first, second);
    Rooted(structure, first + "/" + second);
  }

  lemma Rooted(root: string, inside: string)
    requires '/' !in root && root != "" && root != "." && root != ".." && PlainParts(Split(inside))
    ensures Locate(root + "/" + inside) == [root] + Split(inside)
  {
    SplitPlain(root);
    SplitJoin(root, inside);
    CleanPlain([root] + Split(inside));
  }

  /** Slashes in names or not: two jobs share a file exactly when their joined names agree. */
  lemma SharedFileExactly(s: string, a: WriteJob, t: string, b: WriteJob)
    requires Known(s) && Known(t) && PlainJob(a) && PlainJob(b)
    ensures FileOf(s, a) == FileOf(t, b) <==> s == t && Inside(s, a) == Inside(t, b)
  {
    LocationParts(s, a);
    LocationParts(t, b);
    if FileOf(s, a) == FileOf(t, b) {
      assert FileOf(s, a)[0] == FileOf(t, b)[0];
      assert FileOf(s, a)[1..] == FileOf(t, b)[1..];
      SplitOnce(Inside(s, a), Inside(t, b));
    }
  }

  lemma SplitBound(a: WriteJob, b: WriteJob)
    requires Key(a) == Key(b) && JOB_KEY_SPLIT !in b.device
    ensures |b.device| <= |a.device|
  {
    assert Key(a)[|a.device|] == JOB_KEY_SPLIT;
    assert forall i :: 0 <= i < |b.device| ==> Key(b)[i] == b.device[i] && b.device[i] in b.device;
  }

  lemma KeySplitsUniquely(a: WriteJob, b: WriteJob)
    requires JOB_KEY_SPLIT !in a.device && JOB_KEY_SPLIT !in b.device
    ensures Key(a) == Key(b) <==> a.device == b.device && a.name == b.name
  {
    if Key(a) == Key(b) {
      SplitBound(a, b);
      SplitBound(b, a);
      assert a.device == Key(a)[..|a.device|] == b.device;
      assert a.name == Key(a)[|a.device| + 1..] == b.name;
    }
  }

  lemma {:induction false} JoinedUniquely(a: string, b: string, c: string, d: string)
    requires '/' !in a && '/' !in b && a + "/" + b == c + "/" + d
    ensures a == c && b == d
  {
    SplitPlain(a);
    SplitPlain(b);
    SplitJoin(a, b);
    SplitJoin(c, d);
    assert |Split(c)| == 1 && |Split(d)| == 1;
    assert Split(c)[0] == Split(a + "/" + b)[0] && Split(d)[0] == Split(a + "/" + b)[1];
    SplitOnce(a, c);
    SplitOnce(b, d);
  }

  /** Serialising per key is serialising per file, for names without slashes: two jobs share a
      file exactly when they share a key, and the two structures share no file. */
  lemma KeysArePaths(s: string, a: WriteJob, t: string, b: WriteJob)
    requires Known(s) && Known(t) && ValidJob(a) && ValidJob(b)
    ensures FileOf(s, a) == FileOf(t, b) <==> s == t && Key(a) == Key(b)
  {
    ValidIsPlain(a);
    ValidIsPlain(b);
    SharedFileExactly(s, a, t, b);
    KeySplitsUniquely(a, b);
    if s == t && Inside(s, a) == Inside(t, b) {
      if s == BY_DEVICE {
        JoinedUniquely(a.device, a.name, b.device, b.name);
      } else {
        JoinedUniquely(a.name, a.device, b.name, b.device);
      }
    }
  }

  /** A job whose file another key's job writes too. */
  ghost predicate Shares(s: string, a: WriteJob)
    requires Known(s)
  {
    exists b :: PlainJob(b) && Key(b) != Key(a) && FileOf(s, b) == FileOf(s, a)
  }

  /** The exact condition for a file to be its key's own: no slash in either name. */
  lemma OwnFileExactly(s: string, a: WriteJob)
    requires Known(s) && PlainJob(a)
    ensures Shares(s, a) <==> '/' in a.device || '/' in a.name
  {
    if '/' in a.device || '/' in a.name {
      var b := OtherJob(s, a);
      assert PlainJob(b) && Key(b) != Key(a) && FileOf(s, b) == FileOf(s, a);
    } else if Shares(s, a) {
      var b :| PlainJob(b) && Key(b) != Key(a) && FileOf(s, b) == FileOf(s, a);
      SharedFileExactly(s, b, s, a);
      if s == BY_DEVICE {
        JoinedUniquely(a.device, a.name, b.device, b.name);
      } else {
        JoinedUniquely(a.name, a.device, b.name, b.device);
      }
      assert false;
    }
  }

  /** With a slash in a name, the job one of whose names takes over what stands before it. */
  lemma OtherJob(s: string, a: WriteJob) returns (b: WriteJob)
    requires Known(s) && PlainJob(a) && ('/' in a.device || '/' in a.name)
    ensures PlainJob(b) && Key(b) != Key(a) && FileOf(s, b) == FileOf(s, a)
  {
    if s == BY_DEVICE {
      var head, tail := Moved(a.device, a.name);
      b := a.(device := head, name := tail);
    } else {
      var head, tail := Moved(a.name, a.device);
      b := a.(name := head, device := tail);
    }
    KeySplitsUniquely(b, a);
    SharedFileExactly(s, b, s, a);
  }

  /** With a slash on one side, the same path cut elsewhere. */
  lemma Moved(first: string, second: string) returns (head: string, tail: string)
    requires PlainName(first) && PlainName(second) && ('/' in first || '/' in second)
    ensures head + "/" + tail == first + "/" + second && head != first && PlainName(head) && PlainName(tail)
  {
    if '/' in second {
      var left, right := CutAt(second);
      SplitJoin(first, left);
      head, tail := first + "/" + left, right;
      Rejoin(first, left, right);
    } else {
      var left, right := CutAt(first);
      SplitJoin(right, second);
      head, tail := left, right + "/" + second;
      Rejoin(left, right, second);
    }
    assert |head| != |first|;
  }

  lemma Rejoin(a: string, b: string, c: string)
    ensures (a + "/" + b) + "/" + c == a + "/" + (b + "/" + c)
  {
  }

  lemma CutAt(name: string) returns (left: string, right: string)
    requires PlainName(name) && '/' in name
    ensures name == left + "/" + right && PlainName(left) && PlainName(right)
  {
    var i :| 0 <= i < |name| && name[i] == '/';
    left, right := name[..i], name[i + 1..];
    assert name == left + "/" + right;
    SplitJoin(left, right);
    PartsApart(Split(left), Split(right));
  }

  lemma PartsApart(a: seq<string>, b: seq<string>)
    requires PlainParts(a + b)
    ensures PlainParts(a) && PlainParts(b)
  {
    forall i | 0 <= i < |a| ensures a[i] == (a + b)[i] {
    }
    forall i | 0 <= i < |b| ensures b[i] == (a + b)[|a| + i] {
    }
  }

  /** Two workers never write the same file, in any reachable state. */
  lemma WorkersWriteApart(poolSize: nat, events: seq<Event>, repaired: bool, i: nat, j: nat, a: WriteJob, b: WriteJob,
                          s: string, t: string)
    requires Exec(poolSize, events, repaired).Some?
    requires var workers := Exec(poolSize, events, repaired).value.workers;
             && i < |workers| && j < |workers| && i != j
             && workers[i].Busy? && a in workers[i].jobs && workers[j].Busy? && b in workers[j].jobs
    requires Known(s) && Known(t) && ValidJob(a) && ValidJob(b)
    ensures FileOf(s, a) != FileOf(t, b)
  {
    var state := Exec(poolSize, events, repaired).value;
    ReachableExclusive(poolSize, events, repaired);
    KeysArePaths(s, a, t, b);
    if Key(a) == Key(b) {
      assert KeyExclusive(state, Key(a));
      assert IsOwner(state, i, Key(a)) && IsOwner(state, j, Key(a));
    }
  }

  // ----- What a file holds after any commits -----

  /** The last non-empty contents. */
  function Latest(jobs: seq<WriteJob>): Option<string> {
    if jobs == [] then None
    else if jobs[|jobs| - 1].contents != "" then Some(jobs[|jobs| - 1].contents)
    else Latest(jobs[..|jobs| - 1])
  }

  function Lookup(files: Files, at: Location): Option<string> {
    if at in files then Some(files[at]) else None
  }

  lemma {:induction false} WrittenAt(files: Files, structures: seq<string>, job: WriteJob, s: string, at: WriteJob)
    requires forall t :: t in structures ==> Known(t)
    requires Known(s) && ValidJob(job) && ValidJob(at)
    ensures Lookup(Written(files, structures, job), FileOf(s, at))
         == if s in structures && Key(job) == Key(at) then Some(job.contents) else Lookup(files, FileOf(s, at))
    decreases |structures|
  {
    if structures != [] {
      var t := structures[0];
      assert t in structures && structures == [t] + structures[1..];
      KeysArePaths(s, at, t, job);
      WrittenAt(files[FileOf(t, job) := job.contents], structures[1..], job, s, at);
    }
  }

  /** After any commits, a configured file holds the latest non-empty contents of its key. */
  lemma {:induction false} FileHoldsLatest(files: Files, structures: seq<string>, jobs: seq<WriteJob>, s: string,
                                           at: WriteJob)
    requires forall t :: t in structures ==> Known(t)
    requires s in structures && ValidJob(at) && forall job :: job in jobs ==> ValidJob(job)
    ensures var latest := Latest(Of(jobs, Key(at)));
            Lookup(CommitAll(files, structures, jobs), FileOf(s, at))
            == if latest.Some? then latest else Lookup(files, FileOf(s, at))
  {
    if jobs != [] {
      var init, last := jobs[..|jobs| - 1], jobs[|jobs| - 1];
      assert last in jobs;
      FileHoldsLatest(files, structures, init, s, at);
      CommitAt(CommitAll(files, structures, init), structures, last, s, at);
      LatestOf(jobs, Key(at));
    }
  }

  lemma CommitAt(files: Files, structures: seq<string>, job: WriteJob, s: string, at: WriteJob)
    requires forall t :: t in structures ==> Known(t)
    requires s in structures && ValidJob(job) && ValidJob(at)
    ensures Lookup(Commit(files, structures, job), FileOf(s, at))
         == if Key(job) == Key(at) && job.contents != "" then Some(job.contents) else Lookup(files, FileOf(s, at))
  {
    WrittenAt(files, structures, job, s, at);
  }

  lemma LatestOf(jobs: seq<WriteJob>, key: string)
    requires jobs != []
    ensures var init, last := jobs[..|jobs| - 1], jobs[|jobs| - 1];
            Latest(Of(jobs, key))
            == if Key(last) == key && last.contents != "" then Some(last.contents) else Latest(Of(init, key))
  {
    var init, last := jobs[..|jobs| - 1], jobs[|jobs| - 1];
    if Key(last) == key {
      var own := Of(jobs, key);
      assert own[..|own| - 1] == Of(init, key);
    }
  }

  /** The repository after the commits of a run, from an empty one. */
  ghost function Repository(s: System, structures: seq<string>): Files {
    CommitAll(map[], structures, s.committed)
  }

  ghost predicate ValidRun(s: System) {
    forall job :: job in s.stored ==> ValidJob(job)
  }

  lemma {:induction false} CommittedWereStored(poolSize: nat, events: seq<Event>, repaired: bool, job: WriteJob)
    requires Exec(poolSize, events, repaired).Some?
    requires var s := Exec(poolSize, events, repaired).value;
             || job in s.committed || job in InFlight(s.workers, Key(job))
             || job in Get(s.q.pending, Key(job)) || job in Get(s.q.waiting, Key(job))
    ensures job in Exec(poolSize, events, repaired).value.stored
  {
    if events == [] {
      InFlightUnowned(Init(poolSize), Key(job));
    } else {
      var s := LastStep(poolSize, events, repaired);
      var e := events[|events| - 1];
      ReachableExclusive(poolSize, events[..|events| - 1], repaired);
      StepOrigin(s, e, repaired, job);
      if e != StoreCall(job) {
        CommittedWereStored(poolSize, events[..|events| - 1], repaired, job);
      }
    }
  }

  /** A step brings no job into the system but the one stored. */
  lemma StepOrigin(s: System, e: Event, repaired: bool, job: WriteJob)
    requires Exclusive(s) && Enabled(s, e)
    requires var t := Next(s, e, repaired);
             || job in t.committed || job in InFlight(t.workers, Key(job))
             || job in Get(t.q.pending, Key(job)) || job in Get(t.q.waiting, Key(job))
    ensures || e == StoreCall(job) || job in s.committed || job in InFlight(s.workers, Key(job))
            || job in Get(s.q.pending, Key(job)) || job in Get(s.q.waiting, Key(job))
    ensures s.stored <= Next(s, e, repaired).stored
    ensures e == StoreCall(job) ==> job in Next(s, e, repaired).stored
  {
    var key := Key(job);
    var t := Next(s, e, repaired);
    StepMoves(s, e, repaired, key);
    InConcat(s, e, t, job);
    OfMembers(t.committed, key, job);
    OfMembers(s.committed, key, job);
    match e
    case StoreCall(other) => StoreQueues(s, other, key);
    case ClaimPending(w, order) => ClaimedBatch(s, order, key);
    case MarkCompleted(w) => FinishOrigin(s.q, s.workers[w].jobs, repaired, job);
    case _ =>
  }

  lemma {:induction false} FinishOrigin(q: Queues, jobs: seq<WriteJob>, repaired: bool, job: WriteJob)
    ensures var key := Key(job); var after := Finish(q, jobs, repaired);
            && (job in Get(after.pending, key) ==> job in Get(q.pending, key) || job in Get(q.waiting, key))
            && (job in Get(after.waiting, key) ==> job in Get(q.waiting, key))
  {
    if jobs != [] {
      var init, last := jobs[..|jobs| - 1], jobs[|jobs| - 1];
      FinishOrigin(q, init, repaired, job);
      var before := Finish(q, init, repaired);
      AppendGet(before.pending, Key(last), Get(before.waiting, Key(last)), Key(job));
    }
  }

  /** Freshness: wherever the writes of a key stay in order (the repaired protocol, or the
      shipped one before a promotion of that key), each of its files holds the latest of a
      prefix of what was stored, and of all of it once nothing of the key is left over. */
  lemma FilesAreFresh(poolSize: nat, events: seq<Event>, repaired: bool, structures: seq<string>, s: string,
                      at: WriteJob)
    requires Exec(poolSize, events, repaired).Some? && ValidRun(Exec(poolSize, events, repaired).value)
    requires repaired || Key(at) !in Exec(poolSize, events, repaired).value.promoted
    requires (forall t :: t in structures ==> Known(t)) && s in structures && ValidJob(at)
    ensures var state := Exec(poolSize, events, repaired).value;
            var key := Key(at);
            && Of(state.committed, key) <= Of(state.stored, key)
            && Lookup(Repository(state, structures), FileOf(s, at)) == Latest(Of(state.committed, key))
            && (InFlight(state.workers, key) == Get(state.q.pending, key) == Get(state.q.waiting, key) == [] ==>
                  Lookup(Repository(state, structures), FileOf(s, at)) == Latest(Of(state.stored, key)))
  {
    var state := Exec(poolSize, events, repaired).value;
    var key := Key(at);
    ReachableTidy(poolSize, events, repaired, key);
    forall job | job in state.committed ensures ValidJob(job) {
      CommittedWereStored(poolSize, events, repaired, job);
    }
    FileHoldsLatest(map[], structures, state.committed, s, at);
    StartsWith(Of(state.stored, key), Of(state.committed, key), InFlight(state.workers, key),
      Get(state.q.pending, key), Get(state.q.waiting, key));
  }

  lemma StartsWith(whole: seq<WriteJob>, a: seq<WriteJob>, b: seq<WriteJob>, c: seq<WriteJob>, d: seq<WriteJob>)
    requires whole == a + b + c + d
    ensures a <= whole
    ensures b == c == d == [] ==> whole == a
  {
  }

  /** A drained store has every file at the latest contents stored for it, in both layouts. */
  lemma DrainedFilesAreFresh(poolSize: nat, events: seq<Event>, structures: seq<string>, at: WriteJob)
    requires Exec(poolSize, events, false).Some? && ValidRun(Exec(poolSize, events, false).value)
    requires Drained(Exec(poolSize, events, false).value)
    requires (forall t :: t in structures ==> Known(t)) && ValidJob(at)
    ensures var state := Exec(poolSize, events, false).value;
            forall s :: s in structures ==>
              Lookup(Repository(state, structures), FileOf(s, at)) == Latest(Of(state.stored, Key(at)))
  {
    var state := Exec(poolSize, events, false).value;
    forall s | s in structures
      ensures Lookup(Repository(state, structures), FileOf(s, at)) == Latest(Of(state.stored, Key(at)))
    {
      forall job | job in state.committed ensures ValidJob(job) {
        CommittedWereStored(poolSize, events, false, job);
      }
      FileHoldsLatest(map[], structures, state.committed, s, at);
    }
  }

  /** The shipped protocol can put a file back: the newest contents stored are committed,
      and then overwritten with the older ones. */
  lemma StaleFile(older: WriteJob, newer: WriteJob) returns (events: seq<Event>)
    requires Key(older) == Key(newer) && ValidJob(older) && ValidJob(newer)
    requires older.contents != "" && newer.contents != "" && older.contents != newer.contents
    ensures Exec(2, events, false).Some?
    ensures var state := Exec(2, events, false).value;
            && Latest(Of(state.stored, Key(newer))) == Some(newer.contents)
            && Lookup(Repository(state, [BY_DEVICE]), FileOf(BY_DEVICE, newer)) == Some(older.contents)
  {
    events := StaleWrite(older, newer);
    var state := Exec(2, events, false).value;
    OfAll(state.stored, Key(newer));
    OfAll(state.committed, Key(newer));
    FileHoldsLatest(map[], [BY_DEVICE], state.committed, BY_DEVICE, newer);
  }
}
