/** The unit of work of the git data store: one finished execution of a job on a device
    (controller/data_store.go:36-62). Strings stand for Go strings, one char per byte. */
module WriteJobs {

  datatype WriteJob = WriteJob(device: string, name: string, time: int, contents: string)

  const JOB_KEY_SPLIT: char := '\U{0007}'

  function Key(job: WriteJob): string {
    job.device + [JOB_KEY_SPLIT] + job.name
  }

  function Id(job: WriteJob): string {
    Key(job) + [JOB_KEY_SPLIT] + FormatInt(job.time)
  }

  /** strconv.FormatInt in base ten. */
  function FormatInt(n: int): string {
    if n < 0 then "-" + Digits(-n) else Digits(n)
  }

  function Digits(n: nat): string {
    (if n < 10 then "" else Digits(n / 10)) + [Digit(n % 10)]
  }

  function Digit(d: nat): char
    requires d < 10
  {
    ['0', '1', '2', '3', '4', '5', '6', '7', '8', '9'][d]
  }

  lemma DigitRange(d: nat)
    requires d < 10
    ensures Digit(d) as int == '0' as int + d
  {
    assert d == 0 || d == 1 || d == 2 || d == 3 || d == 4 || d == 5 || d == 6 || d == 7 || d == 8 || d == 9;
  }

  /** Reading a number back. */
  function Read(digits: string): int {
    if digits == "" then 0
    else Read(digits[..|digits| - 1]) * 10 + (digits[|digits| - 1] as int - '0' as int)
  }

  predicate IsDigit(c: char) {
    '0' as int <= c as int <= '9' as int
  }

  lemma ReadSnoc(front: string, d: nat)
    requires d < 10
    ensures Read(front + [Digit(d)]) == Read(front) * 10 + d
  {
    DigitRange(d);
    assert (front + [Digit(d)])[..|front|] == front;
  }

  lemma {:induction false} DigitsRead(n: nat)
    ensures Read(Digits(n)) == n && Digits(n) != ""
  {
    if n >= 10 {
      DigitsRead(n / 10);
      ReadSnoc(Digits(n / 10), n % 10);
    } else {
      ReadSnoc("", n);
    }
  }

  lemma {:induction false} DigitsAre(n: nat)
    ensures forall c :: c in Digits(n) ==> IsDigit(c)
  {
    DigitRange(n % 10);
    if n >= 10 {
      DigitsAre(n / 10);
    }
  }

  lemma FormatOnce(a: int, b: int)
    requires FormatInt(a) == FormatInt(b)
    ensures a == b
  {
    Signed(a);
    Signed(b);
    DigitsRead(if a < 0 then -a else a);
    DigitsRead(if b < 0 then -b else b);
  }

  lemma Signed(n: int)
    ensures FormatInt(n) != "" && (FormatInt(n)[0] == '-' <==> n < 0)
    ensures (if n < 0 then FormatInt(n)[1..] else FormatInt(n)) == Digits(if n < 0 then -n else n)
  {
    var m := if n < 0 then -n else n;
    DigitsRead(m);
    DigitsAre(m);
    assert Digits(m)[0] in Digits(m);
  }

  /** Ids tell jobs of one key apart exactly by their times, whatever the names hold. */
  lemma IdsApart(a: WriteJob, b: WriteJob)
    ensures Id(a) == Id(b) <==> Key(a) == Key(b) && a.time == b.time
  {
    if Id(a) == Id(b) {
      NoSplit(a.time);
      NoSplit(b.time);
      LastSplit(Key(a), FormatInt(a.time), Key(b), FormatInt(b.time));
      FormatOnce(a.time, b.time);
    }
  }

  lemma NoSplit(n: int)
    ensures JOB_KEY_SPLIT !in FormatInt(n)
  {
    DigitsAre(if n < 0 then -n else n);
  }

  /** The last separator splits a text in one way only. */
  lemma LastSplit(a: string, x: string, b: string, y: string)
    requires JOB_KEY_SPLIT !in x && JOB_KEY_SPLIT !in y
    requires a + [JOB_KEY_SPLIT] + x == b + [JOB_KEY_SPLIT] + y
    ensures a == b && x == y
  {
    SplitEnd(a, x, b, y);
    SplitEnd(b, y, a, x);
    var all := a + [JOB_KEY_SPLIT] + x;
    assert a == all[..|a|] && b == (b + [JOB_KEY_SPLIT] + y)[..|b|];
    assert x == all[|a| + 1..] && y == (b + [JOB_KEY_SPLIT] + y)[|b| + 1..];
  }

  lemma SplitEnd(a: string, x: string, b: string, y: string)
    requires JOB_KEY_SPLIT !in y && a + [JOB_KEY_SPLIT] + x == b + [JOB_KEY_SPLIT] + y
    ensures |a| <= |b|
  {
    var all := b + [JOB_KEY_SPLIT] + y;
    assert (a + [JOB_KEY_SPLIT] + x)[|a|] == JOB_KEY_SPLIT;
    assert forall i :: |b| < i < |all| ==> all[i] == y[i - |b| - 1] && all[i] in y;
  }

  /** The jobs of one key, in order. */
  function Of(jobs: seq<WriteJob>, key: string): seq<WriteJob> {
    if jobs == [] then []
    else
      var rest := Of(jobs[..|jobs| - 1], key);
      if Key(jobs[|jobs| - 1]) == key then rest + [jobs[|jobs| - 1]] else rest
  }

  function Keys(jobs: seq<WriteJob>): set<string> {
    set job | job in jobs :: Key(job)
  }

  function Ids(jobs: seq<WriteJob>, key: string): set<string> {
    set job | job in jobs && Key(job) == key :: Id(job)
  }

  function Repeat(jobs: seq<WriteJob>, times: nat): seq<WriteJob> {
    if times == 0 then [] else Repeat(jobs, times - 1) + jobs
  }

  lemma {:induction false} RepeatLength(jobs: seq<WriteJob>, times: nat)
    ensures |Repeat(jobs, times)| == times * |jobs|
    ensures times > 0 ==> forall job :: job in jobs ==> job in Repeat(jobs, times)
  {
    if times > 0 {
      RepeatLength(jobs, times - 1);
      assert times * |jobs| == (times - 1) * |jobs| + |jobs|;
    }
  }

  lemma {:induction false} OfConcat(a: seq<WriteJob>, b: seq<WriteJob>, key: string)
    ensures Of(a + b, key) == Of(a, key) + Of(b, key)
  {
    if b == [] {
      assert a + b == a;
    } else {
      var init := b[..|b| - 1];
      OfConcat(a, init, key);
      assert (a + b)[..|a + b| - 1] == a + init;
    }
  }

  /** Filtering keeps exactly the jobs of the key, with their multiplicities. */
  lemma {:induction false} OfMembers(jobs: seq<WriteJob>, key: string, job: WriteJob)
    ensures multiset(Of(jobs, key))[job] == if Key(job) == key then multiset(jobs)[job] else 0
    ensures job in Of(jobs, key) <==> job in jobs && Key(job) == key
  {
    if jobs != [] {
      var init, last := jobs[..|jobs| - 1], jobs[|jobs| - 1];
      OfMembers(init, key, job);
      assert jobs == init + [last];
    }
  }

  lemma OfNone(jobs: seq<WriteJob>, key: string)
    ensures Of(jobs, key) == [] <==> key !in Keys(jobs)
  {
    if Of(jobs, key) != [] {
      OfMembers(jobs, key, Of(jobs, key)[0]);
    }
    if key in Keys(jobs) {
      var job :| job in jobs && Key(job) == key;
      OfMembers(jobs, key, job);
    }
  }

  lemma IdsNone(jobs: seq<WriteJob>, key: string)
    ensures Ids(jobs, key) == {} <==> key !in Keys(jobs)
  {
    if key in Keys(jobs) {
      var job :| job in jobs && Key(job) == key;
      assert Id(job) in Ids(jobs, key);
    }
  }

  lemma {:induction false} OfAll(jobs: seq<WriteJob>, key: string)
    requires forall job :: job in jobs ==> Key(job) == key
    ensures Of(jobs, key) == jobs
  {
    if jobs != [] {
      var init, last := jobs[..|jobs| - 1], jobs[|jobs| - 1];
      assert last in jobs;
      OfAll(init, key);
      assert jobs == init + [last];
    }
  }
}
