/** Running the commands of a job in a device's shell (worker/executor.go:83-180). */
module ShellRuns {
  import opened Prelude
  import opened JobConfig

  /** The regular expression library, as this package uses it. */
  datatype Regexes = Regexes(
    compiles: string -> bool,
    matches: (string, string) -> bool,
    replaceLiteral: (string, string, string) -> string,
    replaceExpanded: (string, string, string) -> string)

  datatype RunError =
    | NoShell
    | WriteFailed
    | EnterFailed
    | BadRegex(pattern: string)
    | MatchedFailure(pattern: string)
    | NeverMatched

  /** A shell: what the device will have printed by each read, and whether it will take each
      text written. Reading empties the buffer, so each chunk is read once. */
  class Shell {
    const output: nat -> string
    const accepts: nat -> bool
    var position: nat
    var sent: seq<string>

    constructor (output: nat -> string, accepts: nat -> bool)
      ensures this.output == output && this.accepts == accepts && position == 0 && sent == []
    {
      this.output, this.accepts, position, sent := output, accepts, 0, [];
    }

    function At(): Mark
      reads this
    {
      Mark(position, sent)
    }

    method BytesAndReset() returns (chunk: string)
      modifies this
      ensures chunk == output(old(position)) && At() == Mark(old(position) + 1, old(sent))
    {
      chunk := output(position);
      position := position + 1;
    }

    method Write(text: string) returns (ok: bool)
      modifies this
      ensures ok == accepts(|old(sent)|) && At() == Mark(old(position), if ok then old(sent) + [text] else old(sent))
    {
      ok := accepts(|sent|);
      if ok {
        sent := sent + [text];
      }
    }
  }

  /** How far a shell has been read, and what it has taken. */
  datatype Mark = Mark(position: nat, sent: seq<string>)

  /** The chunks read from a up to b, in order. */
  function FromTo(output: nat -> string, a: nat, b: nat): string {
    if b <= a then "" else FromTo(output, a, b - 1) + output(b - 1)
  }

  /** The first pattern of the list that is so. */
  function FirstWhere(patterns: seq<string>, so: string -> bool): Option<string> {
    if patterns == [] then None
    else if so(patterns[0]) then Some(patterns[0])
    else FirstWhere(patterns[1..], so)
  }

  /** Nothing is found exactly when no pattern is so; what is found is the first that is. */
  lemma {:induction false} FirstWhereFinds(patterns: seq<string>, so: string -> bool)
    ensures match FirstWhere(patterns, so)
            case None => forall p :: p in patterns ==> !so(p)
            case Some(found) => exists i :: 0 <= i < |patterns| && IsFirst(patterns, so, i) && patterns[i] == found
  {
    if patterns != [] {
      if so(patterns[0]) {
        assert IsFirst(patterns, so, 0);
      } else {
        var rest := patterns[1..];
        FirstWhereFinds(rest, so);
        if FirstWhere(rest, so).Some? {
          var i :| 0 <= i < |rest| && IsFirst(rest, so, i) && rest[i] == FirstWhere(rest, so).value;
          assert forall j :: 0 < j <= i ==> patterns[j] == rest[j - 1];
          assert IsFirst(patterns, so, i + 1) && patterns[i + 1] == rest[i];
        } else {
          assert patterns == [patterns[0]] + rest;
        }
      }
    }
  }

  ghost predicate IsFirst(patterns: seq<string>, so: string -> bool, i: nat)
    requires i < |patterns|
  {
    so(patterns[i]) && forall j :: 0 <= j < i ==> !so(patterns[j])
  }

  method FindFirst(patterns: seq<string>, so: string -> bool) returns (found: Option<string>)
    ensures found == FirstWhere(patterns, so)
  {
    var i := 0;
    while i < |patterns|
      invariant i <= |patterns| && FirstWhere(patterns, so) == FirstWhere(patterns[i..], so)
    {
      if so(patterns[i]) {
        return Some(patterns[i]);
      }
      i := i + 1;
    }
    return None;
  }

  // ----- One command -----

  predicate MatchesAny(patterns: seq<string>, text: string, re: Regexes) {
    exists p :: p in patterns && re.matches(p, text)
  }

  lemma FoundMatches(patterns: seq<string>, text: string, re: Regexes)
    ensures FirstWhere(patterns, p => re.matches(p, text)).Some? <==> MatchesAny(patterns, text, re)
  {
    FirstWhereFinds(patterns, p => re.matches(p, text));
  }

  /** Whether the command's output after k polls, begun at this read, matches. */
  predicate Passes(cmd: Command, output: nat -> string, start: nat, k: nat, re: Regexes) {
    MatchesAny(cmd.expected, FromTo(output, start, start + k), re)
  }

  predicate Fails(cmd: Command, output: nat -> string, start: nat, k: nat, re: Regexes) {
    MatchesAny(cmd.unexpected, FromTo(output, start, start + k), re)
  }

  /** The loop over the timeout ended after n polls with this verdict. */
  ghost predicate Polled(cmd: Command, output: nat -> string, start: nat, n: nat, re: Regexes, err: Option<RunError>) {
    && (n == 0 || n <= cmd.timeout)
    && (forall k :: 1 <= k < n ==> !Passes(cmd, output, start, k, re) && !Fails(cmd, output, start, k, re))
    && match err {
         case Some(MatchedFailure(pattern)) =>
           n >= 1 && FirstWhere(cmd.unexpected, p => re.matches(p, FromTo(output, start, start + n))) == Some(pattern)
         case Some(NeverMatched) => RanOut(cmd, output, start, n, re) && cmd.expected != []
         case None =>
           || (n >= 1 && !Fails(cmd, output, start, n, re) && Passes(cmd, output, start, n, re))
           || (RanOut(cmd, output, start, n, re) && cmd.expected == [])
         case _ => false
       }
  }

  ghost predicate RanOut(cmd: Command, output: nat -> string, start: nat, n: nat, re: Regexes) {
    && n == (if cmd.timeout < 0 then 0 else cmd.timeout)
    && (n >= 1 ==> !Passes(cmd, output, start, n, re) && !Fails(cmd, output, start, n, re))
  }

  method Poll(shell: Shell, cmd: Command, re: Regexes, buff: string) returns (all: string, err: Option<RunError>)
    modifies shell
    ensures shell.position >= old(shell.position) && shell.sent == old(shell.sent)
    ensures all == buff + FromTo(shell.output, old(shell.position), shell.position)
    ensures Polled(cmd, shell.output, old(shell.position), shell.position - old(shell.position), re, err)
  {
    ghost var start := shell.position;
    all := buff;
    var text := "";
    var matched := false;
    var i: int := 0;
    while i < cmd.timeout
      invariant 0 <= i && (i == 0 || i <= cmd.timeout) && shell.At() == Mark(start + i, old(shell.sent)) && !matched
      invariant text == FromTo(shell.output, start, start + i) && all == buff + text
      invariant forall k :: 1 <= k <= i ==>
                !Passes(cmd, shell.output, start, k, re) && !Fails(cmd, shell.output, start, k, re)
    {
      var chunk := shell.BytesAndReset();
      Assoc(buff, text, chunk);
      text, all := text + chunk, all + chunk;
      FoundMatches(cmd.unexpected, text, re);
      FoundMatches(cmd.expected, text, re);
      var failing := FindFirst(cmd.unexpected, p => re.matches(p, text));
      if failing.Some? {
        return all, Some(MatchedFailure(failing.value));
      }
      var passing := FindFirst(cmd.expected, p => re.matches(p, text));
      if passing.Some? {
        matched := true;
        break;
      }
      i := i + 1;
    }
    if |cmd.expected| > 0 && !matched {
      return all, Some(NeverMatched);
    }
    return all, None;
  }

  /** The rule of docs/jobs.md:22-39 for a command that waits: with expectations, one must
      match at some poll before which, and at which, nothing unexpected does; without, nothing
      unexpected may match until the time is up. */
  ghost predicate Rule(cmd: Command, output: nat -> string, start: nat, re: Regexes) {
    if cmd.expected == [] then forall k :: 1 <= k <= cmd.timeout ==> !Fails(cmd, output, start, k, re)
    else exists k :: 1 <= k <= cmd.timeout && Passes(cmd, output, start, k, re)
                     && forall j :: 1 <= j <= k ==> !Fails(cmd, output, start, j, re)
  }

  lemma PolledMeetsRule(cmd: Command, output: nat -> string, start: nat, n: nat, re: Regexes, err: Option<RunError>)
    requires Polled(cmd, output, start, n, re, err)
    ensures err.None? <==> Rule(cmd, output, start, re)
  {
    FoundMatches(cmd.unexpected, FromTo(output, start, start + n), re);
    if cmd.expected == [] {
      assert forall k :: !Passes(cmd, output, start, k, re);
      if err.Some? {
        assert Fails(cmd, output, start, n, re);
      }
    } else if err.None? {
      assert Passes(cmd, output, start, n, re);
    } else if err.value.MatchedFailure? {
      assert Fails(cmd, output, start, n, re);
    }
  }

  lemma PolledOnce(cmd: Command, output: nat -> string, start: nat, re: Regexes, n: nat, err: Option<RunError>, m: nat,
                   other: Option<RunError>)
    requires Polled(cmd, output, start, n, re, err) && Polled(cmd, output, start, m, re, other)
    ensures n == m && err == other
  {
    PolledStops(cmd, output, start, re, n, err);
    PolledStops(cmd, output, start, re, m, other);
  }

  /** The loop stops at the first match of either kind, or when the time is up. */
  lemma PolledStops(cmd: Command, output: nat -> string, start: nat, re: Regexes, n: nat, err: Option<RunError>)
    requires Polled(cmd, output, start, n, re, err)
    ensures n < cmd.timeout ==> n >= 1 && (Passes(cmd, output, start, n, re) || Fails(cmd, output, start, n, re))
    ensures err == if n >= 1 && Fails(cmd, output, start, n, re)
                   then Some(MatchedFailure(FirstWhere(cmd.unexpected,
                     p => re.matches(p, FromTo(output, start, start + n))).value))
                   else if cmd.expected == [] || (n >= 1 && Passes(cmd, output, start, n, re)) then None
                   else Some(NeverMatched)
  {
    FoundMatches(cmd.unexpected, FromTo(output, start, start + n), re);
  }

  /** What a command types. */
  function Typed(cmd: Command): seq<string> {
    if cmd.implicitEnter then [cmd.command, "\n"] else [cmd.command]
  }

  /** What the shell has taken once the command is typed, and the error if it would not. */
  function Begun(cmd: Command, accepts: nat -> bool, sent: seq<string>): (seq<string>, Option<RunError>) {
    if !accepts(|sent|) then (sent, Some(WriteFailed))
    else if cmd.implicitEnter && !accepts(|sent| + 1) then (sent + [cmd.command], Some(EnterFailed))
    else (sent + Typed(cmd), None)
  }

  /** After typing, n polls followed, with this result. */
  ghost predicate Waited(cmd: Command, output: nat -> string, start: nat, n: nat, re: Regexes, err: Option<RunError>) {
    if cmd.timeout == 0 then n == 0 && err.None?
    else if BadPattern(cmd, re).Some? then n == 0 && err == Some(BadRegex(BadPattern(cmd, re).value))
    else Polled(cmd, output, start, n, re, err)
  }

  /** One command ran between these marks, with this result. */
  ghost predicate Ran(cmd: Command, shell: Shell, re: Regexes, before: Mark, after: Mark, err: Option<RunError>) {
    var start, begun := before.position + 1, Begun(cmd, shell.accepts, before.sent);
    && after.sent == begun.0 && after.position >= start
    && if begun.1.Some? then err == begun.1 && after.position == start
       else Waited(cmd, shell.output, start, after.position - start, re, err)
  }

  /** The first pattern of the command that does not compile. */
  function BadPattern(cmd: Command, re: Regexes): Option<string> {
    var bad := FirstWhere(cmd.expected, p => !re.compiles(p));
    if bad.Some? then bad else FirstWhere(cmd.unexpected, p => !re.compiles(p))
  }

  method RunCommand(shell: Shell, cmd: Command, re: Regexes, buff: string) returns (all: string, err: Option<RunError>)
    modifies shell
    ensures shell.position >= old(shell.position)
            && all == buff + FromTo(shell.output, old(shell.position), shell.position)
    ensures Ran(cmd, shell, re, old(shell.At()), shell.At(), err)
    ensures shell.position == old(shell.position) + 1 || shell.position <= old(shell.position) + 1 + cmd.timeout
    ensures err == Some(NeverMatched) ==>
              shell.position == old(shell.position) + 1 + if cmd.timeout < 0 then 0 else cmd.timeout
    ensures err.None? ==> shell.sent == old(shell.sent) + [cmd.command] + if cmd.implicitEnter then ["\n"] else []
    ensures cmd.timeout == 0 ==>
              shell.position == old(shell.position) + 1 && err in {None, Some(WriteFailed), Some(EnterFailed)}
  {
    ghost var first := shell.position;
    all, err := Begin(shell, cmd, buff);
    if err.None? {
      all, err := Wait(shell, cmd, re, all);
      Joined(shell.output, buff, first, first + 1, shell.position);
    }
  }

  method Wait(shell: Shell, cmd: Command, re: Regexes, buff: string) returns (all: string, err: Option<RunError>)
    modifies shell
    ensures shell.position >= old(shell.position) && shell.sent == old(shell.sent)
    ensures all == buff + FromTo(shell.output, old(shell.position), shell.position)
    ensures Waited(cmd, shell.output, old(shell.position), shell.position - old(shell.position), re, err)
  {
    if cmd.timeout == 0 {
      return buff, None;
    }
    var bad := FindBad(cmd, re);
    if bad.Some? {
      return buff, Some(BadRegex(bad.value));
    }
    all, err := Poll(shell, cmd, re, buff);
  }

  /** What is pending is kept; then the command is typed. */
  method Begin(shell: Shell, cmd: Command, buff: string) returns (all: string, err: Option<RunError>)
    modifies shell
    ensures shell.position == old(shell.position) + 1
            && all == buff + FromTo(shell.output, old(shell.position), shell.position)
    ensures (shell.sent, err) == Begun(cmd, shell.accepts, old(shell.sent))
  {
    ghost var first := shell.position;
    var chunk := shell.BytesAndReset();
    all := buff + chunk;
    assert FromTo(shell.output, first, first + 1) == "" + chunk == chunk;
    var ok := shell.Write(cmd.command);
    if !ok {
      return all, Some(WriteFailed);
    }
    if cmd.implicitEnter {
      ok := shell.Write("\n");
      if !ok {
        return all, Some(EnterFailed);
      }
    }
    assert shell.sent == old(shell.sent) + Typed(cmd);
    return all, None;
  }

  method FindBad(cmd: Command, re: Regexes) returns (bad: Option<string>)
    ensures bad == BadPattern(cmd, re)
  {
    bad := FindFirst(cmd.expected, p => !re.compiles(p));
    if bad.None? {
      bad := FindFirst(cmd.unexpected, p => !re.compiles(p));
    }
  }

  lemma {:induction false} FromToSplit(output: nat -> string, a: nat, b: nat, c: nat)
    requires a <= b <= c
    ensures FromTo(output, a, c) == FromTo(output, a, b) + FromTo(output, b, c)
    decreases c
  {
    if c > b {
      FromToSplit(output, a, b, c - 1);
      Assoc(FromTo(output, a, b), FromTo(output, b, c - 1), output(c - 1));
    }
  }

  lemma Joined(output: nat -> string, buff: string, a: nat, b: nat, c: nat)
    requires a <= b <= c
    ensures (buff + FromTo(output, a, b)) + FromTo(output, b, c) == buff + FromTo(output, a, c)
  {
    FromToSplit(output, a, b, c);
    Assoc(buff, FromTo(output, a, b), FromTo(output, b, c));
  }

  lemma WaitedOnce(cmd: Command, output: nat -> string, start: nat, re: Regexes, n: nat, err: Option<RunError>, m: nat,
                   other: Option<RunError>)
    requires Waited(cmd, output, start, n, re, err) && Waited(cmd, output, start, m, re, other)
    ensures n == m && err == other
  {
    if cmd.timeout != 0 && BadPattern(cmd, re).None? {
      PolledOnce(cmd, output, start, re, n, err, m, other);
    }
  }

  lemma RanOnce(cmd: Command, shell: Shell, re: Regexes, before: Mark, after: Mark, err: Option<RunError>,
                after': Mark, err': Option<RunError>)
    requires Ran(cmd, shell, re, before, after, err) && Ran(cmd, shell, re, before, after', err')
    ensures after == after' && err == err'
  {
    var start := before.position + 1;
    if Begun(cmd, shell.accepts, before.sent).1.None? {
      WaitedOnce(cmd, shell.output, start, re, after.position - start, err, after'.position - start, err');
    }
  }

  // ----- All commands -----

  /** The commands ran one after another: marks holds where each one began. */
  ghost predicate RanAll(commands: seq<Command>, shell: Shell, re: Regexes, marks: seq<Mark>, end: Mark,
                         err: Option<RunError>)
  {
    && 1 <= |marks| <= |commands| + 1
    && (forall j :: 0 <= j < |marks| - 1 ==> Ran(commands[j], shell, re, marks[j], marks[j + 1], None))
    && if err.None? then |marks| == |commands| + 1 && end == marks[|commands|]
       else |marks| <= |commands| && Ran(commands[|marks| - 1], shell, re, marks[|marks| - 1], end, err)
  }

  /** The returned bytes are exactly the chunks read after the first, in order, whatever the
      result. */
  method RunCommands(shell: Shell, commands: seq<Command>, re: Regexes)
      returns (buff: string, err: Option<RunError>, ghost marks: seq<Mark>)
    modifies shell
    ensures shell.position > old(shell.position)
            && buff == FromTo(shell.output, old(shell.position) + 1, shell.position)
    ensures RanAll(commands, shell, re, marks, shell.At(), err)
            && marks[0] == Mark(old(shell.position) + 1, old(shell.sent))
  {
    ghost var first := shell.position + 1;
    buff := "";
    var discarded := shell.BytesAndReset();
    marks := [shell.At()];
    var i := 0;
    while i < |commands|
      invariant i <= |commands| && shell.position >= first && buff == FromTo(shell.output, first, shell.position)
      invariant |marks| == i + 1 && marks[0] == Mark(first, old(shell.sent)) && marks[i] == shell.At()
      invariant forall j :: 0 <= j < i ==> Ran(commands[j], shell, re, marks[j], marks[j + 1], None)
    {
      ghost var from := shell.position;
      buff, err := RunCommand(shell, commands[i], re, buff);
      FromToSplit(shell.output, first, from, shell.position);
      if err.Some? {
        return;
      }
      marks := marks + [shell.At()];
      i := i + 1;
    }
    return buff, None, marks;
  }

  /** Two runs of the same commands from the same mark agree in everything. */
  lemma {:induction false} RunsAgree(commands: seq<Command>, shell: Shell, re: Regexes, marks: seq<Mark>, end: Mark,
                                     err: Option<RunError>,
                                     marks': seq<Mark>, end': Mark, err': Option<RunError>)
    requires RanAll(commands, shell, re, marks, end, err) && RanAll(commands, shell, re, marks', end', err')
    requires marks[0] == marks'[0]
    ensures marks == marks' && end == end' && err == err'
    decreases |marks|
  {
    if |marks| > |marks'| {
      RunsAgree(commands, shell, re, marks', end', err', marks, end, err);
    } else {
      SameMarks(commands, shell, re, marks, marks', |marks|);
      var last := |marks| - 1;
      assert marks[last] == marks'[last];
      if last < |marks'| - 1 {
        assert Ran(commands[last], shell, re, marks'[last], marks'[last + 1], None);
        RanOnce(commands[last], shell, re, marks[last], end, err, marks'[last + 1], None);
        assert false;
      }
      assert marks == marks';
      if err.Some? {
        RanOnce(commands[last], shell, re, marks[last], end, err, end', err');
      }
    }
  }

  lemma {:induction false} SameMarks(commands: seq<Command>, shell: Shell, re: Regexes, marks: seq<Mark>,
                                     marks': seq<Mark>, n: nat)
    requires 1 <= n <= |marks| && n <= |marks'| && n <= |commands| + 1 && marks[0] == marks'[0]
    requires forall j :: 0 <= j < n - 1 ==> Ran(commands[j], shell, re, marks[j], marks[j + 1], None)
    requires forall j :: 0 <= j < n - 1 ==> Ran(commands[j], shell, re, marks'[j], marks'[j + 1], None)
    ensures forall j :: 0 <= j < n ==> marks[j] == marks'[j]
  {
    if n > 1 {
      SameMarks(commands, shell, re, marks, marks', n - 1);
      var j := n - 2;
      assert Ran(commands[j], shell, re, marks[j], marks[j + 1], None);
      assert Ran(commands[j], shell, re, marks'[j], marks'[j + 1], None);
      RanOnce(commands[j], shell, re, marks[j], marks[j + 1], None, marks'[j + 1], None);
    }
  }

  /** Where command j of a run ended, and how. */
  function StopOf(marks: seq<Mark>, end: Mark, err: Option<RunError>, j: nat): (Mark, Option<RunError>)
    requires j < |marks|
  {
    if j < |marks| - 1 then (marks[j + 1], None) else (end, err)
  }

  /** In any run, what command j was matched against is a suffix of what had been returned when
      it ended: the pattern of a failure matches that suffix, and a success with expectations
      matches one of them there and nothing unexpected. */
  lemma MatchedTextIsSuffix(commands: seq<Command>, shell: Shell, re: Regexes, marks: seq<Mark>, end: Mark,
                            err: Option<RunError>, j: nat)
    requires RanAll(commands, shell, re, marks, end, err) && j < |marks| && j < |commands|
    ensures var ((stop, result), start) := (StopOf(marks, end, err, j), marks[j].position + 1);
            && marks[0].position <= start <= stop.position
            && var text := FromTo(shell.output, start, stop.position);
               && FromTo(shell.output, marks[0].position, stop.position)
                 == FromTo(shell.output, marks[0].position, start) + text
               && (result.Some? && result.value.MatchedFailure? ==>
                     result.value.pattern in commands[j].unexpected && re.matches(result.value.pattern, text))
               && (result.None? && commands[j].timeout != 0 && commands[j].expected != [] ==>
                     MatchesAny(commands[j].expected, text, re) && !MatchesAny(commands[j].unexpected, text, re))
  {
    var (stop, result) := StopOf(marks, end, err, j);
    Advances(commands, shell, re, marks, j);
    assert Ran(commands[j], shell, re, marks[j], stop, result);
    FromToSplit(shell.output, marks[0].position, marks[j].position + 1, stop.position);
    var text := FromTo(shell.output, marks[j].position + 1, stop.position);
    if result.Some? && result.value.MatchedFailure? {
      FirstWhereFinds(commands[j].unexpected, p => re.matches(p, text));
    }
  }

  lemma {:induction false} Advances(commands: seq<Command>, shell: Shell, re: Regexes, marks: seq<Mark>, j: nat)
    requires j < |marks| <= |commands| + 1
    requires forall k :: 0 <= k < |marks| - 1 ==> Ran(commands[k], shell, re, marks[k], marks[k + 1], None)
    ensures marks[0].position <= marks[j].position
  {
    if j > 0 {
      Advances(commands, shell, re, marks, j - 1);
      assert Ran(commands[j - 1], shell, re, marks[j - 1], marks[j], None);
    }
  }

  /** When j commands have run, exactly those have been typed, in order, each followed by an
      enter where it asks for one. */
  lemma {:induction false} TypedInOrder(commands: seq<Command>, shell: Shell, re: Regexes, marks: seq<Mark>, j: nat)
    requires j < |marks| <= |commands| + 1
    requires forall k :: 0 <= k < |marks| - 1 ==> Ran(commands[k], shell, re, marks[k], marks[k + 1], None)
    ensures marks[j].sent == marks[0].sent + AllTyped(commands[..j])
  {
    if j > 0 {
      TypedInOrder(commands, shell, re, marks, j - 1);
      assert Ran(commands[j - 1], shell, re, marks[j - 1], marks[j], None);
      assert commands[..j][..j - 1] == commands[..j - 1];
      Assoc(marks[0].sent, AllTyped(commands[..j - 1]), Typed(commands[j - 1]));
    }
  }

  /** A run succeeds only if every command that waits met the rule, and fails for a match or
      the lack of one only if its last command did not. */
  lemma RunMeetsRule(commands: seq<Command>, shell: Shell, re: Regexes, marks: seq<Mark>, end: Mark,
                     err: Option<RunError>)
    requires RanAll(commands, shell, re, marks, end, err)
    ensures forall j :: 0 <= j < |marks| - 1 && commands[j].timeout != 0 ==>
            Rule(commands[j], shell.output, marks[j].position + 1, re)
    ensures err.Some? && (err.value.MatchedFailure? || err.value.NeverMatched?) ==>
              !Rule(commands[|marks| - 1], shell.output, marks[|marks| - 1].position + 1, re)
  {
    forall j | 0 <= j < |marks| - 1 && commands[j].timeout != 0
      ensures Rule(commands[j], shell.output, marks[j].position + 1, re)
    {
      var start := marks[j].position + 1;
      assert Ran(commands[j], shell, re, marks[j], marks[j + 1], None);
      PolledMeetsRule(commands[j], shell.output, start, marks[j + 1].position - start, re, None);
    }
    if err.Some? && (err.value.MatchedFailure? || err.value.NeverMatched?) {
      var last, start := |marks| - 1, marks[|marks| - 1].position + 1;
      PolledMeetsRule(commands[last], shell.output, start, end.position - start, re, err);
    }
  }

  function AllTyped(commands: seq<Command>): seq<string> {
    if commands == [] then [] else AllTyped(commands[..|commands| - 1]) + Typed(commands[|commands| - 1])
  }
}
