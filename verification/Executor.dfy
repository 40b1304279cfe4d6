/** One execution: fetch or run, then scrub (worker/executor.go:31-81). */
module Executor {
  import opened Prelude
  import opened Replacement
  import opened JobConfig
  import opened JobParts
  import opened ShellRuns
  import opened FileFetches
  import opened Scrubbing

  datatype Failure =
    | NoSession
    | NotAuthenticated
    | NothingToRun
    | Fetching(fetch: FetchError)
    | Running(run: RunError)
    | BadScrubber

  /** The device's end: whether it lets the worker in, its files, and its shell if it opens. */
  class Session {
    const connects: bool
    const authenticates: bool
    const remote: Remote
    const shell: Shell?

    constructor (connects: bool, authenticates: bool, remote: Remote, shell: Shell?)
      ensures this.connects == connects && this.authenticates == authenticates && this.remote == remote
              && this.shell == shell
    {
      this.connects, this.authenticates, this.remote, this.shell := connects, authenticates, remote, shell;
    }
  }

  /** The job as the worker receives it. */
  datatype Work = Work(files: Option<seq<FileEntry>>, commands: Option<seq<Command>>, scrubbers: seq<Scrubber>)

  /** Marks is the trace of the commands, where there are any. */
  method RunJob(session: Session, work: Work, re: Regexes)
      returns (file: string, failure: Option<Failure>, ghost marks: seq<Mark>)
    modifies session.shell
    ensures Answered(session, work, re, marks, file, failure)
    ensures work.files.Some? ==> match Fetched(work.files.value, session.remote)
              case Ok(all) => file == all && failure == None
              case Err(e) => file == "" && failure == Some(Fetching(e))
    ensures work.files.None? && work.commands.None? ==> file == "" && failure == Some(NothingToRun)
    ensures work.files.None? && work.commands.Some? && session.shell == null ==>
              file == "" && failure == Some(Running(NoShell))
    ensures work.files.None? && work.commands.Some? && session.shell != null ==>
              && marks != [] && file == FromTo(session.shell.output, marks[0].position, session.shell.position)
              && (failure.Some? ==> failure.value.Running?)
    ensures marks != [] ==>
            session.shell != null && marks[0] == Mark(old(session.shell.position) + 1, old(session.shell.sent))
  {
    marks := [];
    if work.files.Some? {
      var r := FetchFile(work.files.value, session.remote);
      match r {
        case Ok(all) => return all, None, [];
        case Err(e) => return "", Some(Fetching(e)), [];
      }
    }
    if work.commands.None? {
      return "", Some(NothingToRun), [];
    }
    if session.shell == null {
      return "", Some(Running(NoShell)), [];
    }
    var err;
    file, err, marks := RunCommands(session.shell, work.commands.value, re);
    failure := if err.None? then None else Some(Running(err.value));
  }

  predicate Returned(fetched: Result<string, FetchError>, file: string, failure: Option<Failure>) {
    match fetched
    case Ok(all) => file == all && failure.None?
    case Err(e) => file == "" && failure == Some(Fetching(e))
  }

  /** The commands ran as these marks say, and this is what came of it. */
  ghost predicate Commanded(shell: Shell, commands: seq<Command>, re: Regexes, marks: seq<Mark>, end: Mark,
                            file: string, failure: Option<Failure>)
  {
    && (failure.Some? ==> failure.value.Running?)
    && RanAll(commands, shell, re, marks, end, if failure.None? then None else Some(failure.value.run))
    && file == FromTo(shell.output, marks[0].position, end.position)
  }

  /** What a job may return: its files, or what its commands print as far as they run. */
  ghost predicate Answered(session: Session, work: Work, re: Regexes, marks: seq<Mark>, file: string,
                           failure: Option<Failure>)
    reads session.shell
  {
    if work.files.Some? then Returned(Fetched(work.files.value, session.remote), file, failure)
    else if work.commands.None? then file == "" && failure == Some(NothingToRun)
    else if session.shell == null then file == "" && failure == Some(Running(NoShell))
    else Commanded(session.shell, work.commands.value, re, marks, session.shell.At(), file, failure)
  }

  /** What scrubbing makes of the bytes and the failure of a job. */
  function Finished(raw: string, failure: Option<Failure>, scrubbers: seq<Scrubber>,
                    re: Regexes): (string, Option<Failure>)
  {
    if raw == "" || scrubbers == [] then (raw, failure)
    else
      match Scrubbed(raw, scrubbers, re)
      case None => ("", if failure.None? then Some(BadScrubber) else failure)
      case Some(clean) => (clean, failure)
  }

  /** The execution; marks, raw and failed are what running the job itself came to. */
  method RunExecution(session: Session, work: Work, re: Regexes)
      returns (file: string, failure: Option<Failure>, ghost marks: seq<Mark>, ghost raw: string,
        ghost failed: Option<Failure>)
    modifies session.shell
    ensures !session.connects ==> file == "" && failure == Some(NoSession)
    ensures session.connects && !session.authenticates ==> file == "" && failure == Some(NotAuthenticated)
    ensures session.connects && session.authenticates ==>
              Answered(session, work, re, marks, raw, failed)
                && (file, failure) == Finished(raw, failed, work.scrubbers, re)
    ensures marks != [] ==>
            session.shell != null && marks[0] == Mark(old(session.shell.position) + 1, old(session.shell.sent))
  {
    marks, raw, failed := [], "", None;
    if !session.connects {
      return "", Some(NoSession), [], "", None;
    }
    if !session.authenticates {
      return "", Some(NotAuthenticated), [], "", None;
    }
    file, failure, marks := RunJob(session, work, re);
    raw, failed := file, failure;
    if |file| > 0 && |work.scrubbers| > 0 {
      var clean := ScrubBytes(file, work.scrubbers, re);
      if clean.None? {
        failure := if failure.None? then Some(BadScrubber) else failure;
        file := "";
      } else {
        file := clean.value;
      }
    }
  }

  /** A job's own failure is never replaced, exactly the scrubbed bytes go out, and the only failure
      scrubbing adds is for a pattern that does not compile, with an empty file. */
  lemma FinishedIsScrubbed(raw: string, failure: Option<Failure>, scrubbers: seq<Scrubber>, re: Regexes)
    ensures var (file, final) := Finished(raw, failure, scrubbers, re);
            && (failure.Some? ==> final == failure)
            && (file != "" ==> Scrubbed(raw, scrubbers, re) == Some(file))
            && (raw != "" && Scrubbed(raw, scrubbers, re).Some? ==> Scrubbed(raw, scrubbers, re) == Some(file))
            && (final != failure <==>
                  && raw != "" && failure.None?
                  && exists i :: 0 <= i < |scrubbers| && IsRegex(scrubbers[i]) && !re.compiles(scrubbers[i].search))
            && (final != failure ==> file == "")
  {
    ScrubFailsExactly(raw, scrubbers, re);
    if scrubbers == [] {
      assert Scrubbed(raw, scrubbers, re) == Some(raw);
    }
  }

  // ----- What validation is for -----

  /** No placeholder is left in any pattern. */
  predicate Filled(patterns: seq<string>) {
    forall i :: 0 <= i < |patterns| ==> !Contains(patterns[i], "{{")
  }

  /** A validated job whose patterns are all filled in never fails on a pattern: neither any of
      its commands nor its scrubbing. */
  lemma ValidatedCompiles(job: JobValue, re: Regexes, dirty: string)
    requires ValidJob(job, re.compiles)
    requires forall i :: 0 <= i < |job.scrubbers| ==> !Contains(job.scrubbers[i].search, "{{")
    ensures Scrubbed(dirty, job.scrubbers, re).Some?
    ensures job.commandSet.Some? ==>
              forall c :: c in job.commandSet.value.list && Filled(c.expected) && Filled(c.unexpected) ==>
                BadPattern(c, re).None?
  {
    ScrubFailsExactly(dirty, job.scrubbers, re);
    if job.commandSet.Some? {
      forall c | c in job.commandSet.value.list && Filled(c.expected) && Filled(c.unexpected)
        ensures BadPattern(c, re).None? {
        assert ValidCommand(c, re.compiles);
        FirstWhereFinds(c.expected, p => !re.compiles(p));
        FirstWhereFinds(c.unexpected, p => !re.compiles(p));
      }
    }
  }
}
