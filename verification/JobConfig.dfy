/** Jobs as values: what each layer of configuration makes of them (model/job.go:24-69,
    model/command_set.go:20-29, 69-86, model/file_set.go:17-23) and the closed form of a
    whole chain of layers. */
module JobConfig {
  import opened Prelude
  import opened Replacement

  // ----- Configuration as read from the file -----

  datatype CommandConf = CommandConf(
    command: string, expected: seq<string>, unexpected: seq<string>, timeout: Option<int>, implicitEnter: Option<bool>)

  datatype ScrubberConf = ScrubberConf(kind: string, search: string, replace: string)

  /** A schedule section with the parser's verdict on it. */
  datatype ScheduleConf = Absent | Parsed(cron: string) | Rejected

  /** `files` maps each path to its compression. */
  datatype JobConf = JobConf(
    kind: string,
    schedule: ScheduleConf,
    commands: seq<CommandConf>,
    commandGeneric: Option<CommandConf>,
    files: map<string, string>,
    scrubbers: seq<ScrubberConf>,
    templateValues: map<string, string>)

  // ----- Jobs as values -----

  datatype Command = Command(command: string, expected: seq<string>, unexpected: seq<string>, timeout: int,
    implicitEnter: bool)

  datatype Commands = Commands(generic: Option<Command>, list: seq<Command>)

  /** A file set up to the order of Go's map ranges: for each path, the compressions of the
      entries that name it, in the order of the layers that listed them. */
  type Files = map<string, seq<string>>

  datatype Scrubber = Scrubber(kind: string, search: string, replace: string)

  datatype JobValue = JobValue(
    name: string,
    commandSet: Option<Commands>,
    fileSet: Option<Files>,
    schedule: Option<string>,
    scrubbers: seq<Scrubber>,
    templateValues: map<string, string>)

  /** NilGeneric is a nil dereference, a panic in Go; the others are returned errors. */
  datatype JobError = FileSetPresent | CommandSetPresent | UnknownKind | BadSchedule | NilGeneric

  const DEFAULT_COMMAND := Command("", [], [], 120, true)
  const DEFAULT_COMMANDS := Commands(Some(DEFAULT_COMMAND), [])
  const NO_FILES: Files := map[]

  function DefaultJob(name: string): JobValue {
    JobValue(name, None, None, None, [], map[])
  }

  function SanitizeRegex(regex: string): string {
    var prefixed := if "^" <= regex then regex else ".*" + regex;
    if prefixed != "" && prefixed[|prefixed| - 1] == '$' then prefixed else prefixed + ".*"
  }

  function SanitizeAll(regexes: seq<string>): seq<string> {
    seq(|regexes|, i requires 0 <= i < |regexes| => SanitizeRegex(regexes[i]))
  }

  /** The pattern itself, open at each end that is not anchored. */
  lemma SanitizeOpens(regex: string)
    ensures SanitizeRegex(regex)
            == (if "^" <= regex then "" else ".*") + regex
               + (if regex != "" && regex[|regex| - 1] == '$' then "" else ".*")
    ensures Contains(SanitizeRegex(regex), regex)
  {
    var front := if "^" <= regex then "" else ".*";
    var all := SanitizeRegex(regex);
    assert (front + regex)[|front|..] == regex;
    assert front + regex <= all && regex <= all[|front|..];
    assert OccursAt(all, regex, |front|);
  }

  lemma SanitizeEach(regexes: seq<string>)
    ensures |SanitizeAll(regexes)| == |regexes|
    ensures forall i :: 0 <= i < |regexes| ==> SanitizeAll(regexes)[i] == SanitizeRegex(regexes[i])
  {
  }

  /** Sanitizing a sanitized pattern opens it further, but for one anchored at both ends. */
  lemma SanitizedTwice(regex: string)
    ensures SanitizeRegex(SanitizeRegex(regex)) == SanitizeRegex(regex) <==>
              regex != "" && regex[0] == '^' && regex[|regex| - 1] == '$'
  {
    SanitizeOpens(regex);
    SanitizeOpens(SanitizeRegex(regex));
  }

  function ApplyCommand(c: Command, conf: CommandConf): Command {
    Command(
      if conf.command != "" then conf.command else c.command,
      c.expected + SanitizeAll(conf.expected),
      c.unexpected + SanitizeAll(conf.unexpected),
      if conf.timeout.Some? then conf.timeout.value else c.timeout,
      if conf.implicitEnter.Some? then conf.implicitEnter.value else c.implicitEnter)
  }

  /** Whether applying this configuration writes any field at all. */
  predicate Touches(conf: CommandConf) {
    conf.command != "" || conf.expected != [] || conf.unexpected != [] || conf.timeout.Some? || conf.implicitEnter.Some?
  }

  /** A copied command set has no generic command to layer on. */
  predicate NeedsGeneric(conf: JobConf) {
    (conf.commandGeneric.Some? && Touches(conf.commandGeneric.value)) || conf.commands != []
  }

  function LayerAll(generic: Command, confs: seq<CommandConf>): seq<Command> {
    seq(|confs|, i requires 0 <= i < |confs| => ApplyCommand(generic, confs[i]))
  }

  function ApplyCommands(set_: Commands, conf: JobConf): Option<Commands> {
    match set_.generic
    case None => if NeedsGeneric(conf) then None else Some(set_)
    case Some(current) =>
      var generic := if conf.commandGeneric.Some? then ApplyCommand(current, conf.commandGeneric.value) else current;
      Some(Commands(Some(generic), set_.list + LayerAll(generic, conf.commands)))
  }

  function Entries(files: Files, path: string): seq<string> {
    if path in files then files[path] else []
  }

  function ApplyFiles(files: Files, conf: JobConf): Files {
    AddFiles(files, conf.files)
  }

  function AddFiles(files: Files, added: map<string, string>): Files {
    map path | path in files.Keys + added.Keys ::
      Entries(files, path) + if path in added then [added[path]] else []
  }

  function NewScrubber(conf: ScrubberConf): Scrubber {
    var kind := if conf.kind == "" then "simple" else conf.kind;
    Scrubber(kind, if kind == "regex" || kind == "regex_substitute" then SanitizeRegex(conf.search)
      else conf.search, conf.replace)
  }

  function NewScrubbers(confs: seq<ScrubberConf>): seq<Scrubber> {
    seq(|confs|, i requires 0 <= i < |confs| => NewScrubber(confs[i]))
  }

  /** The command set or file set the job has once the configured type is taken in. */
  function ChooseKind(job: JobValue, kind: string): Result<JobValue, JobError> {
    if kind == "command" then
      if job.fileSet.Some? then Err(FileSetPresent)
      else Ok(if job.commandSet.None? then job.(commandSet := Some(DEFAULT_COMMANDS)) else job)
    else if kind == "file" then
      if job.commandSet.Some? then Err(CommandSetPresent)
      else Ok(if job.fileSet.None? then job.(fileSet := Some(NO_FILES)) else job)
    else if kind == "" then
      Ok(if job.fileSet.None? && job.commandSet.None? then job.(commandSet := Some(DEFAULT_COMMANDS)) else job)
    else Err(UnknownKind)
  }

  function ApplySets(job: JobValue, conf: JobConf): Option<JobValue> {
    var files := if job.fileSet.Some? then Some(ApplyFiles(job.fileSet.value, conf)) else None;
    if job.commandSet.None? then Some(job.(fileSet := files))
    else
      match ApplyCommands(job.commandSet.value, conf)
      case None => None
      case Some(commands) => Some(job.(commandSet := Some(commands), fileSet := files))
  }

  function ApplyRest(job: JobValue, conf: JobConf): Result<JobValue, JobError> {
    if conf.schedule.Rejected? then Err(BadSchedule)
    else Ok(job.(
      schedule := if conf.schedule.Parsed? then Some(conf.schedule.cron) else job.schedule,
      scrubbers := job.scrubbers + NewScrubbers(conf.scrubbers),
      templateValues := job.templateValues + conf.templateValues))
  }

  /** Job.ApplyConfig. */
  function ApplyJob(job: JobValue, conf: JobConf): Result<JobValue, JobError> {
    match ChooseKind(job, conf.kind)
    case Err(e) => Err(e)
    case Ok(chosen) =>
      match ApplySets(chosen, conf)
      case None => Err(NilGeneric)
      case Some(layered) => ApplyRest(layered, conf)
  }

  /** What a layer that applies does to each part of a job: the name stays, the schedule is the
      layer's if it has one, scrubbers and commands are added at the end, template values and
      files put in, and the set is of the kind the job had or the layer asks for. */
  lemma LayerMeans(job: JobValue, conf: JobConf)
    requires ApplyJob(job, conf).Ok?
    ensures var after := ApplyJob(job, conf).value;
            && after.name == job.name
            && after.schedule == (if conf.schedule.Parsed? then Some(conf.schedule.cron) else job.schedule)
            && after.templateValues == job.templateValues + conf.templateValues
            && after.scrubbers == job.scrubbers + NewScrubbers(conf.scrubbers)
            && (after.fileSet.Some? <==> job.fileSet.Some? || conf.kind == "file")
            && (after.commandSet.Some? <==>
                  job.commandSet.Some? || conf.kind == "command" || (conf.kind == "" && job.fileSet.None?))
  {
  }

  /** Each file set entry of the layer comes after those the path had. */
  lemma LayerAddsFiles(job: JobValue, conf: JobConf)
    requires ApplyJob(job, conf).Ok?
    ensures var before, after := job.fileSet, ApplyJob(job, conf).value.fileSet;
            after.Some? ==>
              forall path :: path in after.value <==> path in conf.files || (before.Some? && path in before.value)
    ensures var before, after := job.fileSet, ApplyJob(job, conf).value.fileSet;
            after.Some? ==>
              forall path :: path in after.value ==>
                after.value[path] == (if before.Some? && path in before.value then before.value[path] else [])
                                     + (if path in conf.files then [conf.files[path]] else [])
  {
  }

  /** The layer's commands come after those the job had, over the generic; a job without a set
      starts from the default command, and a copied set takes no more. */
  lemma LayerAddsCommands(job: JobValue, conf: JobConf)
    requires ApplyJob(job, conf).Ok?
    ensures var before, after := job.commandSet, ApplyJob(job, conf).value.commandSet;
            after.Some? ==>
              && (before.None? || before.value.generic.Some? ==> LayersCommands(
                    if before.None? then Command("", [], [], 120, true) else before.value.generic.value,
                    if before.None? then [] else before.value.list, conf, after.value))
              && (before.Some? && before.value.generic.None? ==> after == before)
  {
  }

  /** The generic takes in the layer's, and each command of the layer lies over that. */
  predicate LayersCommands(generic: Command, list: seq<Command>, conf: JobConf, after: Commands) {
    && after.generic.Some?
    && after.generic.value
      == (if conf.commandGeneric.None? then generic else ApplyCommand(generic, conf.commandGeneric.value))
    && |after.list| == |list| + |conf.commands| && list <= after.list
    && forall i :: 0 <= i < |conf.commands| ==>
         after.list[|list| + i] == ApplyCommand(after.generic.value, conf.commands[i])
  }

  /** A scrubber is simple unless it says otherwise, and only patterns are sanitized. */
  lemma ScrubberMeans(confs: seq<ScrubberConf>, i: nat)
    requires i < |confs|
    ensures |NewScrubbers(confs)| == |confs|
    ensures var conf, made := confs[i], NewScrubbers(confs)[i];
            && made.replace == conf.replace
            && made.kind == (if conf.kind == "" then "simple" else conf.kind)
            && made.search
              == (if conf.kind in {"regex", "regex_substitute"} then SanitizeRegex(conf.search) else conf.search)
  {
  }

  /** Job.DeepCopy: everything but the generic command. */
  function CopyJob(job: JobValue): JobValue {
    job.(commandSet := if job.commandSet.None? then None else Some(Commands(None, job.commandSet.value.list)))
  }

  // ----- Validation -----

  /** Patterns with a placeholder left in them are not checked. */
  predicate Compiles(pattern: string, compiles: string -> bool) {
    Contains(pattern, "{{") || compiles(pattern)
  }

  predicate AllCompile(patterns: seq<string>, compiles: string -> bool) {
    forall i :: 0 <= i < |patterns| ==> Compiles(patterns[i], compiles)
  }

  predicate ValidCommand(c: Command, compiles: string -> bool) {
    && c.command != "" && AllCompile(c.expected, compiles) && AllCompile(c.unexpected, compiles)
    && (c.timeout == 0 ==> c.expected == [] && c.unexpected == [])
  }

  predicate ValidCommands(commands: Commands, compiles: string -> bool) {
    commands.list != [] && forall i :: 0 <= i < |commands.list| ==> ValidCommand(commands.list[i], compiles)
  }

  predicate ValidPath(path: string, compressions: seq<string>) {
    path != "" && forall i :: 0 <= i < |compressions| ==> compressions[i] == "" || compressions[i] == "gzip"
  }

  predicate ValidPaths(files: Files) {
    forall path :: path in files ==> ValidPath(path, files[path])
  }

  predicate ValidFiles(files: Files) {
    files != map[] && ValidPaths(files)
  }

  predicate ValidScrubber(s: Scrubber, compiles: string -> bool) {
    && s.search != ""
    && if s.kind == "regex" || s.kind == "regex_substitute" then Compiles(s.search, compiles) else s.kind == "simple"
  }

  /** Job.Validate. */
  predicate ValidJob(job: JobValue, compiles: string -> bool) {
    && job.schedule.Some?
    && (job.commandSet.Some? ==> ValidCommands(job.commandSet.value, compiles))
    && (job.fileSet.Some? ==> ValidFiles(job.fileSet.value))
    && (forall i :: 0 <= i < |job.scrubbers| ==> ValidScrubber(job.scrubbers[i], compiles))
  }

  // ----- The closed form of a chain -----

  function Chain(name: string, confs: seq<JobConf>): Result<JobValue, JobError> {
    if confs == [] then Ok(DefaultJob(name))
    else
      match Chain(name, confs[..|confs| - 1])
      case Err(e) => Err(e)
      case Ok(job) => ApplyJob(job, confs[|confs| - 1])
  }

  /** The kind a chain's first layer fixes. */
  function KindOf(confs: seq<JobConf>): string
    requires confs != []
  {
    if confs[0].kind == "" then "command" else confs[0].kind
  }

  /** Every layer agrees with the kind of the first and has no rejected schedule. */
  predicate Agrees(confs: seq<JobConf>) {
    confs != [] ==>
      && (KindOf(confs) == "command" || KindOf(confs) == "file")
      && forall k :: 0 <= k < |confs| ==>
           (confs[k].kind == "" || confs[k].kind == KindOf(confs)) && !confs[k].schedule.Rejected?
  }

  /** The command generics of all layers, merged in order. */
  function MergedGeneric(confs: seq<JobConf>): Command {
    if confs == [] then DEFAULT_COMMAND
    else
      var before := MergedGeneric(confs[..|confs| - 1]);
      match confs[|confs| - 1].commandGeneric
      case None => before
      case Some(generic) => ApplyCommand(before, generic)
  }

  /** Each layer's commands over the generics merged up to and including that layer. */
  function LayeredCommands(confs: seq<JobConf>): seq<Command> {
    if confs == [] then []
    else LayeredCommands(confs[..|confs| - 1]) + LayerAll(MergedGeneric(confs), confs[|confs| - 1].commands)
  }

  function ListedFiles(confs: seq<JobConf>): Files {
    if confs == [] then NO_FILES else ApplyFiles(ListedFiles(confs[..|confs| - 1]), confs[|confs| - 1])
  }

  function LastSchedule(confs: seq<JobConf>): Option<string> {
    if confs == [] then None
    else if confs[|confs| - 1].schedule.Parsed? then Some(confs[|confs| - 1].schedule.cron)
    else LastSchedule(confs[..|confs| - 1])
  }

  function AllScrubbers(confs: seq<JobConf>): seq<Scrubber> {
    if confs == [] then [] else AllScrubbers(confs[..|confs| - 1]) + NewScrubbers(confs[|confs| - 1].scrubbers)
  }

  function MergedValues(confs: seq<JobConf>): map<string, string> {
    if confs == [] then map[] else MergedValues(confs[..|confs| - 1]) + confs[|confs| - 1].templateValues
  }

  function Closed(name: string, confs: seq<JobConf>): JobValue {
    JobValue(
      name,
      if confs != [] && KindOf(confs) != "file" then Some(Commands(Some(MergedGeneric(confs)), LayeredCommands(confs)))
        else None,
      if confs != [] && KindOf(confs) == "file" then Some(ListedFiles(confs)) else None,
      LastSchedule(confs),
      AllScrubbers(confs),
      MergedValues(confs))
  }

  lemma AgreesSnoc(confs: seq<JobConf>)
    requires confs != []
    ensures var init, last := confs[..|confs| - 1], confs[|confs| - 1];
            Agrees(confs) <==>
              && Agrees(init) && !last.schedule.Rejected?
              && (KindOf(confs) == "command" || KindOf(confs) == "file")
              && (last.kind == "" || last.kind == KindOf(confs))
  {
    var init, last := confs[..|confs| - 1], confs[|confs| - 1];
    assert forall k :: 0 <= k < |init| ==> init[k] == confs[k];
    assert confs[|confs| - 1] == last;
    if init != [] {
      assert KindOf(init) == KindOf(confs);
    }
  }

  /** One more layer on a chain in closed form. */
  lemma ClosedStep(name: string, confs: seq<JobConf>)
    requires confs != [] && Agrees(confs[..|confs| - 1])
    ensures var step := ApplyJob(Closed(name, confs[..|confs| - 1]), confs[|confs| - 1]);
            if Agrees(confs) then step == Ok(Closed(name, confs)) else step.Err?
  {
    var init, last := confs[..|confs| - 1], confs[|confs| - 1];
    AgreesSnoc(confs);
    if init != [] {
      assert KindOf(init) == KindOf(confs);
    }
    var chosen := ChooseKind(Closed(name, init), last.kind);
    if Agrees(confs) {
      ClosedSets(name, confs, chosen.value);
    }
  }

  lemma ClosedSets(name: string, confs: seq<JobConf>, chosen: JobValue)
    requires confs != [] && Agrees(confs) && Agrees(confs[..|confs| - 1])
    requires ChooseKind(Closed(name, confs[..|confs| - 1]), confs[|confs| - 1].kind) == Ok(chosen)
    ensures ApplySets(chosen, confs[|confs| - 1])
         == Some(Closed(name, confs[..|confs| - 1]).(
              commandSet := Closed(name, confs).commandSet,
              fileSet := Closed(name, confs).fileSet))
  {
    var init, last := confs[..|confs| - 1], confs[|confs| - 1];
    AgreesSnoc(confs);
    var before := Closed(name, init);
    if init == [] {
      assert chosen == if KindOf(confs) == "file" then before.(fileSet := Some(NO_FILES))
             else before.(commandSet := Some(DEFAULT_COMMANDS));
    } else {
      assert KindOf(init) == KindOf(confs);
      assert chosen == before;
    }
    if KindOf(confs) == "file" {
      assert chosen.fileSet == Some(ListedFiles(init));
    } else {
      assert chosen.commandSet == Some(Commands(Some(MergedGeneric(init)), LayeredCommands(init)));
      assert ApplyCommands(chosen.commandSet.value, last)
               == Some(Commands(Some(MergedGeneric(confs)), LayeredCommands(confs)));
    }
  }

  /** A chain of layers on a fresh job succeeds exactly when the layers agree on the kind and
      no schedule is rejected, and then has the closed form: one set of the kind fixed by the
      first layer, each layer's commands over the generics merged so far, the last schedule,
      all scrubbers in order, and the template values with later layers winning. */
  lemma {:induction false} ChainClosedForm(name: string, confs: seq<JobConf>)
    ensures if Agrees(confs) then Chain(name, confs) == Ok(Closed(name, confs)) else Chain(name, confs).Err?
  {
    if confs != [] {
      ChainClosedForm(name, confs[..|confs| - 1]);
      AgreesSnoc(confs);
      if Agrees(confs[..|confs| - 1]) {
        ClosedStep(name, confs);
      }
    }
  }

  /** Go panics on the nil generic, which only a copied command set has, exactly when a layer of
      no other kind brings commands or a command generic that writes anything. */
  lemma NilGenericExactly(job: JobValue, conf: JobConf)
    ensures ApplyJob(job, conf) == Err(NilGeneric) <==>
              && job.commandSet.Some? && job.commandSet.value.generic.None?
              && (conf.kind == "" || (conf.kind == "command" && job.fileSet.None?)) && NeedsGeneric(conf)
  {
    assert ApplyCommands(DEFAULT_COMMANDS, conf).Some?;
  }
}
