/** Template substitution over a whole job (model/job.go:71-89), and when its result does not
    depend on the order in which Go ranges over the template values. */
module JobTemplates {
  import opened Prelude
  import opened Replacement
  import opened JobConfig
  import opened Templates
  import opened TemplateOrders

  function FillTexts(texts: seq<string>, order: seq<string>, values: map<string, string>): seq<string>
    requires forall key :: key in order ==> key in values
  {
    seq(|texts|, i requires 0 <= i < |texts| => ReplaceAll(texts[i], order, values))
  }

  function FillCommand(c: Command, order: seq<string>, values: map<string, string>): Command
    requires forall key :: key in order ==> key in values
  {
    Command(ReplaceAll(c.command, order, values), FillTexts(c.expected, order, values),
            FillTexts(c.unexpected, order, values), c.timeout, c.implicitEnter)
  }

  function FillCommands(list: seq<Command>, order: seq<string>, values: map<string, string>): seq<Command>
    requires forall key :: key in order ==> key in values
  {
    seq(|list|, i requires 0 <= i < |list| => FillCommand(list[i], order, values))
  }

  function FillScrubber(s: Scrubber, order: seq<string>, values: map<string, string>): Scrubber
    requires forall key :: key in order ==> key in values
  {
    Scrubber(s.kind, ReplaceAll(s.search, order, values), ReplaceAll(s.replace, order, values))
  }

  function FillScrubbers(list: seq<Scrubber>, order: seq<string>, values: map<string, string>): seq<Scrubber>
    requires forall key :: key in order ==> key in values
  {
    seq(|list|, i requires 0 <= i < |list| => FillScrubber(list[i], order, values))
  }

  /** The job after ApplyTemplateValues ranged over the values in this order. The generic
      command is not substituted. */
  function FillJob(job: JobValue, order: seq<string>, values: map<string, string>): JobValue
    requires forall key :: key in order ==> key in values
  {
    job.(commandSet := match job.commandSet
                       case None => None
                       case Some(c) => Some(Commands(c.generic, FillCommands(c.list, order, values))),
         scrubbers := FillScrubbers(job.scrubbers, order, values))
  }

  // ----- One key -----

  function ReplaceTexts(texts: seq<string>, key: string, value: string): seq<string> {
    seq(|texts|, i requires 0 <= i < |texts| => Replace(texts[i], Placeholder(key), value))
  }

  function ReplaceInCommand(c: Command, key: string, value: string): Command {
    Command(Replace(c.command, Placeholder(key), value), ReplaceTexts(c.expected, key, value),
            ReplaceTexts(c.unexpected, key, value), c.timeout, c.implicitEnter)
  }

  function ReplaceInCommands(list: seq<Command>, key: string, value: string): seq<Command> {
    seq(|list|, i requires 0 <= i < |list| => ReplaceInCommand(list[i], key, value))
  }

  function ReplaceInScrubber(s: Scrubber, key: string, value: string): Scrubber {
    Scrubber(s.kind, Replace(s.search, Placeholder(key), value), Replace(s.replace, Placeholder(key), value))
  }

  function ReplaceInScrubbers(list: seq<Scrubber>, key: string, value: string): seq<Scrubber> {
    seq(|list|, i requires 0 <= i < |list| => ReplaceInScrubber(list[i], key, value))
  }

  /** One round of the loop over the template values. */
  function ReplaceInJob(job: JobValue, key: string, value: string): JobValue {
    job.(commandSet := match job.commandSet
                       case None => None
                       case Some(c) => Some(Commands(c.generic, ReplaceInCommands(c.list, key, value))),
         scrubbers := ReplaceInScrubbers(job.scrubbers, key, value))
  }

  lemma FillCommandSnoc(c: Command, order: seq<string>, key: string, values: map<string, string>)
    requires key in values && forall k :: k in order ==> k in values
    ensures FillCommand(c, order + [key], values) == ReplaceInCommand(FillCommand(c, order, values), key, values[key])
  {
    assert (order + [key])[..|order|] == order;
  }

  lemma FillScrubberSnoc(s: Scrubber, order: seq<string>, key: string, values: map<string, string>)
    requires key in values && forall k :: k in order ==> k in values
    ensures FillScrubber(s, order + [key], values)
              == ReplaceInScrubber(FillScrubber(s, order, values), key, values[key])
  {
    assert (order + [key])[..|order|] == order;
  }

  lemma FillJobSnoc(job: JobValue, order: seq<string>, key: string, values: map<string, string>)
    requires key in values && forall k :: k in order ==> k in values
    ensures FillJob(job, order + [key], values) == ReplaceInJob(FillJob(job, order, values), key, values[key])
  {
    forall i | 0 <= i < |job.scrubbers|
      ensures FillScrubbers(job.scrubbers, order + [key], values)[i]
           == ReplaceInScrubbers(FillScrubbers(job.scrubbers, order, values), key, values[key])[i]
    {
      FillScrubberSnoc(job.scrubbers[i], order, key, values);
    }
    if job.commandSet.Some? {
      var list := job.commandSet.value.list;
      forall i | 0 <= i < |list|
        ensures FillCommands(list, order + [key], values)[i]
                  == ReplaceInCommands(FillCommands(list, order, values), key, values[key])[i]
      {
        FillCommandSnoc(list[i], order, key, values);
      }
      assert FillCommands(list, order + [key], values)
               == ReplaceInCommands(FillCommands(list, order, values), key, values[key]);
    }
  }

  lemma FillJobNone(job: JobValue, values: map<string, string>)
    ensures FillJob(job, [], values) == job
  {
    forall i | 0 <= i < |job.scrubbers| ensures FillScrubbers(job.scrubbers, [], values)[i] == job.scrubbers[i] {
    }
    assert FillScrubbers(job.scrubbers, [], values) == job.scrubbers;
    if job.commandSet.Some? {
      var list := job.commandSet.value.list;
      forall i | 0 <= i < |list| ensures FillCommand(list[i], [], values) == list[i] {
        assert FillTexts(list[i].expected, [], values) == list[i].expected;
        assert FillTexts(list[i].unexpected, [], values) == list[i].unexpected;
      }
      assert FillCommands(list, [], values) == list;
    }
  }

  /** A possible outcome of ApplyTemplateValues. */
  ghost predicate Filled(job: JobValue, result: JobValue) {
    exists order :: IsOrder(order, job.templateValues.Keys) && result == FillJob(job, order, job.templateValues)
  }

  /** One text after another: each is what the loop makes of it. */
  predicate TextsFilled(texts: seq<string>, order: seq<string>, values: map<string, string>, filled: seq<string>)
    requires forall key :: key in order ==> key in values
  {
    |filled| == |texts| && forall i :: 0 <= i < |texts| ==> filled[i] == ReplaceAll(texts[i], order, values)
  }

  predicate CommandFilled(c: Command, order: seq<string>, values: map<string, string>, filled: Command)
    requires forall key :: key in order ==> key in values
  {
    && filled.command == ReplaceAll(c.command, order, values)
    && TextsFilled(c.expected, order, values, filled.expected)
    && TextsFilled(c.unexpected, order, values, filled.unexpected)
    && filled.timeout == c.timeout && filled.implicitEnter == c.implicitEnter
  }

  /** Every command, expectation, search and replacement is filled, in one order of the values,
      and nothing else changes. */
  lemma FilledMeans(job: JobValue, result: JobValue) returns (order: seq<string>)
    requires Filled(job, result)
    ensures IsOrder(order, job.templateValues.Keys)
    ensures result.name == job.name && result.schedule == job.schedule && result.fileSet == job.fileSet
    ensures result.templateValues == job.templateValues && |result.scrubbers| == |job.scrubbers|
    ensures forall i :: 0 <= i < |job.scrubbers| ==>
              && result.scrubbers[i].kind == job.scrubbers[i].kind
              && result.scrubbers[i].search == ReplaceAll(job.scrubbers[i].search, order, job.templateValues)
              && result.scrubbers[i].replace == ReplaceAll(job.scrubbers[i].replace, order, job.templateValues)
    ensures result.commandSet.Some? <==> job.commandSet.Some?
    ensures job.commandSet.Some? ==>
              var (before, after) := (job.commandSet.value, result.commandSet.value);
              && after.generic == before.generic && |after.list| == |before.list|
              && forall i :: 0 <= i < |before.list| ==>
                   CommandFilled(before.list[i], order, job.templateValues, after.list[i])
  {
    order :| IsOrder(order, job.templateValues.Keys) && result == FillJob(job, order, job.templateValues);
  }

  // ----- Well-formed jobs -----

  ghost predicate GoodTexts(texts: seq<string>) {
    forall i :: 0 <= i < |texts| ==> GoodText(texts[i])
  }

  ghost predicate GoodCommand(c: Command) {
    GoodText(c.command) && GoodTexts(c.expected) && GoodTexts(c.unexpected)
  }

  ghost predicate GoodScrubber(s: Scrubber) {
    GoodText(s.search) && GoodText(s.replace)
  }

  ghost predicate GoodCommands(commands: Commands) {
    && (commands.generic.Some? ==> GoodCommand(commands.generic.value))
    && forall i :: 0 <= i < |commands.list| ==> GoodCommand(commands.list[i])
  }

  /** Every text of the job is made of safe literals and placeholders. */
  ghost predicate GoodTextsOf(job: JobValue) {
    && (forall i :: 0 <= i < |job.scrubbers| ==> GoodScrubber(job.scrubbers[i]))
    && (job.commandSet.Some? ==> GoodCommands(job.commandSet.value))
  }

  /** And so are its template values. */
  ghost predicate GoodJob(job: JobValue) {
    SafeValues(job.templateValues) && GoodTextsOf(job)
  }

  ghost predicate GoodCommandConf(c: CommandConf) {
    GoodText(c.command) && GoodTexts(c.expected) && GoodTexts(c.unexpected)
  }

  ghost predicate GoodConf(conf: JobConf) {
    && SafeValues(conf.templateValues)
    && (forall i :: 0 <= i < |conf.scrubbers| ==>
      GoodText(conf.scrubbers[i].search) && GoodText(conf.scrubbers[i].replace))
    && (conf.commandGeneric.Some? ==> GoodCommandConf(conf.commandGeneric.value))
    && (forall i :: 0 <= i < |conf.commands| ==> GoodCommandConf(conf.commands[i]))
  }

  lemma {:induction false} RenderConcat(a: seq<Token>, b: seq<Token>)
    ensures Render(a + b) == Render(a) + Render(b)
  {
    if a == [] {
      assert a + b == b;
      assert "" + Render(b) == Render(b);
    } else {
      var head, tail := a[0], a[1..];
      RenderConcat(tail, b);
      RenderCons(head, tail + b);
      RenderCons(head, tail);
      SplitHead(a, b);
      Assoc(RenderToken(head), Render(tail), Render(b));
    }
  }

  lemma SplitHead(a: seq<Token>, b: seq<Token>)
    requires a != []
    ensures [a[0]] + a[1..] == a && [a[0]] + (a[1..] + b) == a + b
  {
  }

  lemma RenderCons(head: Token, tail: seq<Token>)
    ensures Render([head] + tail) == RenderToken(head) + Render(tail)
  {
    assert ([head] + tail)[1..] == tail;
  }

  /** Safe text around a good text leaves it good. */
  lemma GoodAround(before: string, text: string, after: string)
    requires GoodText(text) && Safe(before) && Safe(after)
    ensures GoodText(before + text + after)
  {
    var tokens :| WellFormed(tokens) && Render(tokens) == text;
    var all := [Lit(before)] + tokens + [Lit(after)];
    RenderConcat([Lit(before)] + tokens, [Lit(after)]);
    RenderConcat([Lit(before)], tokens);
    RenderOne(Lit(before));
    RenderOne(Lit(after));
    assert WellFormed(all);
  }

  lemma RenderOne(token: Token)
    ensures Render([token]) == RenderToken(token)
  {
    assert [token][1..] == [];
    assert RenderToken(token) + "" == RenderToken(token);
  }

  lemma SanitizedGood(regex: string)
    requires GoodText(regex)
    ensures GoodText(SanitizeRegex(regex))
  {
    var prefixed := if "^" <= regex then regex else ".*" + regex;
    assert "" + regex + "" == regex && "" + regex + ".*" == regex + ".*" && ".*" + regex + "" == ".*" + regex;
    GoodAround("", regex, "");
    GoodAround("", regex, ".*");
    GoodAround(".*", regex, "");
    GoodAround(".*", regex, ".*");
  }

  lemma AppliedGood(c: Command, conf: CommandConf)
    requires GoodCommand(c) && GoodCommandConf(conf)
    ensures GoodCommand(ApplyCommand(c, conf))
  {
    SanitizedAllGood(conf.expected);
    SanitizedAllGood(conf.unexpected);
  }

  lemma SanitizedAllGood(texts: seq<string>)
    requires GoodTexts(texts)
    ensures GoodTexts(SanitizeAll(texts))
  {
    forall i | 0 <= i < |texts| ensures GoodText(SanitizeAll(texts)[i]) {
      SanitizedGood(texts[i]);
    }
  }

  lemma LayeredGood(generic: Command, confs: seq<CommandConf>)
    requires GoodCommand(generic) && forall i :: 0 <= i < |confs| ==> GoodCommandConf(confs[i])
    ensures forall i :: 0 <= i < |confs| ==> GoodCommand(LayerAll(generic, confs)[i])
  {
    forall i | 0 <= i < |confs| ensures GoodCommand(LayerAll(generic, confs)[i]) {
      AppliedGood(generic, confs[i]);
    }
  }

  lemma NewScrubberGood(conf: ScrubberConf)
    requires GoodText(conf.search) && GoodText(conf.replace)
    ensures GoodScrubber(NewScrubber(conf))
  {
    SanitizedGood(conf.search);
  }

  lemma DefaultGood()
    ensures GoodCommand(DEFAULT_COMMAND)
  {
    assert WellFormed([]) && Render([]) == "";
  }

  /** Layering good configuration on a good job gives a good job. */
  lemma ApplyGood(job: JobValue, conf: JobConf)
    requires GoodJob(job) && GoodConf(conf) && ApplyJob(job, conf).Ok?
    ensures GoodJob(ApplyJob(job, conf).value)
  {
    ChosenGood(job, conf.kind);
    var chosen := ChooseKind(job, conf.kind).value;
    SetsGood(chosen, conf);
    RestGood(ApplySets(chosen, conf).value, conf);
  }

  lemma ChosenGood(job: JobValue, kind: string)
    requires GoodJob(job) && ChooseKind(job, kind).Ok?
    ensures GoodJob(ChooseKind(job, kind).value)
  {
    DefaultGood();
  }

  lemma SetsGood(job: JobValue, conf: JobConf)
    requires GoodJob(job) && GoodConf(conf) && ApplySets(job, conf).Some?
    ensures GoodJob(ApplySets(job, conf).value)
  {
    if job.commandSet.Some? {
      CommandsGood(job.commandSet.value, conf);
    }
  }

  lemma RestGood(job: JobValue, conf: JobConf)
    requires GoodJob(job) && GoodConf(conf) && ApplyRest(job, conf).Ok?
    ensures GoodJob(ApplyRest(job, conf).value)
  {
    forall i | 0 <= i < |conf.scrubbers| ensures GoodScrubber(NewScrubbers(conf.scrubbers)[i]) {
      NewScrubberGood(conf.scrubbers[i]);
    }
  }

  lemma CommandsGood(commands: Commands, conf: JobConf)
    requires GoodCommands(commands) && GoodConf(conf) && ApplyCommands(commands, conf).Some?
    ensures GoodCommands(ApplyCommands(commands, conf).value)
  {
    if commands.generic.Some? {
      var generic := commands.generic.value;
      if conf.commandGeneric.Some? {
        AppliedGood(generic, conf.commandGeneric.value);
        generic := ApplyCommand(generic, conf.commandGeneric.value);
      }
      LayeredGood(generic, conf.commands);
    }
  }

  /** A job built from good layers is good. */
  lemma {:induction false} ChainGood(name: string, confs: seq<JobConf>)
    requires Chain(name, confs).Ok? && forall k :: 0 <= k < |confs| ==> GoodConf(confs[k])
    ensures GoodJob(Chain(name, confs).value)
  {
    if confs != [] {
      ChainGood(name, confs[..|confs| - 1]);
      ApplyGood(Chain(name, confs[..|confs| - 1]).value, confs[|confs| - 1]);
    }
  }

  // ----- Independence of the order -----

  lemma FillTextsAlike(texts: seq<string>, order1: seq<string>, order2: seq<string>, values: map<string, string>)
    requires IsOrder(order1, values.Keys) && IsOrder(order2, values.Keys) && Alike(order1, order2, values)
    requires GoodTexts(texts)
    ensures FillTexts(texts, order1, values) == FillTexts(texts, order2, values)
  {
  }

  lemma FillCommandsAlike(list: seq<Command>, order1: seq<string>, order2: seq<string>, values: map<string, string>)
    requires IsOrder(order1, values.Keys) && IsOrder(order2, values.Keys) && Alike(order1, order2, values)
    requires forall i :: 0 <= i < |list| ==> GoodCommand(list[i])
    ensures FillCommands(list, order1, values) == FillCommands(list, order2, values)
  {
    forall i | 0 <= i < |list| ensures FillCommand(list[i], order1, values) == FillCommand(list[i], order2, values) {
      FillTextsAlike(list[i].expected, order1, order2, values);
      FillTextsAlike(list[i].unexpected, order1, order2, values);
    }
  }

  lemma FillScrubbersAlike(list: seq<Scrubber>, order1: seq<string>, order2: seq<string>, values: map<string, string>)
    requires IsOrder(order1, values.Keys) && IsOrder(order2, values.Keys) && Alike(order1, order2, values)
    requires forall i :: 0 <= i < |list| ==> GoodScrubber(list[i])
    ensures FillScrubbers(list, order1, values) == FillScrubbers(list, order2, values)
  {
    forall i | 0 <= i < |list| ensures FillScrubber(list[i], order1, values) == FillScrubber(list[i], order2, values) {
      assert GoodText(list[i].search) && GoodText(list[i].replace);
    }
  }

  /** Orders that fill all texts alike fill the job alike. */
  lemma FillJobAlike(job: JobValue, order1: seq<string>, order2: seq<string>, values: map<string, string>)
    requires IsOrder(order1, values.Keys) && IsOrder(order2, values.Keys) && Alike(order1, order2, values)
    requires GoodTextsOf(job)
    ensures FillJob(job, order1, values) == FillJob(job, order2, values)
  {
    FillScrubbersAlike(job.scrubbers, order1, order2, values);
    if job.commandSet.Some? {
      FillCommandsAlike(job.commandSet.value.list, order1, order2, values);
    }
  }

  lemma FillTextGood(text: string, order: seq<string>, values: map<string, string>)
    requires GoodText(text) && SafeValues(values) && IsOrder(order, values.Keys)
    ensures GoodText(ReplaceAll(text, order, values))
  {
    var tokens :| WellFormed(tokens) && Render(tokens) == text;
    OrderIndependent(tokens, order, values);
    SubstAllSafe(tokens, values);
  }

  lemma FillTextsGood(texts: seq<string>, order: seq<string>, values: map<string, string>)
    requires GoodTexts(texts) && SafeValues(values) && IsOrder(order, values.Keys)
    ensures GoodTexts(FillTexts(texts, order, values))
  {
    forall i | 0 <= i < |texts| ensures GoodText(ReplaceAll(texts[i], order, values)) {
      FillTextGood(texts[i], order, values);
    }
  }

  lemma FillCommandsGood(list: seq<Command>, order: seq<string>, values: map<string, string>)
    requires (forall i :: 0 <= i < |list| ==> GoodCommand(list[i])) && SafeValues(values) && IsOrder(order, values.Keys)
    ensures forall i :: 0 <= i < |list| ==> GoodCommand(FillCommands(list, order, values)[i])
  {
    forall i | 0 <= i < |list| ensures GoodCommand(FillCommand(list[i], order, values)) {
      FillTextGood(list[i].command, order, values);
      FillTextsGood(list[i].expected, order, values);
      FillTextsGood(list[i].unexpected, order, values);
    }
  }

  /** Safe values leave the job's texts good. */
  lemma FillJobGood(job: JobValue, order: seq<string>)
    requires GoodJob(job) && IsOrder(order, job.templateValues.Keys)
    ensures GoodJob(FillJob(job, order, job.templateValues))
  {
    var values := job.templateValues;
    forall i | 0 <= i < |job.scrubbers| ensures GoodScrubber(FillScrubber(job.scrubbers[i], order, values)) {
      FillTextGood(job.scrubbers[i].search, order, values);
      FillTextGood(job.scrubbers[i].replace, order, values);
    }
    if job.commandSet.Some? {
      FillCommandsGood(job.commandSet.value.list, order, values);
    }
  }

  /** ApplyTemplateValues has one outcome on a job of good texts. */
  lemma FilledUnique(job: JobValue, a: JobValue, b: JobValue)
    requires GoodJob(job) && Filled(job, a) && Filled(job, b)
    ensures a == b && GoodJob(a)
  {
    SafeIsIndependent(job.templateValues);
    FilledAlike(job, a, b);
    var order :| IsOrder(order, job.templateValues.Keys) && a == FillJob(job, order, job.templateValues);
    FillJobGood(job, order);
  }

  lemma FilledAlike(job: JobValue, a: JobValue, b: JobValue)
    requires GoodTextsOf(job) && PlainKeys(job.templateValues) && Independent(job.templateValues)
    requires Filled(job, a) && Filled(job, b)
    ensures a == b
  {
    var values := job.templateValues;
    var order1 :| IsOrder(order1, values.Keys) && a == FillJob(job, order1, values);
    var order2 :| IsOrder(order2, values.Keys) && b == FillJob(job, order2, values);
    IndependentAlike(order1, order2, values);
    FillJobAlike(job, order1, order2, values);
  }

  /** All jobs of good texts with these template values have one outcome each. */
  ghost predicate OneOutcome(values: map<string, string>) {
    forall job: JobValue, a, b ::
      job.templateValues == values && GoodTextsOf(job) && Filled(job, a) && Filled(job, b) ==> a == b
  }

  /** Exactly when Go's map order does not matter for a map of template values. */
  lemma OneOutcomeExactly(values: map<string, string>)
    requires PlainKeys(values)
    ensures OneOutcome(values) <==> Independent(values)
  {
    if Independent(values) {
      forall job: JobValue, a, b | job.templateValues == values && GoodTextsOf(job) && Filled(job, a) && Filled(job, b)
        ensures a == b
      {
        FilledAlike(job, a, b);
      }
    } else {
      var job, a, b := TwoOutcomes(values);
      assert job.templateValues == values && a != b;
    }
  }

  lemma TwoOutcomes(values: map<string, string>) returns (job: JobValue, a: JobValue, b: JobValue)
    requires PlainKeys(values) && !Independent(values)
    ensures job.templateValues == values && GoodTextsOf(job) && Filled(job, a) && Filled(job, b) && a != b
  {
    var text, order1, order2 := MixedDisagree(values);
    job := JobValue("", Some(Commands(None, [Command(text, [], [], 0, true)])), None, None, [], values);
    a, b := FillJob(job, order1, values), FillJob(job, order2, values);
    assert a.commandSet.value.list[0].command == ReplaceAll(text, order1, values);
    assert b.commandSet.value.list[0].command == ReplaceAll(text, order2, values);
  }
}
