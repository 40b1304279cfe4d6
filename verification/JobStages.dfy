/** Template values applied at two stages to a job: at the device generic, and again at the
    device's own layer (model/device.go:60-69; controller/device_store.go:47-64). */
module JobStages {
  import opened Prelude
  import opened JobConfig
  import opened JobTemplates
  import opened Templates
  import opened DeviceConfig

  lemma TextStages(text: string, order1: seq<string>, first: map<string, string>, order2: seq<string>,
                   second: map<string, string>)
    requires GoodText(text) && SafeValues(first) && SafeValues(second)
    requires IsOrder(order1, first.Keys) && IsOrder(order2, second.Keys) && first.Keys <= second.Keys
    ensures ReplaceAll(ReplaceAll(text, order1, first), order2, second) == ReplaceAll(text, order2, second + first)
  {
    var tokens :| WellFormed(tokens) && Render(tokens) == text;
    StagesCompose(tokens, order1, first, order2, second);
    assert forall key :: key in second + first ==>
           (second + first)[key] == if key in first then first[key] else second[key];
    OrderIndependent(tokens, order2, second + first);
  }

  lemma TextsStages(texts: seq<string>, order1: seq<string>, first: map<string, string>, order2: seq<string>,
                    second: map<string, string>)
    requires GoodTexts(texts) && SafeValues(first) && SafeValues(second)
    requires IsOrder(order1, first.Keys) && IsOrder(order2, second.Keys) && first.Keys <= second.Keys
    ensures FillTexts(FillTexts(texts, order1, first), order2, second) == FillTexts(texts, order2, second + first)
  {
    forall i | 0 <= i < |texts|
      ensures ReplaceAll(ReplaceAll(texts[i], order1, first), order2, second)
                == ReplaceAll(texts[i], order2, second + first)
    {
      TextStages(texts[i], order1, first, order2, second);
    }
  }

  lemma CommandStages(c: Command, order1: seq<string>, first: map<string, string>, order2: seq<string>,
                      second: map<string, string>)
    requires GoodCommand(c) && SafeValues(first) && SafeValues(second)
    requires IsOrder(order1, first.Keys) && IsOrder(order2, second.Keys) && first.Keys <= second.Keys
    ensures FillCommand(FillCommand(c, order1, first), order2, second) == FillCommand(c, order2, second + first)
  {
    TextStages(c.command, order1, first, order2, second);
    TextsStages(c.expected, order1, first, order2, second);
    TextsStages(c.unexpected, order1, first, order2, second);
  }

  lemma CommandsStages(list: seq<Command>, added: seq<Command>, order1: seq<string>, first: map<string, string>,
                       order2: seq<string>, second: map<string, string>)
    requires (forall i :: 0 <= i < |list| ==> GoodCommand(list[i])) && SafeValues(first) && SafeValues(second)
    requires IsOrder(order1, first.Keys) && IsOrder(order2, second.Keys) && first.Keys <= second.Keys
    ensures FillCommands(FillCommands(list, order1, first) + added, order2, second)
         == FillCommands(list, order2, second + first) + FillCommands(added, order2, second)
  {
    forall i | 0 <= i < |list|
      ensures FillCommand(FillCommand(list[i], order1, first), order2, second)
                == FillCommand(list[i], order2, second + first)
    {
      CommandStages(list[i], order1, first, order2, second);
    }
  }

  lemma ScrubberStages(s: Scrubber, order1: seq<string>, first: map<string, string>, order2: seq<string>,
                       second: map<string, string>)
    requires GoodScrubber(s) && SafeValues(first) && SafeValues(second)
    requires IsOrder(order1, first.Keys) && IsOrder(order2, second.Keys) && first.Keys <= second.Keys
    ensures FillScrubber(FillScrubber(s, order1, first), order2, second) == FillScrubber(s, order2, second + first)
  {
    TextStages(s.search, order1, first, order2, second);
    TextStages(s.replace, order1, first, order2, second);
  }

  lemma ScrubbersStages(list: seq<Scrubber>, added: seq<Scrubber>, order1: seq<string>, first: map<string, string>,
                        order2: seq<string>, second: map<string, string>)
    requires (forall i :: 0 <= i < |list| ==> GoodScrubber(list[i])) && SafeValues(first) && SafeValues(second)
    requires IsOrder(order1, first.Keys) && IsOrder(order2, second.Keys) && first.Keys <= second.Keys
    ensures FillScrubbers(FillScrubbers(list, order1, first) + added, order2, second)
         == FillScrubbers(list, order2, second + first) + FillScrubbers(added, order2, second)
  {
    forall i | 0 <= i < |list|
      ensures FillScrubber(FillScrubber(list[i], order1, first), order2, second)
                == FillScrubber(list[i], order2, second + first)
    {
      ScrubberStages(list[i], order1, first, order2, second);
    }
  }

  function CommandsOf(job: JobValue): seq<Command> {
    if job.commandSet.None? then [] else job.commandSet.value.list
  }

  /** The layers without any substitution, with the texts of job filled from both stages, the
      first's values winning, and the texts the second layer adds filled from the second only. */
  function FilledOnce(job: JobValue, plain: JobValue, order: seq<string>, first: map<string, string>,
                      second: map<string, string>): JobValue
    requires forall key :: key in order ==> key in second
    requires |CommandsOf(job)| <= |CommandsOf(plain)| && |job.scrubbers| <= |plain.scrubbers|
  {
    var n, m := |CommandsOf(job)|, |job.scrubbers|;
    plain.(commandSet := match plain.commandSet
                         case None => None
                         case Some(c) => Some(Commands(c.generic,
                           FillCommands(c.list[..n], order, second + first)
                           + FillCommands(c.list[n..], order, second))),
           scrubbers := FillScrubbers(plain.scrubbers[..m], order, second + first)
                        + FillScrubbers(plain.scrubbers[m..], order, second))
  }

  /** The second layer adds the same to a filled job as to the job itself. */
  lemma LayersAlike(job: JobValue, once: JobValue, order: seq<string>, conf: JobConf)
    requires IsOrder(order, job.templateValues.Keys) && once == FillJob(job, order, job.templateValues)
    requires ApplyJob(once, conf).Ok?
    ensures ApplyJob(job, conf).Ok?
    ensures var plain, layered := ApplyJob(job, conf).value, ApplyJob(once, conf).value;
            && job.scrubbers <= plain.scrubbers
            && layered.scrubbers == once.scrubbers + plain.scrubbers[|job.scrubbers|..]
            && layered.templateValues == plain.templateValues == job.templateValues + conf.templateValues
            && plain.(commandSet := None, scrubbers := []) == layered.(commandSet := None, scrubbers := [])
  {
    ShapeDecides(job, once, conf);
  }

  lemma CommandsAlike(job: JobValue, once: JobValue, order: seq<string>, conf: JobConf)
    requires IsOrder(order, job.templateValues.Keys) && once == FillJob(job, order, job.templateValues)
    requires ApplyJob(job, conf).Ok? && ApplyJob(once, conf).Ok?
    ensures var plain, layered := ApplyJob(job, conf).value, ApplyJob(once, conf).value;
            && CommandsOf(job) <= CommandsOf(plain)
            && CommandsOf(layered) == CommandsOf(once) + CommandsOf(plain)[|CommandsOf(job)|..]
            && plain.commandSet.Some? == layered.commandSet.Some?
            && (plain.commandSet.Some? ==> plain.commandSet.value.generic == layered.commandSet.value.generic)
  {
    ChosenAlike(job, once, conf.kind);
    var chosen, alike := ChooseKind(job, conf.kind).value, ChooseKind(once, conf.kind).value;
    if chosen.commandSet.Some? {
      AddedAlike(chosen.commandSet.value, alike.commandSet.value, conf);
    }
  }

  lemma ChosenAlike(job: JobValue, once: JobValue, kind: string)
    requires job.commandSet.Some? == once.commandSet.Some? && job.fileSet == once.fileSet
    requires job.commandSet.Some? ==> job.commandSet.value.generic == once.commandSet.value.generic
    requires ChooseKind(job, kind).Ok? && ChooseKind(once, kind).Ok?
    ensures var chosen, alike := ChooseKind(job, kind).value, ChooseKind(once, kind).value;
            && CommandsOf(chosen) == CommandsOf(job) && CommandsOf(alike) == CommandsOf(once)
            && chosen.commandSet.Some? == alike.commandSet.Some?
            && (chosen.commandSet.Some? ==> chosen.commandSet.value.generic == alike.commandSet.value.generic)
  {
  }

  lemma AddedAlike(a: Commands, b: Commands, conf: JobConf)
    requires a.generic == b.generic && ApplyCommands(a, conf).Some? && ApplyCommands(b, conf).Some?
    ensures var c, d := ApplyCommands(a, conf).value, ApplyCommands(b, conf).value;
            a.list <= c.list && d.list == b.list + c.list[|a.list|..] && c.generic == d.generic
  {
    if a.generic.None? {
      assert b.list + a.list[|a.list|..] == b.list;
    }
  }

  /** The two loops of a device's layers over a job, with the second layer between them: on well
      formed texts, whatever the two orders, the outcome is one substitution. */
  lemma JobStagesCompose(job: JobValue, order1: seq<string>, conf: JobConf, order2: seq<string>)
    requires GoodJob(job) && GoodConf(conf) && IsOrder(order1, job.templateValues.Keys)
    requires ApplyJob(FillJob(job, order1, job.templateValues), conf).Ok?
    requires IsOrder(order2, (job.templateValues + conf.templateValues).Keys)
    ensures ApplyJob(job, conf).Ok?
    ensures var first, second := job.templateValues, job.templateValues + conf.templateValues;
            var (plain, layered) := (ApplyJob(job, conf).value, ApplyJob(FillJob(job, order1, first), conf).value);
            && layered.templateValues == second
            && |CommandsOf(job)| <= |CommandsOf(plain)| && |job.scrubbers| <= |plain.scrubbers|
            && FillJob(layered, order2, second) == FilledOnce(job, plain, order2, first, second)
  {
    var first, second := job.templateValues, job.templateValues + conf.templateValues;
    var once := FillJob(job, order1, first);
    LayersAlike(job, once, order1, conf);
    CommandsAlike(job, once, order1, conf);
    var plain, layered := ApplyJob(job, conf).value, ApplyJob(once, conf).value;
    SafeMerged(first, conf.templateValues);
    ScrubbersStages(job.scrubbers, plain.scrubbers[|job.scrubbers|..], order1, first, order2, second);
    assert plain.scrubbers[..|job.scrubbers|] == job.scrubbers;
    CommandsStages(CommandsOf(job), CommandsOf(plain)[|CommandsOf(job)|..], order1, first, order2, second);
    assert CommandsOf(plain)[..|CommandsOf(job)|] == CommandsOf(job);
    assert CommandsOf(once) == FillCommands(CommandsOf(job), order1, first);
  }

  lemma SafeMerged(a: map<string, string>, b: map<string, string>)
    requires SafeValues(a) && SafeValues(b)
    ensures SafeValues(a + b)
  {
  }

  /** Filling a second time with the same values changes nothing. */
  lemma FilledTwice(job: JobValue, middle: JobValue, result: JobValue)
    requires GoodJob(job) && Filled(job, middle) && Filled(middle, result)
    ensures Filled(job, result)
  {
    var values := job.templateValues;
    var order1 :| IsOrder(order1, values.Keys) && middle == FillJob(job, order1, values);
    var order2 :| IsOrder(order2, values.Keys) && result == FillJob(middle, order2, values);
    assert values + values == values;
    ScrubbersStages(job.scrubbers, [], order1, values, order2, values);
    NothingMore(FillScrubbers(job.scrubbers, order1, values), FillScrubbers(job.scrubbers, order2, values));
    CommandsStages(CommandsOf(job), [], order1, values, order2, values);
    NothingMoreCommands(FillCommands(CommandsOf(job), order1, values), FillCommands(CommandsOf(job), order2, values));
    assert result == FillJob(job, order2, values);
  }

  lemma NothingMore(a: seq<Scrubber>, b: seq<Scrubber>)
    ensures a + [] == a && b + [] == b
  {
  }

  lemma NothingMoreCommands(a: seq<Command>, b: seq<Command>)
    ensures a + [] == a && b + [] == b
  {
  }

  /** On well-formed texts the job is filled once, whatever layers there are. */
  lemma StoredJobFilled(name: string, conf: DeviceConf, generics: map<string, DeviceConf>, store: map<string, JobValue>,
                        result: DeviceValue, job: string)
      returns (bare: JobValue)
    requires BuildsTo(name, conf, generics, store, result) && job in store && job in conf.jobs
    requires (store[job].commandSet.Some? || store[job].fileSet.Some?) && GoodJob(store[job])
    requires AddsNothing(conf.jobs[job])
    requires forall g :: g in generics && job in generics[g].jobs ==> AddsNothing(generics[g].jobs[job])
    ensures Bare(store[job], bare) && job in result.jobs && Filled(bare, result.jobs[job])
  {
    bare := StoredJobKept(name, conf, generics, store, result, job);
    if middle :| Filled(bare, middle) && Filled(middle, result.jobs[job]) {
      FilledTwice(bare, middle, result.jobs[job]);
    }
  }
}
