/** The job store: every configured job is built from its generic and its own layer, and
    kept only when it validates (controller/job_store.go:28-81). */
module JobStores {
  import opened Prelude
  import opened JobConfig
  import opened JobTemplates
  import opened JobObjects
  import opened JobMaps

  datatype StoredConf = StoredConf(generic: string, layer: JobConf)

  datatype JobStoreConf = JobStoreConf(jobs: map<string, StoredConf>, generics: map<string, StoredConf>)

  datatype StoreError =
    | MissingGeneric(name: string)
    | Misconfigured(name: string, error: JobError)
    | Invalid(name: string)

  /** The layers a job is built from; None when its generic does not exist. The default
      generic is the job of that name, not the job generic. */
  function Layers(conf: StoredConf, store: JobStoreConf): Option<seq<JobConf>> {
    if conf.generic != "" then
      if conf.generic in store.generics then Some([store.generics[conf.generic].layer, conf.layer]) else None
    else if "default" in store.jobs then Some([store.jobs["default"].layer, conf.layer])
    else Some([conf.layer])
  }

  predicate Acceptable(name: string, conf: StoredConf, store: JobStoreConf, compiles: string -> bool) {
    && Layers(conf, store).Some?
    && Agrees(Layers(conf, store).value)
    && ValidJob(Closed(name, Layers(conf, store).value), compiles)
  }

  lemma LayersBuild(name: string, first: JobConf, second: JobConf)
    ensures Chain(name, [first]) == ApplyJob(DefaultJob(name), first)
    ensures Chain(name, [first]).Ok? ==> Chain(name, [first, second]) == ApplyJob(Chain(name, [first]).value, second)
    ensures Chain(name, [first]).Err? ==> Chain(name, [first, second]) == Chain(name, [first])
  {
    assert [first][..0] == [] && [first, second][..1] == [first];
    assert Chain(name, []) == Ok(DefaultJob(name));
  }

  /** With no generic named, the job called default is layered over itself, so it lists
      every one of its commands and scrubbers twice. */
  lemma DefaultLayeredTwice(store: JobStoreConf)
    requires "default" in store.jobs && store.jobs["default"].generic == ""
    requires Agrees([store.jobs["default"].layer])
    ensures var layer := store.jobs["default"].layer;
            exists layers, job ::
              && Layers(store.jobs["default"], store) == Some(layers) && Chain("default", layers) == Ok(job)
              && job.scrubbers == NewScrubbers(layer.scrubbers) + NewScrubbers(layer.scrubbers)
              && (layer.kind != "file" ==> job.commandSet.Some? && |job.commandSet.value.list| == 2 * |layer.commands|)
  {
    var layer := store.jobs["default"].layer;
    var layers := [layer, layer];
    ChainClosedForm("default", layers);
    assert [layer][..0] == [] && layers[..1] == [layer];
    assert [layer][0] == layer;
    assert AllScrubbers([layer]) == NewScrubbers(layer.scrubbers);
    assert |LayeredCommands([layer])| == |layer.commands|;
    assert Agrees(layers);
    assert Layers(store.jobs["default"], store) == Some(layers)
           && Chain("default", layers) == Ok(Closed("default", layers));
  }

  /** One round of the loop: the generic first, then the job's own layer. */
  method BuildJob(name: string, conf: StoredConf, store: JobStoreConf) returns (err: Option<StoreError>, job: Job)
    ensures err.None? ==> job.Valid() && fresh(job.Repr)
    ensures err.None? ==>
            Layers(conf, store).Some? && Agrees(Layers(conf, store).value)
              && job.value == Closed(name, Layers(conf, store).value)
    ensures err.Some? ==> err.value.name == name && (Layers(conf, store).Some? ==> !Agrees(Layers(conf, store).value))
  {
    job := new Job.Default(name);
    var failed: Option<JobError> := None;
    if conf.generic != "" {
      if conf.generic !in store.generics {
        return Some(MissingGeneric(name)), job;
      }
      failed := LayerBoth(job, store.generics[conf.generic].layer, conf.layer);
    } else if "default" in store.jobs {
      failed := LayerBoth(job, store.jobs["default"].layer, conf.layer);
    } else {
      failed := job.ApplyConfig(conf.layer);
      LayersBuild(name, conf.layer, conf.layer);
    }
    ChainClosedForm(name, Layers(conf, store).value);
    err := if failed.None? then None else Some(Misconfigured(name, failed.value));
  }

  method LayerBoth(job: Job, first: JobConf, second: JobConf) returns (err: Option<JobError>)
    requires job.Valid() && job.value == DefaultJob(job.name)
    modifies job.Repr
    ensures err.Some? ==> Chain(job.name, [first, second]) == Err(err.value)
    ensures err.None? ==>
            job.Valid() && fresh(job.Repr - old(job.Repr)) && Chain(job.name, [first, second]) == Ok(job.value)
  {
    LayersBuild(job.name, first, second);
    err := job.ApplyConfig(first);
    if err.None? {
      err := job.ApplyConfig(second);
    }
  }

  /** BuildJob, then Validate. */
  method BuildValid(name: string, conf: StoredConf, store: JobStoreConf, compiles: string -> bool)
      returns (err: Option<StoreError>, job: Job)
    ensures err.None? <==> Acceptable(name, conf, store, compiles)
    ensures err.Some? ==> err.value.name == name
    ensures err.None? ==> fresh(job.Repr) && job.Valid() && job.value == Closed(name, Layers(conf, store).value)
  {
    err, job := BuildJob(name, conf, store);
    if err.None? {
      var ok := job.Validate(compiles);
      if !ok {
        err := Some(Invalid(name));
      }
    }
  }

  ghost predicate Named(errs: seq<StoreError>, name: string) {
    exists i :: 0 <= i < |errs| && errs[i].name == name
  }

  lemma NamedSnoc(errs: seq<StoreError>, err: StoreError, name: string)
    ensures Named(errs + [err], name) <==> Named(errs, name) || name == err.name
  {
    assert (errs + [err])[|errs|] == err;
    if Named(errs, name) {
      var i :| 0 <= i < |errs| && errs[i].name == name;
      assert (errs + [err])[i].name == name;
    }
  }

  /** The jobs of these names that can be accepted, in closed form. */
  function Accepted(conf: JobStoreConf, compiles: string -> bool, names: set<string>): map<string, JobValue>
    requires names <= conf.jobs.Keys
  {
    map name | name in names && Acceptable(name, conf.jobs[name], conf, compiles) ::
      Closed(name, Layers(conf.jobs[name], conf).value)
  }

  // ----- What an accepted job holds, by its configuration -----

  /** The job of its own layer over another, if there is one: its schedule is its own if given,
      else the other's; the other's scrubbers, files and commands come before its own, which lie
      over both command generics; its template values win; the first layer fixes the kind. */
  predicate OwnOver(base: Option<JobConf>, own: JobConf, job: JobValue) {
    && job.schedule == (if own.schedule.Parsed? then Some(own.schedule.cron)
                        else if base.Some? && base.value.schedule.Parsed? then Some(base.value.schedule.cron) else None)
    && job.scrubbers == (if base.None? then [] else NewScrubbers(base.value.scrubbers)) + NewScrubbers(own.scrubbers)
    && job.templateValues == (if base.None? then map[] else base.value.templateValues) + own.templateValues
    && (job.fileSet.Some? <==> (if base.None? then own else base.value).kind == "file")
    && (job.commandSet.Some? <==> (if base.None? then own else base.value).kind != "file")
  }

  predicate OwnCommandsOver(base: Option<JobConf>, own: JobConf, commands: Commands) {
    var start := Command("", [], [], 120, true);
    var under := if base.None? || base.value.commandGeneric.None? then start
                 else ApplyCommand(start, base.value.commandGeneric.value);
    var over := if own.commandGeneric.None? then under else ApplyCommand(under, own.commandGeneric.value);
    && commands.list == (if base.None? then [] else LayerAll(under, base.value.commands)) + LayerAll(over, own.commands)
    && commands.generic == Some(over)
  }

  ghost predicate OwnFilesOver(base: Option<JobConf>, own: JobConf, files: Files) {
    && (forall path :: path in files <==> path in own.files || (base.Some? && path in base.value.files))
    && forall path :: path in files ==>
         files[path] == (if base.Some? && path in base.value.files then [base.value.files[path]] else [])
                        + (if path in own.files then [own.files[path]] else [])
  }

  ghost predicate Layered(base: Option<JobConf>, own: JobConf, job: JobValue) {
    && OwnOver(base, own, job)
    && (job.commandSet.Some? ==> OwnCommandsOver(base, own, job.commandSet.value))
    && (job.fileSet.Some? ==> OwnFilesOver(base, own, job.fileSet.value))
  }

  /** The job as its configuration says: over the generic it names, or else over the job called
      default, or else alone. */
  ghost predicate AsConfigured(conf: JobStoreConf, name: string, job: JobValue)
    requires name in conf.jobs
  {
    var own := conf.jobs[name];
    && job.name == name
    && (own.generic != "" ==>
          own.generic in conf.generics && Layered(Some(conf.generics[own.generic].layer), own.layer, job))
    && (own.generic == "" && "default" in conf.jobs ==> Layered(Some(conf.jobs["default"].layer), own.layer, job))
    && (own.generic == "" && "default" !in conf.jobs ==> Layered(None, own.layer, job))
  }

  lemma AcceptedAsConfigured(conf: JobStoreConf, compiles: string -> bool, name: string)
    requires name in conf.jobs && Acceptable(name, conf.jobs[name], conf, compiles)
    ensures AsConfigured(conf, name, Closed(name, Layers(conf.jobs[name], conf).value))
  {
    var own := conf.jobs[name];
    if own.generic != "" {
      TwoLayered(name, conf.generics[own.generic].layer, own.layer);
    } else if "default" in conf.jobs {
      TwoLayered(name, conf.jobs["default"].layer, own.layer);
    } else {
      OneLayered(name, own.layer);
    }
  }

  lemma OneLayered(name: string, own: JobConf)
    requires Agrees([own])
    ensures Layered(None, own, Closed(name, [own]))
  {
    assert [own][..0] == [] && [own][0] == own;
    assert MergedGeneric([]) == DEFAULT_COMMAND && LayeredCommands([]) == [] && ListedFiles([]) == NO_FILES;
    assert AllScrubbers([]) == [] && MergedValues([]) == map[] && LastSchedule([]) == None;
    assert [] + NewScrubbers(own.scrubbers) == NewScrubbers(own.scrubbers);
  }

  lemma TwoLayered(name: string, base: JobConf, own: JobConf)
    requires Agrees([base, own])
    ensures Layered(Some(base), own, Closed(name, [base, own]))
  {
    var both := [base, own];
    assert both[..1] == [base] && both[0] == base && both[1] == own;
    AgreesSnoc(both);
    OneLayered(name, base);
    TwoCommands(base, own);
    TwoFiles(base, own);
    assert map[] + base.templateValues == base.templateValues;
    assert [] + NewScrubbers(base.scrubbers) == NewScrubbers(base.scrubbers);
  }

  lemma TwoCommands(base: JobConf, own: JobConf)
    ensures OwnCommandsOver(Some(base), own, Commands(Some(MergedGeneric([base, own])), LayeredCommands([base, own])))
  {
    assert [base, own][..1] == [base] && [base][..0] == [];
    assert MergedGeneric([]) == DEFAULT_COMMAND && LayeredCommands([]) == [];
    var under := MergedGeneric([base]);
    assert LayeredCommands([base]) == [] + LayerAll(under, base.commands) == LayerAll(under, base.commands);
  }

  lemma TwoFiles(base: JobConf, own: JobConf)
    ensures OwnFilesOver(Some(base), own, ListedFiles([base, own]))
  {
    assert [base, own][..1] == [base] && [base][..0] == [];
    assert ListedFiles([]) == NO_FILES;
    assert ListedFiles([base]) == ApplyFiles(NO_FILES, base);
  }

  method AddJob(jobs: map<string, Job>, ghost owned: set<object>, name: string, conf: JobStoreConf,
                compiles: string -> bool)
      returns (err: Option<StoreError>, more: map<string, Job>, ghost grown: set<object>)
    requires Held(jobs, owned) && name !in jobs && name in conf.jobs
    ensures err.None? <==> Acceptable(name, conf.jobs[name], conf, compiles)
    ensures err.Some? ==> err.value.name == name
    ensures Held(more, grown) && owned <= grown && fresh(grown - owned)
    ensures Values(more, grown)
         == if err.None? then old(Values(jobs, owned))[name := Closed(name, Layers(conf.jobs[name], conf).value)]
           else old(Values(jobs, owned))
  {
    var job;
    err, job := BuildValid(name, conf.jobs[name], conf, compiles);
    StockKept(Stock(jobs, owned));
    if err.Some? {
      more, grown := jobs, owned;
    } else {
      HeldPut(jobs, owned, name, job);
      more, grown := jobs[name := job], owned + job.Repr;
    }
  }

  lemma AcceptedSnoc(conf: JobStoreConf, compiles: string -> bool, left: set<string>, name: string)
    requires name in left && left <= conf.jobs.Keys
    ensures Accepted(conf, compiles, conf.jobs.Keys - (left - {name}))
         == if Acceptable(name, conf.jobs[name], conf, compiles)
            then
              Accepted(conf, compiles, conf.jobs.Keys - left)
              [name := Closed(name, Layers(conf.jobs[name], conf).value)]
            else Accepted(conf, compiles, conf.jobs.Keys - left)
  {
    AcceptedOneMore(conf, compiles, conf.jobs.Keys - left, name);
    assert conf.jobs.Keys - (left - {name}) == conf.jobs.Keys - left + {name};
  }

  lemma AcceptedOneMore(conf: JobStoreConf, compiles: string -> bool, names: set<string>, name: string)
    requires names <= conf.jobs.Keys && name in conf.jobs
    ensures Accepted(conf, compiles, names + {name})
         == if Acceptable(name, conf.jobs[name], conf, compiles)
            then Accepted(conf, compiles, names)[name := Closed(name, Layers(conf.jobs[name], conf).value)]
            else Accepted(conf, compiles, names)
  {
  }

  /** The errors name exactly the jobs among these that cannot be accepted. */
  ghost predicate Reported(errs: seq<StoreError>, conf: JobStoreConf, compiles: string -> bool, names: set<string>) {
    forall name :: Named(errs, name)
      <==> name in conf.jobs && name in names && !Acceptable(name, conf.jobs[name], conf, compiles)
  }

  lemma ReportedSnoc(errs: seq<StoreError>, err: Option<StoreError>, conf: JobStoreConf, compiles: string -> bool,
                     left: set<string>, name: string)
    requires name in left && left <= conf.jobs.Keys && Reported(errs, conf, compiles, conf.jobs.Keys - left)
    requires err.None? <==> Acceptable(name, conf.jobs[name], conf, compiles)
    requires err.Some? ==> err.value.name == name
    ensures Reported(if err.None? then errs else errs + [err.value], conf, compiles, conf.jobs.Keys - (left - {name}))
  {
    if err.Some? {
      forall other ensures Named(errs + [err.value], other) <==> Named(errs, other) || other == name {
        NamedSnoc(errs, err.value, other);
      }
    }
  }

  /** The store in the closed form of every job, or else an error for each job that cannot be
      accepted and for no other. The range over the configured jobs takes any order. A second
      job of the same name cannot come up: names are the keys of the map. */
  method NewLocalJobStore(conf: JobStoreConf, compiles: string -> bool)
      returns (errs: seq<StoreError>, jobs: map<string, Job>, ghost owned: set<object>)
    ensures Reported(errs, conf, compiles, conf.jobs.Keys)
    ensures Held(jobs, owned) && fresh(owned)
    ensures errs == [] ==>
            Values(jobs, owned) == Accepted(conf, compiles, conf.jobs.Keys) && jobs.Keys == conf.jobs.Keys
    ensures errs == [] ==> forall name :: name in conf.jobs ==> AsConfigured(conf, name, Values(jobs, owned)[name])
    ensures errs != [] ==> jobs == map[]
  {
    errs, jobs, owned := LoadAll(conf, compiles);
    if errs != [] {
      return errs, map[], {};
    }
    AllAccepted(conf, compiles);
    AllAsConfigured(conf, compiles);
  }

  /** The loop over the configured jobs. */
  method LoadAll(conf: JobStoreConf, compiles: string -> bool)
      returns (errs: seq<StoreError>, jobs: map<string, Job>, ghost owned: set<object>)
    ensures Reported(errs, conf, compiles, conf.jobs.Keys)
    ensures Held(jobs, owned) && fresh(owned) && Values(jobs, owned) == Accepted(conf, compiles, conf.jobs.Keys)
  {
    errs, jobs, owned := [], map[], {};
    var left := conf.jobs.Keys;
    while left != {}
      invariant left <= conf.jobs.Keys && Reported(errs, conf, compiles, conf.jobs.Keys - left)
      invariant Held(jobs, owned) && fresh(owned)
                && Values(jobs, owned) == Accepted(conf, compiles, conf.jobs.Keys - left)
      decreases left
    {
      var name :| name in left;
      AcceptedSnoc(conf, compiles, left, name);
      assert name !in Values(jobs, owned);
      var err;
      err, jobs, owned := AddJob(jobs, owned, name, conf, compiles);
      ReportedSnoc(errs, err, conf, compiles, left, name);
      left := left - {name};
      if err.Some? {
        errs := errs + [err.value];
      }
    }
    assert conf.jobs.Keys - {} == conf.jobs.Keys;
  }

  ghost predicate GoodStore(conf: JobStoreConf) {
    && (forall name :: name in conf.jobs ==> GoodConf(conf.jobs[name].layer))
    && (forall name :: name in conf.generics ==> GoodConf(conf.generics[name].layer))
  }

  /** A store built from good layers holds good jobs. */
  lemma StoreIsGood(conf: JobStoreConf, compiles: string -> bool, name: string)
    requires GoodStore(conf) && name in conf.jobs && Acceptable(name, conf.jobs[name], conf, compiles)
    ensures GoodJob(Accepted(conf, compiles, conf.jobs.Keys)[name])
  {
    var layers := Layers(conf.jobs[name], conf).value;
    ChainClosedForm(name, layers);
    ChainGood(name, layers);
  }

  lemma AllAsConfigured(conf: JobStoreConf, compiles: string -> bool)
    ensures forall name :: name in Accepted(conf, compiles, conf.jobs.Keys) ==>
              AsConfigured(conf, name, Accepted(conf, compiles, conf.jobs.Keys)[name])
  {
    forall name | name in Accepted(conf, compiles, conf.jobs.Keys)
      ensures AsConfigured(conf, name, Accepted(conf, compiles, conf.jobs.Keys)[name])
    {
      AcceptedAsConfigured(conf, compiles, name);
    }
  }

  lemma AllAccepted(conf: JobStoreConf, compiles: string -> bool)
    requires Reported([], conf, compiles, conf.jobs.Keys)
    ensures Accepted(conf, compiles, conf.jobs.Keys).Keys == conf.jobs.Keys
  {
    assert forall name :: !Named([], name);
  }

  /** What the device store asks of the job store. */
  lemma StoreIsScheduled(conf: JobStoreConf, compiles: string -> bool, jobs: map<string, Job>, owned: set<object>)
    requires Held(jobs, owned) && Values(jobs, owned) == Accepted(conf, compiles, conf.jobs.Keys)
    ensures forall name :: name in jobs ==> jobs[name].schedule.Some?
  {
    forall name | name in jobs ensures jobs[name].schedule.Some? {
      assert name in Values(jobs, owned) && jobs[name].value == Values(jobs, owned)[name];
      assert ValidJob(Accepted(conf, compiles, conf.jobs.Keys)[name], compiles);
    }
  }
}
