/** Devices as values: the copy of the store's jobs, then the device generic, then the
    device's own layer (model/device.go:18-70; controller/device_store.go:34-79). */
module DeviceConfig {
  import opened Prelude
  import opened JobConfig
  import opened JobTemplates

  datatype Ssh = Ssh(port: int, includeCbcCiphers: bool)

  datatype ProtocolConf = ProtocolConf(kind: string, ssh: Option<Ssh>)

  datatype Credentials = Credentials(user: string, pass: string)

  datatype DeviceConf = DeviceConf(
    generic: string,
    host: string,
    protocol: Option<ProtocolConf>,
    tags: seq<string>,
    credentials: Option<Credentials>,
    jobs: map<string, JobConf>)

  /** A device without its jobs; ssh is the only protocol there is. */
  datatype Header = Header(name: string, host: string, ssh: Ssh, credentials: Option<Credentials>, tags: seq<string>)

  datatype DeviceValue = DeviceValue(header: Header, jobs: map<string, JobValue>)

  datatype DeviceError = UnknownProtocol | JobFailed(job: string, error: JobError) | MissingGeneric | NotValid

  function DefaultHeader(name: string): Header {
    Header(name, name, Ssh(22, false), None, [])
  }

  function ApplyCredentials(current: Option<Credentials>, conf: Option<Credentials>): Option<Credentials> {
    match conf
    case None => current
    case Some(c) =>
      var base := if current.None? then Credentials("", "") else current.value;
      Some(Credentials(if c.user != "" then c.user else base.user, if c.pass != "" then c.pass else base.pass))
  }

  /** The device-level settings of a layer; None for an unrecognised protocol. */
  function ApplyHeader(d: Header, conf: DeviceConf): Option<Header> {
    if conf.protocol.Some? && conf.protocol.value.kind != "ssh" then None
    else Some(Header(
      d.name,
      if conf.host != "" then conf.host else d.host,
      if conf.protocol.None? then d.ssh else if conf.protocol.value.ssh.None? then Ssh(22, false)
        else conf.protocol.value.ssh.value,
      ApplyCredentials(d.credentials, conf.credentials),
      d.tags + conf.tags))
  }

  predicate CanConfigure(d: DeviceValue, conf: DeviceConf) {
    && ApplyHeader(d.header, conf).Some?
    && forall name :: name in conf.jobs && name in d.jobs ==> ApplyJob(d.jobs[name], conf.jobs[name]).Ok?
  }

  /** A possible outcome of Device.ApplyConfig: the header is fixed, each job named by the
      layer is layered and filled, and the other jobs are untouched. */
  ghost predicate Configured(d: DeviceValue, conf: DeviceConf, result: DeviceValue)
    requires CanConfigure(d, conf)
  {
    && Some(result.header) == ApplyHeader(d.header, conf)
    && result.jobs.Keys == d.jobs.Keys
    && forall name :: name in d.jobs ==> JobConfigured(d, conf, result, name)
  }

  /** The layer applies to d and may make this of it. */
  ghost predicate LayersOnto(d: DeviceValue, conf: DeviceConf, result: DeviceValue) {
    CanConfigure(d, conf) && Configured(d, conf, result)
  }

  ghost predicate JobConfigured(d: DeviceValue, conf: DeviceConf, result: DeviceValue, name: string)
    requires CanConfigure(d, conf) && name in d.jobs && name in result.jobs
  {
    if name in conf.jobs then Filled(ApplyJob(d.jobs[name], conf.jobs[name]).value, result.jobs[name])
    else result.jobs[name] == d.jobs[name]
  }

  /** The device before any layer: a copy of each store job its configuration names. */
  function NewDevice(name: string, conf: DeviceConf, store: map<string, JobValue>): DeviceValue {
    DeviceValue(DefaultHeader(name), Copies(conf.jobs.Keys, store))
  }

  function Copies(names: set<string>, store: map<string, JobValue>): map<string, JobValue> {
    map job | job in names :: CopyOrDefault(job, store)
  }

  function CopyOrDefault(job: string, store: map<string, JobValue>): JobValue {
    if job in store then CopyJob(store[job]) else DefaultJob(job)
  }

  datatype Layer = NoLayer | Missing | Use(conf: DeviceConf)

  function GenericLayer(conf: DeviceConf, generics: map<string, DeviceConf>): Layer {
    if conf.generic != "" then if conf.generic in generics then Use(generics[conf.generic]) else Missing
    else if "default" in generics then Use(generics["default"])
    else NoLayer
  }

  /** A possible outcome of building one device. */
  ghost predicate BuildsTo(name: string, conf: DeviceConf, generics: map<string, DeviceConf>,
                           store: map<string, JobValue>, result: DeviceValue)
  {
    LayersFrom(NewDevice(name, conf, store), conf, generics, result)
  }

  ghost predicate LayersFrom(start: DeviceValue, conf: DeviceConf, generics: map<string, DeviceConf>,
                             result: DeviceValue)
  {
    match GenericLayer(conf, generics)
    case Missing => false
    case NoLayer => LayersOnto(start, conf, result)
    case Use(generic) => LayersTwice(start, generic, conf, result)
  }

  ghost predicate LayersTwice(start: DeviceValue, generic: DeviceConf, conf: DeviceConf, result: DeviceValue) {
    exists middle :: LayersOnto(start, generic, middle) && LayersOnto(middle, conf, result)
  }

  // ----- Whether a device can be built does not depend on any order -----

  /** Layering without the template substitution. */
  function Unfilled(d: DeviceValue, conf: DeviceConf): DeviceValue
    requires CanConfigure(d, conf)
  {
    DeviceValue(
      ApplyHeader(d.header, conf).value,
      map name | name in d.jobs ::
        if name in conf.jobs then ApplyJob(d.jobs[name], conf.jobs[name]).value else d.jobs[name])
  }

  predicate Buildable(name: string, conf: DeviceConf, generics: map<string, DeviceConf>, store: map<string, JobValue>) {
    Layerable(NewDevice(name, conf, store), conf, generics)
  }

  predicate Layerable(start: DeviceValue, conf: DeviceConf, generics: map<string, DeviceConf>) {
    match GenericLayer(conf, generics)
    case Missing => false
    case NoLayer => CanConfigure(start, conf)
    case Use(generic) => LayersApply(start, generic, conf)
  }

  predicate LayersApply(start: DeviceValue, generic: DeviceConf, conf: DeviceConf) {
    CanConfigure(start, generic) && CanConfigure(Unfilled(start, generic), conf)
  }

  /** Jobs alike in what decides whether a layer applies. */
  predicate SameShape(a: JobValue, b: JobValue) {
    && a.commandSet.Some? == b.commandSet.Some? && a.fileSet.Some? == b.fileSet.Some?
    && (a.commandSet.Some? ==> a.commandSet.value.generic.Some? == b.commandSet.value.generic.Some?)
  }

  lemma FilledShape(job: JobValue, result: JobValue)
    requires Filled(job, result)
    ensures SameShape(job, result)
  {
  }

  lemma ShapeDecides(a: JobValue, b: JobValue, conf: JobConf)
    requires SameShape(a, b)
    ensures ApplyJob(a, conf).Ok? == ApplyJob(b, conf).Ok?
    ensures ApplyJob(a, conf).Err? ==> ApplyJob(b, conf) == Err(ApplyJob(a, conf).error)
  {
  }

  /** Whatever came out of the first layer, the second applies to all outcomes or to none. */
  lemma MiddleIrrelevant(start: DeviceValue, generic: DeviceConf, middle: DeviceValue, conf: DeviceConf)
    requires CanConfigure(start, generic) && Configured(start, generic, middle)
    ensures CanConfigure(middle, conf) <==> CanConfigure(Unfilled(start, generic), conf)
  {
    var plain := Unfilled(start, generic);
    forall name | name in conf.jobs && name in middle.jobs
      ensures ApplyJob(middle.jobs[name], conf.jobs[name]).Ok? == ApplyJob(plain.jobs[name], conf.jobs[name]).Ok?
    {
      assert JobConfigured(start, generic, middle, name);
      if name in generic.jobs {
        FilledShape(plain.jobs[name], middle.jobs[name]);
      }
      ShapeDecides(plain.jobs[name], middle.jobs[name], conf.jobs[name]);
    }
  }

  /** And it fails with the same errors. */
  lemma MiddleFailsAlike(start: DeviceValue, generic: DeviceConf, middle: DeviceValue, conf: DeviceConf,
                         err: DeviceError)
    requires CanConfigure(start, generic) && Configured(start, generic, middle)
    ensures LayerFails(middle, conf, err) <==> LayerFails(Unfilled(start, generic), conf, err)
  {
    var plain := Unfilled(start, generic);
    if err.JobFailed? && err.job in conf.jobs && err.job in middle.jobs {
      assert JobConfigured(start, generic, middle, err.job);
      if err.job in generic.jobs {
        FilledShape(plain.jobs[err.job], middle.jobs[err.job]);
      }
      ShapeDecides(plain.jobs[err.job], middle.jobs[err.job], conf.jobs[err.job]);
      ShapeDecides(middle.jobs[err.job], plain.jobs[err.job], conf.jobs[err.job]);
    }
  }

  // ----- The errors a device can be met with -----

  /** A layer can end with this error, in some order of its jobs. */
  predicate LayerFails(d: DeviceValue, conf: DeviceConf, err: DeviceError) {
    if ApplyHeader(d.header, conf).None? then err == UnknownProtocol
    else
      && err.JobFailed? && err.job in d.jobs && err.job in conf.jobs
      && ApplyJob(d.jobs[err.job], conf.jobs[err.job]) == Err(err.error)
  }

  /** So can the building of a device, up to validation. */
  predicate BuildFails(name: string, conf: DeviceConf, generics: map<string, DeviceConf>, store: map<string, JobValue>,
                       err: DeviceError)
  {
    FailsFrom(NewDevice(name, conf, store), conf, generics, err)
  }

  predicate FailsFrom(start: DeviceValue, conf: DeviceConf, generics: map<string, DeviceConf>, err: DeviceError) {
    match GenericLayer(conf, generics)
    case Missing => err == MissingGeneric
    case NoLayer => LayerFails(start, conf, err)
    case Use(generic) => FailsTwice(start, generic, conf, err)
  }

  predicate FailsTwice(start: DeviceValue, generic: DeviceConf, conf: DeviceConf, err: DeviceError) {
    if CanConfigure(start, generic) then LayerFails(Unfilled(start, generic), conf, err)
    else LayerFails(start, generic, err)
  }

  lemma LayerFailsExactly(d: DeviceValue, conf: DeviceConf)
    ensures CanConfigure(d, conf) <==> forall err :: !LayerFails(d, conf, err)
  {
    if ApplyHeader(d.header, conf).None? {
      assert LayerFails(d, conf, UnknownProtocol);
    } else if !CanConfigure(d, conf) {
      var name :| name in conf.jobs && name in d.jobs && ApplyJob(d.jobs[name], conf.jobs[name]).Err?;
      assert LayerFails(d, conf, JobFailed(name, ApplyJob(d.jobs[name], conf.jobs[name]).error));
    }
  }

  /** A device can be built exactly when no order can meet an error. */
  lemma BuildFailsExactly(name: string, conf: DeviceConf, generics: map<string, DeviceConf>,
                          store: map<string, JobValue>)
    ensures Buildable(name, conf, generics, store) <==> forall err :: !BuildFails(name, conf, generics, store, err)
  {
    var start := NewDevice(name, conf, store);
    match GenericLayer(conf, generics)
    case Missing => assert BuildFails(name, conf, generics, store, MissingGeneric);
    case NoLayer =>
      LayerFailsExactly(start, conf);
      assert forall err :: BuildFails(name, conf, generics, store, err) == LayerFails(start, conf, err);
    case Use(generic) =>
      LayerFailsExactly(start, generic);
      if CanConfigure(start, generic) {
        LayerFailsExactly(Unfilled(start, generic), conf);
        assert forall err ::
          BuildFails(name, conf, generics, store, err) == LayerFails(Unfilled(start, generic), conf, err);
      } else {
        assert forall err :: BuildFails(name, conf, generics, store, err) == LayerFails(start, generic, err);
      }
  }

  /** What can come out can be built: no order makes a device that another order rejects. */
  lemma BuildsBuildable(name: string, conf: DeviceConf, generics: map<string, DeviceConf>,
                        store: map<string, JobValue>, result: DeviceValue)
    requires BuildsTo(name, conf, generics, store, result)
    ensures Buildable(name, conf, generics, store)
  {
    LayersLayerable(NewDevice(name, conf, store), conf, generics, result);
  }

  lemma LayersLayerable(start: DeviceValue, conf: DeviceConf, generics: map<string, DeviceConf>, result: DeviceValue)
    requires LayersFrom(start, conf, generics, result)
    ensures Layerable(start, conf, generics)
  {
    match GenericLayer(conf, generics)
    case Missing =>
    case NoLayer =>
    case Use(generic) => LayersApplied(start, generic, conf, result);
  }

  lemma LayersApplied(start: DeviceValue, generic: DeviceConf, conf: DeviceConf, result: DeviceValue)
    requires LayersTwice(start, generic, conf, result)
    ensures LayersApply(start, generic, conf)
  {
    var middle :| LayersOnto(start, generic, middle) && LayersOnto(middle, conf, result);
    MiddleIrrelevant(start, generic, middle, conf);
  }

  ghost function SomeFill(job: JobValue): (result: JobValue)
    ensures Filled(job, result)
  {
    OrderFound(job.templateValues.Keys);
    var order :| IsOrder(order, job.templateValues.Keys);
    FillJob(job, order, job.templateValues)
  }

  lemma OrderFound(keys: set<string>)
    ensures exists order :: IsOrder(order, keys)
  {
    var order := OrderExists(keys);
  }

  /** A layer that applies has an outcome. */
  lemma LayerResult(d: DeviceValue, conf: DeviceConf) returns (result: DeviceValue)
    requires CanConfigure(d, conf)
    ensures LayersOnto(d, conf, result)
  {
    result := DeviceValue(
      ApplyHeader(d.header, conf).value,
      map name | name in d.jobs ::
        if name in conf.jobs then SomeFill(ApplyJob(d.jobs[name], conf.jobs[name]).value) else d.jobs[name]);
    forall name | name in d.jobs ensures JobConfigured(d, conf, result, name) {
    }
  }

  /** So a device can be built exactly when something can come out. */
  lemma BuildableBuilds(name: string, conf: DeviceConf, generics: map<string, DeviceConf>, store: map<string, JobValue>)
      returns (result: DeviceValue)
    requires Buildable(name, conf, generics, store)
    ensures BuildsTo(name, conf, generics, store, result)
  {
    var start := NewDevice(name, conf, store);
    match GenericLayer(conf, generics)
    case Missing =>
      assert false;
      result := start;
    case NoLayer => result := LayerResult(start, conf);
    case Use(generic) =>
      var middle := LayerResult(start, generic);
      MiddleIrrelevant(start, generic, middle, conf);
      result := LayerResult(middle, conf);
  }

  // ----- What a device holds, by its configuration -----

  /** The settings of a device's own layer over another's, if there is one, over the defaults. */
  predicate OwnSettings(name: string, base: Option<DeviceConf>, own: DeviceConf, header: Header) {
    && header.name == name
    && header.tags == (if base.None? then [] else base.value.tags) + own.tags
    && header.host == (if own.host != "" then own.host
                       else if base.Some? && base.value.host != "" then base.value.host else name)
    && (var given := if own.protocol.Some? || base.None? then own.protocol else base.value.protocol;
        header.ssh == if given.Some? && given.value.ssh.Some? then given.value.ssh.value else Ssh(22, false))
    && (var under := if base.None? then None else base.value.credentials;
        header.credentials
        == if own.credentials.None? then under
           else if under.None? then own.credentials
           else Some(Credentials(
             if own.credentials.value.user != "" then own.credentials.value.user else under.value.user,
             if own.credentials.value.pass != "" then own.credentials.value.pass else under.value.pass)))
  }

  lemma OwnAlone(name: string, own: DeviceConf, header: Header)
    requires ApplyHeader(DefaultHeader(name), own) == Some(header)
    ensures OwnSettings(name, None, own, header)
  {
    assert [] + own.tags == own.tags;
  }

  lemma OwnOverBase(name: string, base: DeviceConf, middle: Header, own: DeviceConf, header: Header)
    requires ApplyHeader(DefaultHeader(name), base) == Some(middle) && ApplyHeader(middle, own) == Some(header)
    ensures OwnSettings(name, Some(base), own, header)
  {
    assert [] + base.tags == base.tags;
  }

  /** A device's settings, over those of the generic it names, or else of the generic called
      default, or else alone. */
  lemma SettingsAsConfigured(name: string, conf: DeviceConf, generics: map<string, DeviceConf>,
                             store: map<string, JobValue>, result: DeviceValue)
    requires BuildsTo(name, conf, generics, store, result)
    ensures conf.generic != "" ==>
              conf.generic in generics && OwnSettings(name, Some(generics[conf.generic]), conf, result.header)
    ensures conf.generic == "" && "default" in generics ==>
              OwnSettings(name, Some(generics["default"]), conf, result.header)
    ensures conf.generic == "" && "default" !in generics ==> OwnSettings(name, None, conf, result.header)
  {
    match GenericLayer(conf, generics)
    case Missing =>
    case NoLayer => OwnAlone(name, conf, result.header);
    case Use(generic) =>
      var middle :| LayersOnto(NewDevice(name, conf, store), generic, middle) && LayersOnto(middle, conf, result);
      OwnOverBase(name, generic, middle.header, conf, result.header);
  }

  /** The layer has nothing to say about the job. */
  predicate AddsNothing(conf: JobConf) {
    && conf.kind == "" && conf.schedule.Absent? && conf.commands == [] && conf.commandGeneric.None?
    && conf.files == map[] && conf.scrubbers == [] && conf.templateValues == map[]
  }

  lemma NothingAdded(job: JobValue, conf: JobConf)
    requires AddsNothing(conf) && (job.commandSet.Some? || job.fileSet.Some?)
    ensures ApplyJob(job, conf) == Ok(job)
  {
    assert NewScrubbers(conf.scrubbers) == [] && job.scrubbers + [] == job.scrubbers;
    assert job.templateValues + map[] == job.templateValues;
    if job.fileSet.Some? {
      NoFilesAdded(job.fileSet.value, conf);
    }
    if job.commandSet.Some? {
      NoCommandsAdded(job.commandSet.value, conf);
    }
  }

  lemma NoFilesAdded(files: Files, conf: JobConf)
    requires conf.files == map[]
    ensures ApplyFiles(files, conf) == files
  {
    forall path | path in files ensures ApplyFiles(files, conf)[path] == files[path] {
      assert files[path] + [] == files[path];
    }
  }

  lemma NoCommandsAdded(commands: Commands, conf: JobConf)
    requires conf.commands == [] && conf.commandGeneric.None?
    ensures ApplyCommands(commands, conf) == Some(commands)
  {
    assert commands.list + [] == commands.list;
    if commands.generic.Some? {
      assert LayerAll(commands.generic.value, conf.commands) == [];
    }
  }

  /** A job of the store as a device starts with it: all of it but the generic command. */
  predicate Bare(stored: JobValue, bare: JobValue) {
    && bare.name == stored.name && bare.schedule == stored.schedule && bare.fileSet == stored.fileSet
    && bare.scrubbers == stored.scrubbers && bare.templateValues == stored.templateValues
    && (bare.commandSet.Some? <==> stored.commandSet.Some?)
    && (bare.commandSet.Some? ==>
          bare.commandSet.value.generic.None? && bare.commandSet.value.list == stored.commandSet.value.list)
  }

  /** Filled once, or a second time over. */
  ghost predicate FilledOver(bare: JobValue, result: JobValue) {
    Filled(bare, result) || exists middle :: Filled(bare, middle) && Filled(middle, result)
  }

  /** A job of the store that the device names, and about which its layers say nothing, comes out
      as the store has it, with its placeholders filled. */
  lemma StoredJobKept(name: string, conf: DeviceConf, generics: map<string, DeviceConf>, store: map<string, JobValue>,
                      result: DeviceValue, job: string)
      returns (bare: JobValue)
    requires BuildsTo(name, conf, generics, store, result) && job in store && job in conf.jobs
    requires store[job].commandSet.Some? || store[job].fileSet.Some?
    requires AddsNothing(conf.jobs[job])
    requires forall g :: g in generics && job in generics[g].jobs ==> AddsNothing(generics[g].jobs[job])
    ensures Bare(store[job], bare) && job in result.jobs && FilledOver(bare, result.jobs[job])
  {
    var start := NewDevice(name, conf, store);
    bare := CopyJob(store[job]);
    assert start.jobs[job] == bare;
    NothingAdded(bare, conf.jobs[job]);
    match GenericLayer(conf, generics)
    case Missing =>
    case NoLayer => assert JobConfigured(start, conf, result, job);
    case Use(generic) =>
      var middle :| LayersOnto(start, generic, middle) && LayersOnto(middle, conf, result);
      assert JobConfigured(start, generic, middle, job) && JobConfigured(middle, conf, result, job);
      if job in generic.jobs {
        NothingAdded(bare, generic.jobs[job]);
        FilledShape(bare, middle.jobs[job]);
      }
      NothingAdded(middle.jobs[job], conf.jobs[job]);
  }

  // ----- A device is a function of its configuration and the store -----

  ghost predicate GoodDevice(d: DeviceValue) {
    forall name :: name in d.jobs ==> GoodJob(d.jobs[name])
  }

  ghost predicate GoodLayer(conf: DeviceConf) {
    forall name :: name in conf.jobs ==> GoodConf(conf.jobs[name])
  }

  lemma ConfiguredUnique(d: DeviceValue, conf: DeviceConf, a: DeviceValue, b: DeviceValue)
    requires GoodDevice(d) && GoodLayer(conf) && CanConfigure(d, conf)
    requires Configured(d, conf, a) && Configured(d, conf, b)
    ensures a == b && GoodDevice(a)
  {
    forall name | name in d.jobs ensures a.jobs[name] == b.jobs[name] && GoodJob(a.jobs[name]) {
      assert JobConfigured(d, conf, a, name) && JobConfigured(d, conf, b, name);
      if name in conf.jobs {
        ApplyGood(d.jobs[name], conf.jobs[name]);
        FilledUnique(ApplyJob(d.jobs[name], conf.jobs[name]).value, a.jobs[name], b.jobs[name]);
      }
    }
    assert a.jobs == b.jobs;
  }

  /** Where all texts are well formed and all template values safe, every order in which Go
      may range over the maps builds the same device: a function of its own configuration,
      its generic and the store's jobs. */
  lemma DeviceDetermined(name: string, conf: DeviceConf, generics: map<string, DeviceConf>,
                         store: map<string, JobValue>, a: DeviceValue, b: DeviceValue)
    requires forall job :: job in store ==> GoodJob(store[job])
    requires GoodLayer(conf) && forall g :: g in generics ==> GoodLayer(generics[g])
    requires BuildsTo(name, conf, generics, store, a) && BuildsTo(name, conf, generics, store, b)
    ensures a == b
  {
    NewDeviceGood(name, conf, store);
    var start := NewDevice(name, conf, store);
    match GenericLayer(conf, generics)
    case Missing =>
    case NoLayer => ConfiguredUnique(start, conf, a, b);
    case Use(generic) =>
      assert GoodLayer(generic);
      LayersUnique(start, generic, conf, a, b);
  }

  lemma NewDeviceGood(name: string, conf: DeviceConf, store: map<string, JobValue>)
    requires forall job :: job in store ==> GoodJob(store[job])
    ensures GoodDevice(NewDevice(name, conf, store))
  {
    forall job | job in conf.jobs ensures GoodJob(NewDevice(name, conf, store).jobs[job]) {
      if job in store {
        assert GoodJob(store[job]);
      }
    }
  }

  lemma LayersUnique(start: DeviceValue, generic: DeviceConf, conf: DeviceConf, a: DeviceValue, b: DeviceValue)
    requires GoodDevice(start) && GoodLayer(generic) && GoodLayer(conf)
    requires LayersTwice(start, generic, conf, a)
    requires LayersTwice(start, generic, conf, b)
    ensures a == b
  {
    var m :| LayersOnto(start, generic, m) && LayersOnto(m, conf, a);
    var n :| LayersOnto(start, generic, n) && LayersOnto(n, conf, b);
    ConfiguredUnique(start, generic, m, n);
    ConfiguredUnique(m, conf, a, b);
  }
}
