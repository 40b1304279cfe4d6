/** The device store: each device is built from copies of the store's jobs, its generic and
    its own layer, and kept only when it validates (controller/device_store.go:28-89). */
module DeviceStores {
  import opened Prelude
  import opened JobConfig
  import opened JobTemplates
  import opened DeviceConfig
  import opened JobObjects
  import opened JobMaps
  import opened DeviceObjects

  datatype DeviceStoreConf = DeviceStoreConf(devices: map<string, DeviceConf>, generics: map<string, DeviceConf>)

  datatype Refusal = Refusal(device: string, reason: DeviceError)

  /** The jobs a job store hands out: valid ones, which have a schedule. */
  ghost predicate Scheduled(store: map<string, Job>, stored: set<object>)
    reads stored
  {
    Held(store, stored) && forall name :: name in store ==> store[name].schedule.Some?
  }

  twostate lemma ScheduledKept(s: Stock)
    requires old(Scheduled(s.jobs, s.owned)) && unchanged(s.owned)
    ensures Scheduled(s.jobs, s.owned) && Values(s.jobs, s.owned) == old(Values(s.jobs, s.owned))
  {
    StockKept(s);
  }

  method CopyOrNew(name: string, store: map<string, Job>, ghost stored: set<object>) returns (job: Job)
    requires Scheduled(store, stored)
    ensures job.Valid() && fresh(job.Repr) && job.value == CopyOrDefault(name, old(Values(store, stored)))
  {
    if name in store {
      job := store[name].DeepCopy();
    } else {
      job := new Job.Default(name);
    }
  }

  lemma CopiesSnoc(names: set<string>, left: set<string>, name: string, store: map<string, JobValue>)
    requires name in left && left <= names
    ensures Copies(names - (left - {name}), store) == Copies(names - left, store)[name := CopyOrDefault(name, store)]
    ensures names - (left - {name}) == names - left + {name}
  {
  }

  method AddCopy(jobs: map<string, Job>, ghost owned: set<object>, name: string, store: map<string, Job>,
                 ghost stored: set<object>)
      returns (more: map<string, Job>, ghost grown: set<object>)
    requires Scheduled(store, stored) && Held(jobs, owned) && name !in jobs
    ensures Held(more, grown) && owned <= grown && fresh(grown - owned)
    ensures Values(more, grown) == old(Values(jobs, owned))[name := CopyOrDefault(name, old(Values(store, stored)))]
    ensures Scheduled(store, stored) && Values(store, stored) == old(Values(store, stored))
  {
    var job := CopyOrNew(name, store, stored);
    StockKept(Stock(jobs, owned));
    ScheduledKept(Stock(store, stored));
    HeldPut(jobs, owned, name, job);
    more, grown := jobs[name := job], owned + job.Repr;
  }

  /** A device's own copy of each job it names. */
  method CopyJobs(names: set<string>, store: map<string, Job>, ghost stored: set<object>)
      returns (jobs: map<string, Job>, ghost owned: set<object>)
    requires Scheduled(store, stored)
    ensures Held(jobs, owned) && fresh(owned) && Values(jobs, owned) == Copies(names, old(Values(store, stored)))
  {
    jobs, owned := map[], {};
    var left := names;
    ghost var values := Values(store, stored);
    while left != {}
      invariant left <= names && Scheduled(store, stored) && Values(store, stored) == values
      invariant Held(jobs, owned) && fresh(owned) && Values(jobs, owned) == Copies(names - left, values)
      decreases left
    {
      var name :| name in left;
      CopiesSnoc(names, left, name, values);
      assert name !in Values(jobs, owned);
      jobs, owned := AddCopy(jobs, owned, name, store, stored);
      left := left - {name};
    }
    assert names - {} == names;
  }

  /** One round of the loop up to validation: copies, the generic, the device's own layer. */
  method BuildDevice(name: string, conf: DeviceConf, generics: map<string, DeviceConf>, store: map<string, Job>,
                     ghost stored: set<object>)
      returns (err: Option<DeviceError>, device: Device)
    requires Scheduled(store, stored)
    ensures err.None? ==> device.Valid() && fresh(device) && fresh(device.Owned)
    ensures err.None? ==> BuildsTo(name, conf, generics, old(Values(store, stored)), device.Value())
    ensures err.None? <==> Buildable(name, conf, generics, old(Values(store, stored)))
    ensures err.Some? ==> BuildFails(name, conf, generics, old(Values(store, stored)), err.value)
  {
    var jobs;
    ghost var owned;
    jobs, owned := CopyJobs(conf.jobs.Keys, store, stored);
    ghost var values := Values(store, stored);
    device := new Device.Default(name, jobs, owned);
    err := LayerDevice(device, conf, generics);
    BuildFailsExactly(name, conf, generics, values);
    if err.None? {
      BuildsBuildable(name, conf, generics, values, device.Value());
    }
  }

  method LayerDevice(device: Device, conf: DeviceConf, generics: map<string, DeviceConf>)
      returns (err: Option<DeviceError>)
    requires device.Valid()
    modifies device, device.Owned
    ensures err.None? ==> device.Valid() && fresh(device.Owned - old(device.Owned))
    ensures err.None? ==> LayersFrom(old(device.Value()), conf, generics, device.Value())
    ensures err.Some? ==> FailsFrom(old(device.Value()), conf, generics, err.value)
  {
    if conf.generic != "" {
      if conf.generic !in generics {
        return Some(MissingGeneric);
      }
      err := LayerBoth(device, generics[conf.generic], conf);
    } else if "default" in generics {
      err := LayerBoth(device, generics["default"], conf);
    } else {
      err := device.ApplyConfig(conf);
    }
  }

  method LayerBoth(device: Device, generic: DeviceConf, conf: DeviceConf) returns (err: Option<DeviceError>)
    requires device.Valid()
    modifies device, device.Owned
    ensures err.None? ==> device.Valid() && fresh(device.Owned - old(device.Owned))
    ensures err.None? ==> LayersTwice(old(device.Value()), generic, conf, device.Value())
    ensures err.Some? ==> FailsTwice(old(device.Value()), generic, conf, err.value)
  {
    ghost var start := device.Value();
    err := device.ApplyConfig(generic);
    if err.None? {
      ghost var middle := device.Value();
      err := device.ApplyConfig(conf);
      if err.Some? {
        MiddleFailsAlike(start, generic, middle, conf, err.value);
      }
    } else {
      LayerFailsExactly(start, generic);
    }
  }

  // ----- The whole store -----

  /** Device.Validate. */
  predicate ValidDevice(d: DeviceValue, compiles: string -> bool) {
    d.header.host != "" && forall name :: name in d.jobs ==> ValidJob(d.jobs[name], compiles)
  }

  method Validate(device: Device, compiles: string -> bool) returns (ok: bool)
    requires device.Valid()
    ensures ok == ValidDevice(device.Value(), compiles)
    ensures device.header.host == "" ==> !ok
  {
    if device.header.host == "" {
      return false;
    }
    ok := ValidateJobs(device.jobs, device.Owned, compiles);
  }

  method ValidateJobs(jobs: map<string, Job>, ghost owned: set<object>, compiles: string -> bool) returns (ok: bool)
    requires Held(jobs, owned)
    ensures ok <==> forall name :: name in jobs ==> ValidJob(Values(jobs, owned)[name], compiles)
  {
    ghost var values := Values(jobs, owned);
    var left := jobs.Keys;
    while left != {}
      invariant Held(jobs, owned) && Values(jobs, owned) == values
      invariant left <= jobs.Keys && forall name :: name in jobs && name !in left ==> ValidJob(values[name], compiles)
      decreases left
    {
      var name :| name in left;
      left := left - {name};
      var fine := ValidateOne(jobs, owned, name, compiles);
      if !fine {
        assert !ValidJob(values[name], compiles);
        return false;
      }
    }
    return true;
  }

  method ValidateOne(jobs: map<string, Job>, ghost owned: set<object>, name: string, compiles: string -> bool)
      returns (ok: bool)
    requires Held(jobs, owned) && name in jobs
    ensures Held(jobs, owned) && Values(jobs, owned) == old(Values(jobs, owned))
    ensures ok == ValidJob(Values(jobs, owned)[name], compiles)
  {
    ok := jobs[name].Validate(compiles);
    StockKept(Stock(jobs, owned));
  }

  /** Building this device can end with this error, in some order of the ranges. */
  ghost predicate RefusedFor(conf: DeviceStoreConf, store: map<string, JobValue>, compiles: string -> bool,
                             name: string, err: DeviceError)
  {
    && name in conf.devices
    && if err == NotValid then
         exists result ::
           BuildsTo(name, conf.devices[name], conf.generics, store, result) && !ValidDevice(result, compiles)
       else BuildFails(name, conf.devices[name], conf.generics, store, err)
  }

  ghost predicate Refused(conf: DeviceStoreConf, store: map<string, JobValue>, compiles: string -> bool, name: string) {
    exists err :: RefusedFor(conf, store, compiles, name, err)
  }

  /** A valid outcome of building this device. */
  ghost predicate Outcome(conf: DeviceStoreConf, store: map<string, JobValue>, compiles: string -> bool, name: string,
                          result: DeviceValue)
  {
    && name in conf.devices && BuildsTo(name, conf.devices[name], conf.generics, store, result)
    && ValidDevice(result, compiles)
  }

  ghost predicate CanBe(conf: DeviceStoreConf, store: map<string, JobValue>, compiles: string -> bool, name: string) {
    exists result :: Outcome(conf, store, compiles, name, result)
  }

  /** BuildDevice, then Validate. */
  method BuildValid(name: string, conf: DeviceStoreConf, store: map<string, Job>, ghost stored: set<object>,
                    compiles: string -> bool)
      returns (err: Option<DeviceError>, device: Device)
    requires Scheduled(store, stored) && name in conf.devices
    ensures err.None? ==> device.Valid() && fresh(device) && fresh(device.Owned)
    ensures err.None? ==> Outcome(conf, old(Values(store, stored)), compiles, name, device.Value())
    ensures err.Some? ==> RefusedFor(conf, old(Values(store, stored)), compiles, name, err.value)
    ensures Scheduled(store, stored) && Values(store, stored) == old(Values(store, stored))
  {
    err, device := BuildDevice(name, conf.devices[name], conf.generics, store, stored);
    if err.None? {
      var ok := Validate(device, compiles);
      if !ok {
        err := Some(NotValid);
      }
    } else {
      NeverNotValid(name, conf.devices[name], conf.generics, Values(store, stored), err.value);
    }
    ScheduledKept(Stock(store, stored));
  }

  /** Valid devices among these objects, no two of which share an object. */
  ghost predicate Shelved(devices: map<string, Device>, objects: set<object>)
    reads objects
  {
    && (forall name :: name in devices ==>
      devices[name] in objects && devices[name].Owned <= objects && devices[name].Valid())
    && (forall a, b :: a in devices && b in devices && a != b ==>
          devices[a] != devices[b] && devices[a].Owned + {devices[a]} !! devices[b].Owned + {devices[b]})
  }

  ghost function Outcomes(devices: map<string, Device>, objects: set<object>): map<string, DeviceValue>
    requires Shelved(devices, objects)
    reads objects
  {
    map name | name in devices :: devices[name].Value()
  }

  lemma ShelfNone()
    ensures Shelved(map[], {}) && Outcomes(map[], {}) == map[]
  {
  }

  datatype Shelf = Shelf(devices: map<string, Device>, objects: set<object>)

  twostate lemma ShelfKept(s: Shelf)
    requires old(Shelved(s.devices, s.objects)) && unchanged(s.objects)
    ensures Shelved(s.devices, s.objects) && Outcomes(s.devices, s.objects) == old(Outcomes(s.devices, s.objects))
  {
  }

  lemma ShelfPut(devices: map<string, Device>, objects: set<object>, name: string, device: Device)
    requires Shelved(devices, objects) && name !in devices
    requires device.Valid() && device.Owned + {device} !! objects
    ensures Shelved(devices[name := device], objects + device.Owned + {device})
    ensures Outcomes(devices[name := device], objects + device.Owned + {device})
              == Outcomes(devices, objects)[name := device.Value()]
  {
  }

  method AddDevice(devices: map<string, Device>, ghost objects: set<object>, name: string, conf: DeviceStoreConf,
                   store: map<string, Job>, ghost stored: set<object>, compiles: string -> bool)
      returns (err: Option<DeviceError>, more: map<string, Device>, ghost grown: set<object>)
    requires Scheduled(store, stored) && Shelved(devices, objects) && name in conf.devices && name !in devices
    ensures Scheduled(store, stored) && Values(store, stored) == old(Values(store, stored))
    ensures Shelved(more, grown) && objects <= grown && fresh(grown - objects)
    ensures Turned(conf, old(Values(store, stored)), compiles, name, err, old(Outcomes(devices, objects)),
                   Outcomes(more, grown))
  {
    var device;
    err, device := BuildValid(name, conf, store, stored, compiles);
    ShelfKept(Shelf(devices, objects));
    if err.Some? {
      more, grown := devices, objects;
    } else {
      ShelfPut(devices, objects, name, device);
      more, grown := devices[name := device], objects + device.Owned + {device};
    }
  }

  /** What one round of the loop comes to. */
  ghost predicate Turned(conf: DeviceStoreConf, store: map<string, JobValue>, compiles: string -> bool, name: string,
                         err: Option<DeviceError>, was: map<string, DeviceValue>, now: map<string, DeviceValue>)
  {
    match err
    case Some(e) => RefusedFor(conf, store, compiles, name, e) && now == was
    case None => exists result :: Outcome(conf, store, compiles, name, result) && now == was[name := result]
  }

  ghost function Names(errs: seq<Refusal>): set<string> {
    set err | err in errs :: err.device
  }

  /** Every device but those left is refused for a reason it can be refused for, or has a valid
      outcome. */
  ghost predicate Judged(conf: DeviceStoreConf, store: map<string, JobValue>, compiles: string -> bool,
                         left: set<string>, errs: seq<Refusal>)
  {
    && (forall i :: 0 <= i < |errs| ==> RefusedFor(conf, store, compiles, errs[i].device, errs[i].reason))
    && (forall name :: name in conf.devices && name !in left && name !in Names(errs) ==>
          CanBe(conf, store, compiles, name))
  }

  ghost predicate AllOutcomes(conf: DeviceStoreConf, store: map<string, JobValue>, compiles: string -> bool,
                              results: map<string, DeviceValue>)
  {
    forall name :: name in results ==> Outcome(conf, store, compiles, name, results[name])
  }

  ghost predicate Coming(conf: DeviceStoreConf, store: map<string, JobValue>, compiles: string -> bool,
                         left: set<string>, errs: seq<Refusal>, results: map<string, DeviceValue>)
  {
    && Judged(conf, store, compiles, left, errs) && AllOutcomes(conf, store, compiles, results)
    && results.Keys <= conf.devices.Keys - left
    && (errs == [] ==> results.Keys == conf.devices.Keys - left)
  }

  /** With nothing refused, the outcomes of all devices are the store. */
  ghost predicate Comes(conf: DeviceStoreConf, store: map<string, JobValue>, compiles: string -> bool,
                        errs: seq<Refusal>, results: map<string, DeviceValue>)
  {
    && Judged(conf, store, compiles, {}, errs) && AllOutcomes(conf, store, compiles, results)
    && results.Keys == if errs == [] then conf.devices.Keys else {}
  }

  lemma NextComes(conf: DeviceStoreConf, store: map<string, JobValue>, compiles: string -> bool, left: set<string>,
                  errs: seq<Refusal>, was: map<string, DeviceValue>, name: string, err: Option<DeviceError>,
                  now: map<string, DeviceValue>)
    requires Coming(conf, store, compiles, left, errs, was) && name in left && left <= conf.devices.Keys
    requires Turned(conf, store, compiles, name, err, was, now)
    ensures Coming(conf, store, compiles, left - {name},
                   if err.Some? then errs + [Refusal(name, err.value)] else errs, now)
  {
    match err
    case Some(e) => RefusedComes(conf, store, compiles, left, errs, was, Refusal(name, e));
    case None =>
      var result :| Outcome(conf, store, compiles, name, result) && now == was[name := result];
      BuiltComes(conf, store, compiles, left, errs, was, name, result);
  }

  lemma RefusedComes(conf: DeviceStoreConf, store: map<string, JobValue>, compiles: string -> bool, left: set<string>,
                     errs: seq<Refusal>, results: map<string, DeviceValue>, err: Refusal)
    requires Coming(conf, store, compiles, left, errs, results) && err.device in left
    requires RefusedFor(conf, store, compiles, err.device, err.reason)
    ensures Coming(conf, store, compiles, left - {err.device}, errs + [err], results)
  {
    NamesSnoc(errs, err);
  }

  lemma BuiltComes(conf: DeviceStoreConf, store: map<string, JobValue>, compiles: string -> bool, left: set<string>,
                   errs: seq<Refusal>, was: map<string, DeviceValue>, name: string, result: DeviceValue)
    requires Coming(conf, store, compiles, left, errs, was) && name in left && left <= conf.devices.Keys
    requires Outcome(conf, store, compiles, name, result)
    ensures Coming(conf, store, compiles, left - {name}, errs, was[name := result])
  {
    assert CanBe(conf, store, compiles, name);
  }

  lemma NamesSnoc(errs: seq<Refusal>, err: Refusal)
    ensures Names(errs + [err]) == Names(errs) + {err.device}
  {
    assert forall e :: e in errs + [err] <==> e in errs || e == err;
  }

  /** AddDevice, seen from the whole loop. */
  method NextDevice(devices: map<string, Device>, ghost objects: set<object>, name: string, conf: DeviceStoreConf,
                    store: map<string, Job>, ghost stored: set<object>, compiles: string -> bool,
                    ghost left: set<string>, ghost errs: seq<Refusal>)
      returns (err: Option<DeviceError>, more: map<string, Device>, ghost grown: set<object>)
    requires Scheduled(store, stored) && Shelved(devices, objects) && name in left && left <= conf.devices.Keys
    requires Coming(conf, Values(store, stored), compiles, left, errs, Outcomes(devices, objects))
    ensures Scheduled(store, stored) && Values(store, stored) == old(Values(store, stored))
    ensures Shelved(more, grown) && objects <= grown && fresh(grown - objects)
    ensures err.Some? ==> RefusedFor(conf, old(Values(store, stored)), compiles, name, err.value)
    ensures Coming(conf, old(Values(store, stored)), compiles, left - {name},
                   if err.Some? then errs + [Refusal(name, err.value)] else errs, Outcomes(more, grown))
  {
    ghost var was, values := Outcomes(devices, objects), Values(store, stored);
    assert name !in was;
    err, more, grown := AddDevice(devices, objects, name, conf, store, stored, compiles);
    NextComes(conf, values, compiles, left, errs, was, name, err, Outcomes(more, grown));
  }

  /** The nil generic of a copied command set was met, where Go panics. */
  predicate Panics(err: DeviceError) {
    err.JobFailed? && err.error == NilGeneric
  }

  /** The device store. The ranges take any order; nothing the job store holds is changed, and
      no two devices share an object, nor does a device share one with the job store. With any
      error there is no store. A panic ends it all: the device and job it was met at are the
      last error. A second device of the same name cannot come up: names are the keys of the
      map, and no layer changes them. */
  method NewLocalDeviceStore(conf: DeviceStoreConf, store: map<string, Job>, ghost stored: set<object>,
                             compiles: string -> bool)
      returns (panicked: bool, errs: seq<Refusal>, devices: map<string, Device>, ghost objects: set<object>)
    requires Scheduled(store, stored)
    ensures Scheduled(store, stored) && Values(store, stored) == old(Values(store, stored))
    ensures Shelved(devices, objects) && fresh(objects)
    ensures Ends(conf, old(Values(store, stored)), compiles, panicked, errs, Outcomes(devices, objects))
  {
    ghost var values := Values(store, stored);
    panicked, errs, devices, objects := BuildAll(conf, store, stored, compiles);
    LoopEnds(conf, values, compiles, panicked, errs, Outcomes(devices, objects));
    if errs != [] {
      ShelfNone();
      devices, objects := map[], {};
    }
  }

  /** The loop over the configured devices; a panic leaves it at once. */
  method BuildAll(conf: DeviceStoreConf, store: map<string, Job>, ghost stored: set<object>, compiles: string -> bool)
      returns (panicked: bool, errs: seq<Refusal>, devices: map<string, Device>, ghost objects: set<object>)
    requires Scheduled(store, stored)
    ensures Scheduled(store, stored) && Values(store, stored) == old(Values(store, stored))
    ensures Shelved(devices, objects) && fresh(objects)
    ensures Looped(conf, old(Values(store, stored)), compiles, panicked, errs, Outcomes(devices, objects))
  {
    panicked, errs, devices, objects := false, [], map[], {};
    var left := conf.devices.Keys;
    ghost var values := Values(store, stored);
    while left != {}
      invariant left <= conf.devices.Keys && Scheduled(store, stored) && Values(store, stored) == values
      invariant Shelved(devices, objects) && fresh(objects) && !panicked
      invariant Coming(conf, values, compiles, left, errs, Outcomes(devices, objects)) && Calm(errs)
      decreases left
    {
      var name :| name in left;
      var err;
      err, devices, objects := NextDevice(devices, objects, name, conf, store, stored, compiles, left, errs);
      if err.Some? {
        errs := errs + [Refusal(name, err.value)];
        if Panics(err.value) {
          return true, errs, devices, objects;
        }
      }
      left := left - {name};
    }
  }

  ghost predicate Looped(conf: DeviceStoreConf, store: map<string, JobValue>, compiles: string -> bool, panicked: bool,
                         errs: seq<Refusal>, results: map<string, DeviceValue>)
  {
    if panicked then
      && errs != [] && Panics(errs[|errs| - 1].reason)
      && RefusedFor(conf, store, compiles, errs[|errs| - 1].device, errs[|errs| - 1].reason)
    else Coming(conf, store, compiles, {}, errs, results) && Calm(errs)
  }

  predicate Calm(errs: seq<Refusal>) {
    forall i :: 0 <= i < |errs| ==> !Panics(errs[i].reason)
  }

  /** What a call comes to. It panics only at a device that may, and never gets past one that
      must. */
  ghost predicate Ends(conf: DeviceStoreConf, store: map<string, JobValue>, compiles: string -> bool, panicked: bool,
                       errs: seq<Refusal>, results: map<string, DeviceValue>)
  {
    if panicked then
      && results == map[] && errs != [] && Panics(errs[|errs| - 1].reason)
      && MayPanic(conf, store, errs[|errs| - 1].device)
    else
      && Comes(conf, store, compiles, errs, results) && Calm(errs)
      && forall name :: !MustPanic(conf, store, name)
  }

  lemma LoopEnds(conf: DeviceStoreConf, store: map<string, JobValue>, compiles: string -> bool, panicked: bool,
                 errs: seq<Refusal>, results: map<string, DeviceValue>)
    requires Looped(conf, store, compiles, panicked, errs, results)
    ensures Ends(conf, store, compiles, panicked, errs, if errs == [] then results else map[])
  {
    if panicked {
      var err := errs[|errs| - 1].reason;
      assert err == JobFailed(err.job, NilGeneric);
    } else {
      NoneMustPanic(conf, store, compiles, errs);
      assert conf.devices.Keys - {} == conf.devices.Keys;
    }
  }

  // ----- Panics -----

  /** Some order of the ranges meets the nil generic at this device. */
  ghost predicate MayPanic(conf: DeviceStoreConf, store: map<string, JobValue>, name: string) {
    && name in conf.devices
    && exists job :: BuildFails(name, conf.devices[name], conf.generics, store, JobFailed(job, NilGeneric))
  }

  /** Every order does. */
  ghost predicate MustPanic(conf: DeviceStoreConf, store: map<string, JobValue>, name: string) {
    && MayPanic(conf, store, name)
    && forall err :: BuildFails(name, conf.devices[name], conf.generics, store, err) ==> Panics(err)
  }

  /** Where no panic ended the loop, no device was bound to cause one. */
  lemma NoneMustPanic(conf: DeviceStoreConf, store: map<string, JobValue>, compiles: string -> bool,
                      errs: seq<Refusal>)
    requires Judged(conf, store, compiles, {}, errs) && Calm(errs)
    ensures forall name :: !MustPanic(conf, store, name)
  {
    forall name | MayPanic(conf, store, name) ensures !MustPanic(conf, store, name) {
      var device := conf.devices[name];
      BuildFailsExactly(name, device, conf.generics, store);
      if CanBe(conf, store, compiles, name) {
        var result :| Outcome(conf, store, compiles, name, result);
        BuildsBuildable(name, device, conf.generics, store, result);
        assert false;
      } else {
        var err :| err in errs && err.device == name;
        var i :| 0 <= i < |errs| && errs[i] == err;
        if err.reason == NotValid {
          var result :| BuildsTo(name, device, conf.generics, store, result);
          BuildsBuildable(name, device, conf.generics, store, result);
          assert false;
        }
        assert BuildFails(name, device, conf.generics, store, err.reason) && !Panics(err.reason);
      }
    }
  }

  /** The layer brings commands, or a command generic that writes anything, for a command job of
      the store. */
  predicate Overrides(layer: DeviceConf, job: string, store: map<string, JobValue>) {
    && job in layer.jobs && job in store && store[job].commandSet.Some?
    && (layer.jobs[job].kind == "" || (layer.jobs[job].kind == "command" && store[job].fileSet.None?))
    && NeedsGeneric(layer.jobs[job])
  }

  predicate KnownProtocol(conf: DeviceConf) {
    conf.protocol.None? || conf.protocol.value.kind == "ssh"
  }

  /** Whether a device may panic, as its configuration says: in the layer reached, some job of the
      store the device names is overridden. */
  lemma MayPanicExactly(conf: DeviceStoreConf, store: map<string, JobValue>, name: string)
    requires name in conf.devices
    ensures MayPanic(conf, store, name) <==> exists job :: PanicsAt(conf, store, name, job)
  {
    if MayPanic(conf, store, name) {
      var job :| BuildFails(name, conf.devices[name], conf.generics, store, JobFailed(job, NilGeneric));
      PanicsAtExactly(conf, store, name, job);
    }
    if job :| PanicsAt(conf, store, name, job) {
      PanicsAtExactly(conf, store, name, job);
    }
  }

  /** The job, in the layer reached. */
  predicate PanicsAt(conf: DeviceStoreConf, store: map<string, JobValue>, name: string, job: string)
    requires name in conf.devices
  {
    var device := conf.devices[name];
    match GenericLayer(device, conf.generics)
    case Missing => false
    case NoLayer => JobPanics(device, device, store, job)
    case Use(generic) =>
      JobPanics(device, if CanConfigure(NewDevice(name, device, store), generic) then device else generic, store, job)
  }

  lemma PanicsAtExactly(conf: DeviceStoreConf, store: map<string, JobValue>, name: string, job: string)
    requires name in conf.devices
    ensures BuildFails(name, conf.devices[name], conf.generics, store, JobFailed(job, NilGeneric)) <==>
              PanicsAt(conf, store, name, job)
  {
    var device := conf.devices[name];
    match GenericLayer(device, conf.generics)
    case Missing =>
    case NoLayer => FirstPanics(name, device, device, store, job);
    case Use(generic) =>
      FirstPanics(name, device, generic, store, job);
      if CanConfigure(NewDevice(name, device, store), generic) {
        SecondPanics(name, device, generic, store, job);
      }
  }

  predicate JobPanics(device: DeviceConf, layer: DeviceConf, store: map<string, JobValue>, job: string) {
    KnownProtocol(layer) && job in device.jobs && Overrides(layer, job, store)
  }

  lemma FirstPanics(name: string, device: DeviceConf, layer: DeviceConf, store: map<string, JobValue>, job: string)
    ensures LayerFails(NewDevice(name, device, store), layer, JobFailed(job, NilGeneric)) <==>
              JobPanics(device, layer, store, job)
  {
    if job in device.jobs && job in layer.jobs {
      NilGenericExactly(CopyOrDefault(job, store), layer.jobs[job]);
    }
  }

  lemma SecondPanics(name: string, device: DeviceConf, generic: DeviceConf, store: map<string, JobValue>, job: string)
    requires CanConfigure(NewDevice(name, device, store), generic)
    ensures LayerFails(Unfilled(NewDevice(name, device, store), generic), device, JobFailed(job, NilGeneric)) <==>
              JobPanics(device, device, store, job)
  {
    var start := NewDevice(name, device, store);
    if job in device.jobs {
      var plain := Unfilled(start, generic).jobs[job];
      if job in generic.jobs {
        NilStays(start.jobs[job], generic.jobs[job]);
      }
      NilGenericExactly(plain, device.jobs[job]);
    }
  }

  /** A layer that applies neither makes nor mends a nil generic. */
  lemma NilStays(job: JobValue, conf: JobConf)
    requires ApplyJob(job, conf).Ok?
    ensures var after := ApplyJob(job, conf).value;
            && (job.commandSet.Some? && job.commandSet.value.generic.None? <==>
                  after.commandSet.Some? && after.commandSet.value.generic.None?)
            && (job.commandSet.Some? && job.fileSet.None? ==> after.fileSet.None?)
            && (job.fileSet.Some? ==> after.fileSet.Some?)
  {
  }

  // ----- The store does not depend on any order -----

  ghost predicate GoodStores(conf: DeviceStoreConf, store: map<string, JobValue>) {
    && (forall job :: job in store ==> GoodJob(store[job]))
    && (forall name :: name in conf.devices ==> GoodLayer(conf.devices[name]))
    && (forall name :: name in conf.generics ==> GoodLayer(conf.generics[name]))
  }

  lemma NotRefused(conf: DeviceStoreConf, store: map<string, JobValue>, compiles: string -> bool, name: string,
                   result: DeviceValue)
    requires GoodStores(conf, store) && Outcome(conf, store, compiles, name, result)
    ensures !Refused(conf, store, compiles, name)
  {
    var device := conf.devices[name];
    BuildsBuildable(name, device, conf.generics, store, result);
    BuildFailsExactly(name, device, conf.generics, store);
    forall other | BuildsTo(name, device, conf.generics, store, other) ensures other == result {
      DeviceDetermined(name, device, conf.generics, store, other, result);
    }
  }

  /** Where all texts are well formed, a device is refused exactly when it has no valid outcome. */
  lemma RefusedExactly(conf: DeviceStoreConf, store: map<string, JobValue>, compiles: string -> bool, name: string)
    requires GoodStores(conf, store) && name in conf.devices
    ensures Refused(conf, store, compiles, name) <==> !CanBe(conf, store, compiles, name)
  {
    var device := conf.devices[name];
    if CanBe(conf, store, compiles, name) {
      var result :| Outcome(conf, store, compiles, name, result);
      NotRefused(conf, store, compiles, name, result);
    } else if Buildable(name, device, conf.generics, store) {
      var result := BuildableBuilds(name, device, conf.generics, store);
      assert !Outcome(conf, store, compiles, name, result);
      assert RefusedFor(conf, store, compiles, name, NotValid);
    } else {
      BuildFailsExactly(name, device, conf.generics, store);
      var err :| BuildFails(name, device, conf.generics, store, err);
      NeverNotValid(name, device, conf.generics, store, err);
      assert RefusedFor(conf, store, compiles, name, err);
    }
  }

  lemma NeverNotValid(name: string, conf: DeviceConf, generics: map<string, DeviceConf>, store: map<string, JobValue>,
                     err: DeviceError)
    requires BuildFails(name, conf, generics, store, err)
    ensures err != NotValid
  {
  }

  /** Where all texts are well formed, whatever orders the ranges took in two calls that did not
      panic: the errors name exactly the devices that are refused, so the store is built exactly
      when none is, and two stores that are built are the same. */
  lemma StoreDetermined(conf: DeviceStoreConf, store: map<string, JobValue>, compiles: string -> bool,
                        errs: seq<Refusal>, results: map<string, DeviceValue>,
                        errs': seq<Refusal>, results': map<string, DeviceValue>)
    requires GoodStores(conf, store)
    requires Comes(conf, store, compiles, errs, results) && Comes(conf, store, compiles, errs', results')
    ensures forall name :: name in Names(errs) <==> Refused(conf, store, compiles, name)
    ensures Names(errs) == Names(errs') && results == results'
  {
    RefusedAre(conf, store, compiles, errs, results);
    RefusedAre(conf, store, compiles, errs', results');
    assert Names(errs) == Names(errs');
    NamesNone(errs);
    NamesNone(errs');
    forall name | name in results ensures name in results' && results[name] == results'[name] {
      OutcomeOnce(conf, store, compiles, name, results[name], results'[name]);
    }
  }

  lemma NamesNone(errs: seq<Refusal>)
    ensures Names(errs) == {} <==> errs == []
  {
    if errs != [] {
      assert errs[0] in errs && errs[0].device in Names(errs);
    }
  }

  lemma OutcomeOnce(conf: DeviceStoreConf, store: map<string, JobValue>, compiles: string -> bool, name: string,
                    a: DeviceValue, b: DeviceValue)
    requires GoodStores(conf, store)
    requires Outcome(conf, store, compiles, name, a) && Outcome(conf, store, compiles, name, b)
    ensures a == b
  {
    DeviceDetermined(name, conf.devices[name], conf.generics, store, a, b);
  }

  lemma RefusedAre(conf: DeviceStoreConf, store: map<string, JobValue>, compiles: string -> bool,
                   errs: seq<Refusal>, results: map<string, DeviceValue>)
    requires GoodStores(conf, store) && Comes(conf, store, compiles, errs, results)
    ensures forall name :: name in Names(errs) <==> Refused(conf, store, compiles, name)
  {
    forall name | name in Names(errs) ensures Refused(conf, store, compiles, name) {
      var err :| err in errs && err.device == name;
      var i :| 0 <= i < |errs| && errs[i] == err;
      assert RefusedFor(conf, store, compiles, name, err.reason);
    }
    forall name | name in conf.devices && name !in Names(errs) ensures !Refused(conf, store, compiles, name) {
      assert CanBe(conf, store, compiles, name);
      RefusedExactly(conf, store, compiles, name);
    }
  }
}
