/** Devices as object graphs, and the device store that builds them from copies of the
    store's jobs (model/device.go:10-70, controller/device_store.go:28-89). */
module DeviceObjects {
  import opened Prelude
  import opened JobConfig
  import opened JobTemplates
  import opened DeviceConfig
  import opened JobObjects
  import opened JobMaps

  /** The error is that of a job the layer fails on. */
  predicate JobFails(before: map<string, JobValue>, confs: map<string, JobConf>, err: DeviceError) {
    && err.JobFailed? && err.job in before && err.job in confs
    && ApplyJob(before[err.job], confs[err.job]) == Err(err.error)
  }

  ghost predicate Reconfigured(before: JobValue, conf: JobConf, now: JobValue) {
    ApplyJob(before, conf).Ok? && Filled(ApplyJob(before, conf).value, now)
  }

  /** Where a job stands while a layer still has these names left to range over. */
  ghost predicate Progress(before: JobValue, confs: map<string, JobConf>, left: set<string>, name: string,
                           now: JobValue)
  {
    if name in confs && name !in left then Reconfigured(before, confs[name], now)
    else now == before
  }

  ghost predicate AllProgress(before: map<string, JobValue>, confs: map<string, JobConf>, left: set<string>,
                              now: map<string, JobValue>)
  {
    now.Keys == before.Keys && forall name :: name in before ==> Progress(before[name], confs, left, name, now[name])
  }

  lemma Progressed(before: map<string, JobValue>, confs: map<string, JobConf>, left: set<string>, name: string,
                   was: map<string, JobValue>, after: JobValue)
    requires AllProgress(before, confs, left, was) && name in left && name in confs && name in was
    requires Reconfigured(was[name], confs[name], after)
    ensures AllProgress(before, confs, left - {name}, was[name := after])
  {
    assert Progress(before[name], confs, left, name, was[name]);
    forall other | other in before
      ensures Progress(before[other], confs, left - {name}, other, was[name := after][other]) {
      assert Progress(before[other], confs, left, other, was[other]);
    }
  }

  lemma ProgressSkips(before: map<string, JobValue>, confs: map<string, JobConf>, left: set<string>, name: string,
                      now: map<string, JobValue>)
    requires AllProgress(before, confs, left, now) && name !in now
    ensures AllProgress(before, confs, left - {name}, now)
  {
    forall other | other in before ensures Progress(before[other], confs, left - {name}, other, now[other]) {
      assert Progress(before[other], confs, left, other, now[other]);
    }
  }

  lemma ProgressDone(d: DeviceValue, header: Header, conf: DeviceConf, now: map<string, JobValue>)
    requires AllProgress(d.jobs, conf.jobs, {}, now) && ApplyHeader(d.header, conf) == Some(header)
    ensures LayersOnto(d, conf, DeviceValue(header, now))
  {
    forall name | name in d.jobs
      ensures name in conf.jobs ==> ApplyJob(d.jobs[name], conf.jobs[name]).Ok?
      ensures Progress(d.jobs[name], conf.jobs, {}, name, now[name])
    {
    }
  }

  // ----- Configuring the jobs of a device -----

  /** A job none of whose objects changed is as it was. */
  twostate lemma Kept(job: Job)
    requires old(job.Valid()) && unchanged(old(job.Repr))
    ensures job.Valid() && job.Repr == old(job.Repr) && job.value == old(job.value)
  {
    assert job in old(job.Repr);
  }

  /** The others are as they were, and this job shares nothing with them. */
  lemma HeldGrown(jobs: map<string, Job>, owned: set<object>, name: string)
    requires name in jobs && jobs[name].Valid()
    requires forall other :: other in jobs && other != name ==>
               jobs[other] in owned && jobs[other].Repr <= owned && jobs[other].Valid()
                 && jobs[other].Repr !! jobs[name].Repr
    requires forall a, b :: a in jobs && b in jobs && a != b && a != name && b != name ==> jobs[a].Repr !! jobs[b].Repr
    ensures Held(jobs, owned + jobs[name].Repr)
  {
  }

  lemma OneChanged(jobs: map<string, Job>, owned: set<object>, was: map<string, JobValue>, name: string)
    requires Held(jobs, owned) && name in jobs && was.Keys == jobs.Keys
    requires forall other :: other in jobs && other != name ==> jobs[other].value == was[other]
    ensures Values(jobs, owned) == was[name := jobs[name].value]
  {
  }

  /** Changing one job leaves the others as they were. */
  method ConfigureOne(jobs: map<string, Job>, ghost owned: set<object>, name: string, conf: JobConf)
      returns (err: Option<JobError>)
    requires Held(jobs, owned) && name in jobs
    modifies jobs[name].Repr
    ensures err.Some? ==> ApplyJob(old(jobs[name].value), conf) == Err(err.value)
    ensures err.None? ==> jobs[name].Valid() && fresh(jobs[name].Repr - old(jobs[name].Repr))
    ensures err.None? ==> Reconfigured(old(jobs[name].value), conf, jobs[name].value)
    ensures forall other :: other in jobs && other != name ==>
              jobs[other].Repr == old(jobs[other].Repr) && jobs[other].Valid()
                && jobs[other].value == old(jobs[other].value)
  {
    err := jobs[name].Configure(conf);
    forall other | other in jobs && other != name
      ensures jobs[other].Repr == old(jobs[other].Repr) && jobs[other].Valid()
              && jobs[other].value == old(jobs[other].value)
    {
      Kept(jobs[other]);
    }
  }

  method ConfigureJob(jobs: map<string, Job>, ghost owned: set<object>, name: string, conf: JobConf)
      returns (err: Option<JobError>)
    requires Held(jobs, owned) && name in jobs
    modifies jobs[name].Repr
    ensures err.Some? ==> ApplyJob(old(jobs[name].value), conf) == Err(err.value)
    ensures err.None? ==> Held(jobs, owned + jobs[name].Repr) && fresh(jobs[name].Repr - old(jobs[name].Repr))
    ensures err.None? ==> Values(jobs, owned + jobs[name].Repr) == old(Values(jobs, owned))[name := jobs[name].value]
    ensures err.None? ==> Reconfigured(old(jobs[name].value), conf, jobs[name].value)
  {
    ghost var was := Values(jobs, owned);
    err := ConfigureOne(jobs, owned, name, conf);
    if err.None? {
      HeldGrown(jobs, owned, name);
      OneChanged(jobs, owned + jobs[name].Repr, was, name);
    }
  }

  /** Layers every job the layer names, in any order of the map. */
  method ConfigureJobs(jobs: map<string, Job>, ghost owned: set<object>, confs: map<string, JobConf>)
      returns (err: Option<DeviceError>, ghost grown: set<object>)
    requires Held(jobs, owned)
    modifies owned
    ensures err.Some? ==> JobFails(old(Values(jobs, owned)), confs, err.value)
    ensures err.None? ==> owned <= grown && Held(jobs, grown) && fresh(grown - owned)
    ensures err.None? ==> AllProgress(old(Values(jobs, owned)), confs, {}, Values(jobs, grown))
  {
    var left := confs.Keys;
    grown := owned;
    ghost var before := Values(jobs, owned);
    while left != {}
      invariant left <= confs.Keys && owned <= grown && Held(jobs, grown) && fresh(grown - owned)
      invariant AllProgress(before, confs, left, Values(jobs, grown))
      decreases left
    {
      var name :| name in left;
      assert left - {name} + {name} == left;
      left := left - {name};
      if name in jobs {
        ghost var was := Values(jobs, grown);
        var failed := ConfigureJob(jobs, grown, name, confs[name]);
        if failed.Some? {
          assert Progress(before[name], confs, left + {name}, name, was[name]);
          return Some(JobFailed(name, failed.value)), grown;
        }
        grown := grown + jobs[name].Repr;
        assert left + {name} - {name} == left;
        Progressed(before, confs, left + {name}, name, was, jobs[name].value);
      } else {
        assert left + {name} - {name} == left;
        ProgressSkips(before, confs, left + {name}, name, Values(jobs, grown));
      }
    }
    return None, grown;
  }

  // ----- Devices -----

  class Device {
    var header: Header
    var jobs: map<string, Job>
    ghost var Owned: set<object>

    ghost predicate Valid()
      reads this, Owned
    {
      this !in Owned && Held(jobs, Owned)
    }

    ghost function Value(): DeviceValue
      requires Valid()
      reads this, Owned
    {
      DeviceValue(header, Values(jobs, Owned))
    }

    constructor Default(name: string, jobs: map<string, Job>, ghost owned: set<object>)
      requires Held(jobs, owned)
      ensures Valid() && Owned == owned && Value() == DeviceValue(DefaultHeader(name), old(Values(jobs, owned)))
    {
      header, this.jobs := DefaultHeader(name), jobs;
      Owned := owned;
      new;
      StockKept(Stock(jobs, owned));
    }

    method ApplyConfig(conf: DeviceConf) returns (err: Option<DeviceError>)
      requires Valid()
      modifies this, Owned
      ensures err.Some? ==> LayerFails(old(Value()), conf, err.value)
      ensures err.None? ==> Valid() && fresh(Owned - old(Owned)) && LayersOnto(old(Value()), conf, Value())
      ensures err == Some(UnknownProtocol) <==> conf.protocol.Some? && conf.protocol.value.kind != "ssh"
      ensures err.None? ==> header.name == old(header.name) && header.tags == old(header.tags) + conf.tags
      ensures err.None? ==> header.host == if conf.host == "" then old(header.host) else conf.host
      ensures err.None? && conf.protocol.None? ==> header.ssh == old(header.ssh)
      ensures err.None? && conf.protocol.Some? ==>
                header.ssh == if conf.protocol.value.ssh.None? then Ssh(22, false) else conf.protocol.value.ssh.value
      ensures err.None? && conf.credentials.None? ==> header.credentials == old(header.credentials)
      ensures err.None? && conf.credentials.Some? ==>
                && header.credentials.Some?
                && (conf.credentials.value.user != "" ==> header.credentials.value.user == conf.credentials.value.user)
                && (conf.credentials.value.pass != "" ==> header.credentials.value.pass == conf.credentials.value.pass)
                && (conf.credentials.value.user == "" ==>
                      header.credentials.value.user
                      == if old(header).credentials.None? then "" else old(header).credentials.value.user)
                && (conf.credentials.value.pass == "" ==>
                      header.credentials.value.pass
                      == if old(header).credentials.None? then "" else old(header).credentials.value.pass)
    {
      var layered := ApplyHeader(header, conf);
      if layered.None? {
        return Some(UnknownProtocol);
      }
      ghost var before := Value();
      SetHeader(layered.value);
      err := LayerJobs(conf.jobs);
      if err.None? {
        ProgressDone(before, layered.value, conf, Value().jobs);
      }
    }

    method SetHeader(h: Header)
      requires Valid()
      modifies this
      ensures Valid() && Owned == old(Owned) && Value() == old(Value()).(header := h)
    {
      header := h;
    }

    method LayerJobs(confs: map<string, JobConf>) returns (err: Option<DeviceError>)
      requires Valid()
      modifies this, Owned
      ensures err.Some? ==> JobFails(old(Value().jobs), confs, err.value)
      ensures err.None? ==> Valid() && fresh(Owned - old(Owned))
      ensures err.None? ==>
              Value().header == old(Value().header) && AllProgress(old(Value().jobs), confs, {}, Value().jobs)
    {
      ghost var grown;
      err, grown := ConfigureJobs(jobs, Owned, confs);
      Owned := grown;
    }
  }
}
