/** Maps of jobs that share nothing, as the job store and every device hold them. */
module JobMaps {
  import opened JobConfig
  import opened JobObjects

  /** Valid jobs among the owned objects, no two of which share an object. */
  ghost predicate Held(jobs: map<string, Job>, owned: set<object>)
    reads owned
  {
    && (forall name :: name in jobs ==> jobs[name] in owned && jobs[name].Repr <= owned && jobs[name].Valid())
    && (forall a, b :: a in jobs && b in jobs && a != b ==> jobs[a].Repr !! jobs[b].Repr)
  }

  ghost function Values(jobs: map<string, Job>, owned: set<object>): map<string, JobValue>
    requires Held(jobs, owned)
    reads owned
  {
    map name | name in jobs :: jobs[name].value
  }

  datatype Stock = Stock(jobs: map<string, Job>, owned: set<object>)

  /** Jobs none of whose objects changed are as they were. */
  twostate lemma StockKept(s: Stock)
    requires old(Held(s.jobs, s.owned)) && unchanged(s.owned)
    ensures Held(s.jobs, s.owned) && Values(s.jobs, s.owned) == old(Values(s.jobs, s.owned))
  {
  }

  lemma HeldPut(jobs: map<string, Job>, owned: set<object>, name: string, job: Job)
    requires Held(jobs, owned) && job.Valid() && job.Repr !! owned && name !in jobs
    ensures Held(jobs[name := job], owned + job.Repr)
    ensures Values(jobs[name := job], owned + job.Repr) == Values(jobs, owned)[name := job.value]
  {
  }
}
