/** Jobs as object graphs: layered, substituted and copied in place (model/job.go:11-113). */
module JobObjects {
  import opened Prelude
  import opened JobConfig
  import opened JobTemplates
  import opened CommandSets
  import opened JobParts

  /** Parts holds the objects a job owns outside its command set. */
  class Job {
    const name: string
    var commandSet: CommandSet?
    var fileSet: FileSet?
    var schedule: Option<string>
    var scrubbers: seq<JobScrubber>
    var templateValues: StringMap
    ghost var value: JobValue
    ghost var Parts: set<object>
    ghost var Repr: set<object>

    ghost predicate Valid()
      reads this, Repr
    {
      && this in Parts && Parts <= Repr
      && name == value.name && schedule == value.schedule
      && CommandsValid() && FilesValid() && ScrubbersValid() && ValuesValid()
    }

    ghost predicate CommandsValid()
      reads this, Repr
    {
      && (commandSet != null <==> value.commandSet.Some?)
      && (commandSet != null ==>
            && commandSet in Repr && commandSet.Repr <= Repr && commandSet.Repr !! Parts
            && commandSet.Valid() && commandSet.value == value.commandSet.value)
    }

    ghost predicate FilesValid()
      reads this, Parts
    {
      && (fileSet != null <==> value.fileSet.Some?)
      && (fileSet != null ==> fileSet in Parts && View(fileSet.files) == value.fileSet.value)
    }

    ghost predicate ScrubbersValid()
      reads this, Parts
    {
      && |scrubbers| == |value.scrubbers|
      && (forall i, j :: 0 <= i < j < |scrubbers| ==> scrubbers[i] != scrubbers[j])
      && (forall i :: 0 <= i < |scrubbers| ==> scrubbers[i] in Parts && scrubbers[i].Value() == value.scrubbers[i])
    }

    ghost predicate ValuesValid()
      reads this, Parts
    {
      templateValues in Parts && templateValues.entries == value.templateValues
    }

    constructor Default(name: string)
      ensures Valid() && fresh(Repr) && value == DefaultJob(name)
    {
      this.name := name;
      commandSet, fileSet, schedule, scrubbers := null, null, None, [];
      var values := new StringMap();
      templateValues := values;
      value := DefaultJob(name);
      Parts := {this, values};
      Repr := {this, values};
    }

    // ----- Layering -----

    /** The first part of ApplyConfig: the set the configured type asks for. */
    method ChooseSet(kind: string) returns (err: Option<JobError>)
      requires Valid()
      modifies this
      ensures err.Some? ==> ChooseKind(old(value), kind) == Err(err.value)
      ensures err.None? ==> Valid() && fresh(Repr - old(Repr)) && ChooseKind(old(value), kind) == Ok(value)
      ensures err == if kind == "command" && old(fileSet) != null then Some(FileSetPresent)
                     else if kind == "file" && old(commandSet) != null then Some(CommandSetPresent)
                     else if kind in {"", "command", "file"} then None else Some(UnknownKind)
    {
      if kind == "command" {
        if fileSet != null {
          return Some(FileSetPresent);
        }
        if commandSet == null {
          NewCommandSet();
        }
      } else if kind == "file" {
        if commandSet != null {
          return Some(CommandSetPresent);
        }
        if fileSet == null {
          NewFileSet();
        }
      } else if kind == "" {
        if fileSet == null && commandSet == null {
          NewCommandSet();
        }
      } else {
        return Some(UnknownKind);
      }
      return None;
    }

    method NewCommandSet()
      requires Valid() && commandSet == null
      modifies this
      ensures Valid() && fresh(Repr - old(Repr)) && value == old(value).(commandSet := Some(DEFAULT_COMMANDS))
    {
      var c := new CommandSet.Default();
      PutCommandSet(c);
    }

    method PutCommandSet(c: CommandSet)
      requires Valid() && commandSet == null && c.Valid() && c.Repr !! Repr
      modifies this
      ensures Valid() && Repr == old(Repr) + c.Repr && templateValues == old(templateValues) && fileSet == old(fileSet)
      ensures value == old(value).(commandSet := Some(c.value))
    {
      commandSet := c;
      value := value.(commandSet := Some(c.value));
      Repr := Repr + c.Repr;
    }

    method NewFileSet()
      requires Valid() && fileSet == null
      modifies this
      ensures Valid() && fresh(Repr - old(Repr)) && value == old(value).(fileSet := Some(NO_FILES))
    {
      var f := new FileSet([]);
      PutFileSet(f);
    }

    method PutFileSet(f: FileSet)
      requires Valid() && fileSet == null && f !in Repr
      modifies this
      ensures Valid() && Repr == old(Repr) + {f} && templateValues == old(templateValues)
      ensures value == old(value).(fileSet := Some(View(f.files)))
    {
      fileSet := f;
      value := value.(fileSet := Some(View(f.files)));
      Parts := Parts + {f};
      Repr := Repr + {f};
    }

    /** The second part: the sets take in the configuration. */
    method LayerSets(conf: JobConf) returns (err: Option<JobError>)
      requires Valid()
      modifies Repr
      ensures err.Some? ==> err == Some(NilGeneric) && ApplySets(old(value), conf).None?
      ensures err.None? ==> Valid() && fresh(Repr - old(Repr)) && ApplySets(old(value), conf) == Some(value)
    {
      if commandSet != null {
        var ok := LayerCommands(conf);
        if !ok {
          return Some(NilGeneric);
        }
      }
      if fileSet != null {
        LayerFiles(conf);
      }
      return None;
    }

    method LayerCommands(conf: JobConf) returns (ok: bool)
      requires Valid() && commandSet != null
      modifies commandSet.Repr, this
      ensures ok <==> ApplyCommands(old(value.commandSet.value), conf).Some?
      ensures ok ==> Valid() && fresh(Repr - old(Repr))
      ensures ok ==> value == old(value).(commandSet := ApplyCommands(old(value.commandSet.value), conf))
    {
      ok := commandSet.ApplyConfig(conf);
      if ok {
        value := value.(commandSet := Some(commandSet.value));
        Repr := Repr + commandSet.Repr;
      }
    }

    method LayerFiles(conf: JobConf)
      requires Valid() && fileSet != null
      modifies fileSet, this
      ensures Valid() && Repr == old(Repr)
      ensures value == old(value).(fileSet := Some(ApplyFiles(old(value.fileSet.value), conf)))
    {
      fileSet.ApplyConfig(conf);
      value := value.(fileSet := Some(View(fileSet.files)));
    }

    /** The rest: schedule, scrubbers, template values. */
    method LayerRest(conf: JobConf) returns (err: Option<JobError>)
      requires Valid()
      modifies this, templateValues
      ensures err.Some? ==> ApplyRest(old(value), conf) == Err(err.value)
      ensures err.None? ==> Valid() && fresh(Repr - old(Repr)) && ApplyRest(old(value), conf) == Ok(value)
    {
      match conf.schedule {
        case Absent =>
        case Rejected => return Some(BadSchedule);
        case Parsed(cron) => SetSchedule(cron);
      }
      AppendScrubbers(conf.scrubbers);
      PutValues(conf.templateValues);
      return None;
    }

    method SetSchedule(cron: string)
      requires Valid()
      modifies this
      ensures Valid() && Repr == old(Repr) && templateValues == old(templateValues)
      ensures value == old(value).(schedule := Some(cron))
    {
      schedule := Some(cron);
      value := value.(schedule := Some(cron));
    }

    method AppendScrubbers(confs: seq<ScrubberConf>)
      requires Valid()
      modifies this
      ensures Valid() && fresh(Repr - old(Repr)) && templateValues == old(templateValues)
      ensures value == old(value).(scrubbers := old(value.scrubbers) + NewScrubbers(confs))
    {
      ghost var before := value;
      var i := 0;
      while i < |confs|
        invariant i <= |confs| && Valid() && fresh(Repr - old(Repr)) && templateValues == old(templateValues)
        invariant value == before.(scrubbers := before.scrubbers + NewScrubbers(confs[..i]))
      {
        AppendScrubber(NewScrubber(confs[i]));
        assert NewScrubbers(confs[..i + 1]) == NewScrubbers(confs[..i]) + [NewScrubber(confs[i])];
        i := i + 1;
      }
      assert confs[..i] == confs;
    }

    method AppendScrubber(v: Scrubber)
      requires Valid()
      modifies this
      ensures Valid() && fresh(Repr - old(Repr)) && templateValues == old(templateValues)
      ensures value == old(value).(scrubbers := old(value.scrubbers) + [v])
    {
      var s := new JobScrubber(v);
      scrubbers := scrubbers + [s];
      value := value.(scrubbers := value.scrubbers + [v]);
      Parts := Parts + {s};
      Repr := Repr + {s};
    }

    method PutValues(values: map<string, string>)
      requires Valid()
      modifies this, templateValues
      ensures Valid() && Repr == old(Repr)
      ensures value == old(value).(templateValues := old(value.templateValues) + values)
    {
      templateValues.PutAll(values);
      value := value.(templateValues := templateValues.entries);
    }

    /** Layers a configuration; on an error the job is left half configured. */
    method ApplyConfig(conf: JobConf) returns (err: Option<JobError>)
      requires Valid()
      modifies Repr
      ensures err.Some? ==> ApplyJob(old(value), conf) == Err(err.value)
      ensures err.None? ==> Valid() && fresh(Repr - old(Repr)) && ApplyJob(old(value), conf) == Ok(value)
    {
      err := ChooseSet(conf.kind);
      if err.None? {
        err := LayerSets(conf);
        if err.None? {
          err := LayerRest(conf);
        }
      }
    }

    // ----- Substitution -----

    /** Replaces the placeholders in place, ranging over the values in any order. */
    method ApplyTemplateValues()
      requires Valid()
      modifies Repr
      ensures Valid() && Repr == old(Repr) && Filled(old(value), value)
    {
      ghost var before := value;
      ghost var order: seq<string> := [];
      var values := templateValues.entries;
      var left := values.Keys;
      FillJobNone(before, values);
      while left != {}
        invariant left <= values.Keys && Valid() && Repr == old(Repr)
        invariant IsOrder(order, values.Keys - left) && value == FillJob(before, order, values)
        decreases left
      {
        var key :| key in left;
        FillJobSnoc(before, order, key, values);
        OrderSnoc(order, values.Keys, left, key);
        ReplaceKey(key, values[key]);
        order := order + [key];
        left := left - {key};
      }
      assert values.Keys - {} == values.Keys;
    }

    /** A layer at the bottom of the chain: applied, then the placeholders replaced. */
    method Configure(conf: JobConf) returns (err: Option<JobError>)
      requires Valid()
      modifies Repr
      ensures err.Some? ==> ApplyJob(old(value), conf) == Err(err.value)
      ensures err.None? ==> Valid() && fresh(Repr - old(Repr))
      ensures err.None? ==> ApplyJob(old(value), conf).Ok? && Filled(ApplyJob(old(value), conf).value, value)
    {
      err := ApplyConfig(conf);
      if err.None? {
        ApplyTemplateValues();
      }
    }

    method ReplaceKey(key: string, text: string)
      requires Valid()
      modifies Repr
      ensures Valid() && Repr == old(Repr) && value == ReplaceInJob(old(value), key, text)
    {
      if commandSet != null {
        ReplaceInSet(key, text);
      }
      var i := 0;
      ghost var before := value;
      while i < |scrubbers|
        invariant i <= |scrubbers| && Valid() && Repr == old(Repr)
        invariant |value.scrubbers| == |before.scrubbers| && value == before.(scrubbers := value.scrubbers)
        invariant forall j :: 0 <= j < i ==> value.scrubbers[j] == ReplaceInScrubber(before.scrubbers[j], key, text)
        invariant forall j :: i <= j < |before.scrubbers| ==> value.scrubbers[j] == before.scrubbers[j]
      {
        ReplaceInScrubberAt(i, key, text);
        i := i + 1;
      }
    }

    method ReplaceInSet(key: string, text: string)
      requires Valid() && commandSet != null
      modifies commandSet.Repr, this
      ensures Valid() && Repr == old(Repr)
      ensures var c := old(value.commandSet.value);
              value == old(value).(commandSet := Some(c.(list := ReplaceInCommands(c.list, key, text))))
    {
      commandSet.ReplaceKey(key, text);
      value := value.(commandSet := Some(commandSet.value));
    }

    method ReplaceInScrubberAt(i: nat, key: string, text: string)
      requires Valid() && i < |scrubbers|
      modifies scrubbers[i], this
      ensures Valid() && Repr == old(Repr) && scrubbers == old(scrubbers)
      ensures var replaced := ReplaceInScrubber(old(value.scrubbers[i]), key, text);
              value == old(value).(scrubbers := old(value.scrubbers)[i := replaced])
    {
      scrubbers[i].ReplaceKey(key, text);
      value := value.(scrubbers := value.scrubbers[i := scrubbers[i].Value()]);
    }

    // ----- Validation -----

    method Validate(compiles: string -> bool) returns (ok: bool)
      requires Valid()
      ensures ok == ValidJob(value, compiles)
      ensures ok ==> schedule.Some? && forall i :: 0 <= i < |scrubbers| ==>
                scrubbers[i].search != "" && scrubbers[i].kind in {"simple", "regex", "regex_substitute"}
    {
      ok := schedule.Some?;
      var fine := ValidateSets(compiles);
      ok := ok && fine;
      fine := ValidateScrubbers(compiles);
      ok := ok && fine;
    }

    method ValidateSets(compiles: string -> bool) returns (ok: bool)
      requires Valid()
      ensures ok <==> (value.commandSet.Some? ==> ValidCommands(value.commandSet.value, compiles))
                      && (value.fileSet.Some? ==> ValidFiles(value.fileSet.value))
    {
      ok := true;
      if commandSet != null {
        ok := commandSet.Validate(compiles);
      }
      if fileSet != null {
        var fine := fileSet.Validate();
        ok := ok && fine;
      }
    }

    method ValidateScrubbers(compiles: string -> bool) returns (ok: bool)
      requires Valid()
      ensures ok <==> forall i :: 0 <= i < |value.scrubbers| ==> ValidScrubber(value.scrubbers[i], compiles)
      ensures ok ==> forall i :: 0 <= i < |scrubbers| ==>
                scrubbers[i].search != "" && scrubbers[i].kind in {"simple", "regex", "regex_substitute"}
    {
      ok := true;
      var i := 0;
      while i < |scrubbers|
        invariant i <= |scrubbers|
        invariant ok <==> forall j :: 0 <= j < i ==> ValidScrubber(value.scrubbers[j], compiles)
      {
        ok := ok && ValidScrubber(scrubbers[i].Value(), compiles);
        i := i + 1;
      }
    }

    // ----- Copying -----

    /** A separate job, equal but for the generic command. A job without a schedule would
        panic; a stored job is validated to have one. */
    method DeepCopy() returns (c: Job)
      requires Valid() && schedule.Some?
      ensures c.Valid() && fresh(c.Repr) && c.value == CopyJob(value)
      ensures c.value.name == value.name && c.value.schedule == value.schedule && c.value.fileSet == value.fileSet
      ensures c.value.scrubbers == value.scrubbers && c.value.templateValues == value.templateValues
      ensures c.value.commandSet == if value.commandSet.None? then None
                                    else Some(Commands(None, value.commandSet.value.list))
    {
      c := new Job.Default(name);
      c.SetSchedule(schedule.value);
      CopyCommands(c);
      CopyFiles(c);
      CopyScrubbers(c);
      CopyValues(c);
    }

    /** Another job that shares no object with this one. */
    ghost predicate Apart(c: Job)
      reads this, Repr, c, c.Repr
    {
      Valid() && c.Valid() && c.Repr !! Repr
    }

    method CopyCommands(c: Job)
      requires Apart(c) && c.commandSet == null
      modifies c
      ensures Apart(c) && fresh(c.Repr - old(c.Repr)) && c.templateValues == old(c.templateValues)
              && c.fileSet == old(c.fileSet)
      ensures c.value == old(c.value).(commandSet := CopyJob(value).commandSet)
    {
      if commandSet != null {
        var commands := commandSet.DeepCopy();
        c.PutCommandSet(commands);
      }
    }

    method CopyFiles(c: Job)
      requires Apart(c) && c.fileSet == null
      modifies c
      ensures Apart(c) && fresh(c.Repr - old(c.Repr)) && c.templateValues == old(c.templateValues)
      ensures c.value == old(c.value).(fileSet := value.fileSet)
    {
      if fileSet != null {
        var files := fileSet.DeepCopy();
        c.PutFileSet(files);
      }
    }

    method CopyScrubbers(c: Job)
      requires Apart(c) && c.value.scrubbers == []
      modifies c
      ensures Apart(c) && fresh(c.Repr - old(c.Repr)) && c.templateValues == old(c.templateValues)
      ensures c.value == old(c.value).(scrubbers := value.scrubbers)
    {
      var i := 0;
      while i < |scrubbers|
        invariant i <= |scrubbers| && Apart(c) && fresh(c.Repr - old(c.Repr))
                  && c.templateValues == old(c.templateValues)
        invariant c.value == old(c.value).(scrubbers := value.scrubbers[..i])
      {
        c.AppendScrubber(scrubbers[i].Value());
        i := i + 1;
      }
    }

    method CopyValues(c: Job)
      requires Apart(c) && c.value.templateValues == map[]
      modifies c, c.templateValues
      ensures Apart(c) && c.Repr == old(c.Repr)
      ensures c.value == old(c.value).(templateValues := value.templateValues)
    {
      c.PutValues(templateValues.entries);
      assert map[] + value.templateValues == value.templateValues;
    }
  }
}
