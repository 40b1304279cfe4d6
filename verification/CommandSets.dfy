/** Command sets as object graphs: layered, substituted and copied in place
    (model/command_set.go:11-50). A set keeps a ghost copy of its value and the set of
    objects it owns. */
module CommandSets {
  import opened Prelude
  import opened JobConfig
  import opened JobTemplates
  import opened CommandObjects

  class CommandSet {
    var generic: CommandSetCommand?
    var commands: seq<CommandSetCommand>
    ghost var value: Commands
    ghost var Repr: set<object>

    /** c is a valid part of this set that holds the given value. */
    ghost predicate Holds(c: CommandSetCommand, v: Command)
      reads this, Repr
    {
      c in Repr && c.Owned() <= Repr && this !in c.Owned() && c.Valid() && c.Value() == v
    }

    ghost predicate Valid()
      reads this, Repr
    {
      && this in Repr
      && (generic != null <==> value.generic.Some?)
      && (generic != null ==> Holds(generic, value.generic.value))
      && |commands| == |value.list|
      && (forall i :: 0 <= i < |commands| ==> Holds(commands[i], value.list[i]))
      && (forall i, j :: 0 <= i < j < |commands| ==> commands[i].Owned() !! commands[j].Owned())
      && (generic != null ==> forall i :: 0 <= i < |commands| ==> generic.Owned() !! commands[i].Owned())
    }

    constructor Default()
      ensures Valid() && fresh(Repr) && value == DEFAULT_COMMANDS
    {
      var c := new CommandSetCommand.Default();
      generic, commands := c, [];
      value := DEFAULT_COMMANDS;
      Repr := {this} + c.Owned();
    }

    /** A set without a generic command, as DeepCopy starts it. */
    constructor Empty()
      ensures Valid() && fresh(Repr) && value == Commands(None, [])
    {
      generic, commands := null, [];
      value := Commands(None, []);
      Repr := {this};
    }

    method Append(c: CommandSetCommand)
      requires Valid() && c.Valid() && c.Owned() !! Repr
      modifies this
      ensures Valid() && Repr == old(Repr) + c.Owned()
      ensures generic == old(generic) && value == old(value).(list := old(value.list) + [c.Value()])
    {
      commands := commands + [c];
      value := value.(list := value.list + [c.Value()]);
      Repr := Repr + c.Owned();
    }

    method LayerGeneric(conf: CommandConf)
      requires Valid() && generic != null
      modifies Repr
      ensures Valid() && fresh(Repr - old(Repr)) && generic == old(generic)
      ensures value == old(value).(generic := Some(ApplyCommand(old(value.generic.value), conf)))
    {
      generic.ApplyConfig(conf);
      value := value.(generic := Some(generic.Value()));
      Repr := Repr + generic.Owned();
    }

    method AppendLayered(conf: CommandConf)
      requires Valid() && generic != null
      modifies Repr
      ensures Valid() && fresh(Repr - old(Repr)) && generic == old(generic)
      ensures value == old(value).(list := old(value.list) + [ApplyCommand(old(value.generic.value), conf)])
    {
      var c := generic.DeepCopy();
      c.ApplyConfig(conf);
      Append(c);
    }

    /** Layers a configuration; false stands for the panic on a nil generic. */
    method ApplyConfig(conf: JobConf) returns (ok: bool)
      requires Valid()
      modifies Repr
      ensures ok <==> ApplyCommands(old(value), conf).Some?
      ensures ok ==> Valid() && fresh(Repr - old(Repr)) && Some(value) == ApplyCommands(old(value), conf)
    {
      if generic == null {
        return !NeedsGeneric(conf);
      }
      if conf.commandGeneric.Some? {
        LayerGeneric(conf.commandGeneric.value);
      }
      ghost var start := value;
      var i := 0;
      while i < |conf.commands|
        invariant i <= |conf.commands|
        invariant Valid() && fresh(Repr - old(Repr)) && generic != null
        invariant value == start.(list := start.list + LayerAll(start.generic.value, conf.commands[..i]))
      {
        AppendLayered(conf.commands[i]);
        assert LayerAll(start.generic.value, conf.commands[..i + 1])
            == LayerAll(start.generic.value, conf.commands[..i])
               + [ApplyCommand(start.generic.value, conf.commands[i])];
        i := i + 1;
      }
      assert conf.commands[..i] == conf.commands;
      return true;
    }

    method Validate(compiles: string -> bool) returns (ok: bool)
      requires Valid()
      ensures ok == ValidCommands(value, compiles)
      ensures commands == [] ==> !ok
    {
      ok := |commands| != 0;
      var i := 0;
      while i < |commands|
        invariant i <= |commands|
        invariant ok == (|commands| != 0 && forall j :: 0 <= j < i ==> ValidCommand(value.list[j], compiles))
      {
        var fine := commands[i].Validate(compiles);
        ok := ok && fine;
        i := i + 1;
      }
    }

    /** A separate set with equal commands and no generic. */
    method DeepCopy() returns (c: CommandSet)
      requires Valid()
      ensures c.Valid() && fresh(c.Repr) && c.value == Commands(None, value.list)
    {
      c := new CommandSet.Empty();
      var i := 0;
      while i < |commands|
        invariant i <= |commands|
        invariant c.Valid() && fresh(c.Repr) && c.value == Commands(None, value.list[..i])
      {
        var d := commands[i].DeepCopy();
        c.Append(d);
        i := i + 1;
      }
    }

    /** One placeholder replaced in every command of the list, in place. */
    method ReplaceKey(key: string, text: string)
      requires Valid()
      modifies Repr
      ensures Valid() && Repr == old(Repr)
      ensures value == old(value).(list := ReplaceInCommands(old(value.list), key, text))
    {
      var i := 0;
      ghost var before := value;
      while i < |commands|
        invariant i <= |commands| && Valid() && Repr == old(Repr)
        invariant value.generic == before.generic && |value.list| == |before.list|
        invariant forall j :: 0 <= j < i ==> value.list[j] == ReplaceInCommand(before.list[j], key, text)
        invariant forall j :: i <= j < |before.list| ==> value.list[j] == before.list[j]
      {
        ReplaceAt(i, key, text);
        i := i + 1;
      }
    }

    method ReplaceAt(i: nat, key: string, text: string)
      requires Valid() && i < |commands|
      modifies Repr
      ensures Valid() && Repr == old(Repr) && commands == old(commands)
      ensures value == old(value).(list := old(value.list)[i := ReplaceInCommand(old(value.list[i]), key, text)])
    {
      commands[i].ReplaceKey(key, text);
      value := value.(list := value.list[i := commands[i].Value()]);
    }
  }
}
