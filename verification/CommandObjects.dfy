/** Commands and command sets as the objects the source updates in place
    (model/command_set.go). A Go slice is an array; append makes a new one. */
module CommandObjects {
  import opened Prelude
  import opened Replacement
  import opened JobConfig
  import opened JobTemplates
  import opened Templates

  method AppendText(texts: array<string>, text: string) returns (longer: array<string>)
    ensures fresh(longer) && longer[..] == texts[..] + [text]
  {
    longer := new string[texts.Length + 1](i requires 0 <= i <= texts.Length reads texts =>
      if i < texts.Length then texts[i] else text);
  }

  /** Each configured pattern is sanitized and appended, in order. */
  method AppendSanitized(texts: array<string>, regexes: seq<string>) returns (longer: array<string>)
    ensures longer == texts || fresh(longer)
    ensures longer[..] == texts[..] + SanitizeAll(regexes)
  {
    longer := texts;
    var i := 0;
    while i < |regexes|
      invariant i <= |regexes| && (longer == texts || fresh(longer))
      invariant texts[..] == old(texts[..]) && longer[..] == texts[..] + SanitizeAll(regexes[..i])
    {
      longer := AppendText(longer, SanitizeRegex(regexes[i]));
      assert SanitizeAll(regexes[..i + 1]) == SanitizeAll(regexes[..i]) + [SanitizeRegex(regexes[i])];
      i := i + 1;
    }
    assert regexes[..i] == regexes;
  }

  method CopyTexts(texts: array<string>) returns (copy: array<string>)
    ensures fresh(copy) && copy[..] == texts[..]
  {
    copy := new string[texts.Length](i requires 0 <= i < texts.Length reads texts => texts[i]);
  }

  /** Replacing one placeholder in every element, in place. */
  method ReplaceEach(texts: array<string>, key: string, value: string)
    modifies texts
    ensures texts[..] == ReplaceTexts(old(texts[..]), key, value)
  {
    var i := 0;
    while i < texts.Length
      invariant i <= texts.Length
      invariant forall j :: 0 <= j < i ==> texts[j] == Replace(old(texts[j]), Placeholder(key), value)
      invariant forall j :: i <= j < texts.Length ==> texts[j] == old(texts[j])
    {
      texts[i] := Replace(texts[i], Placeholder(key), value);
      i := i + 1;
    }
  }

  method CheckPatterns(texts: array<string>, compiles: string -> bool) returns (ok: bool)
    ensures ok == AllCompile(texts[..], compiles)
  {
    var i := 0;
    while i < texts.Length
      invariant i <= texts.Length && AllCompile(texts[..i], compiles)
    {
      if !Compiles(texts[i], compiles) {
        assert texts[..][i] == texts[i];
        return false;
      }
      i := i + 1;
    }
    return true;
  }

  class CommandSetCommand {
    var command: string
    var expected: array<string>
    var unexpected: array<string>
    var timeout: int
    var implicitEnter: bool

    ghost function Owned(): set<object>
      reads this
    {
      {this, expected, unexpected}
    }

    ghost predicate Valid()
      reads this
    {
      expected != unexpected
    }

    function Value(): Command
      reads this, expected, unexpected
    {
      Command(command, expected[..], unexpected[..], timeout, implicitEnter)
    }

    constructor Default()
      ensures Valid() && fresh(expected) && fresh(unexpected) && Value() == DEFAULT_COMMAND
      ensures command == "" && expected.Length == unexpected.Length == 0 && timeout == 120 && implicitEnter
    {
      command, timeout, implicitEnter := "", 120, true;
      expected := new string[0];
      unexpected := new string[0];
    }

    constructor Copy(c: CommandSetCommand, expected: array<string>, unexpected: array<string>)
      requires expected != unexpected
      ensures Valid() && this.expected == expected && this.unexpected == unexpected
      ensures command == c.command && timeout == c.timeout && implicitEnter == c.implicitEnter
    {
      command, timeout, implicitEnter := c.command, c.timeout, c.implicitEnter;
      this.expected, this.unexpected := expected, unexpected;
    }

    method ApplyConfig(conf: CommandConf)
      requires Valid()
      modifies this
      ensures Valid() && Value() == ApplyCommand(old(Value()), conf)
      ensures expected[..] == old(expected[..]) + SanitizeAll(conf.expected)
      ensures unexpected[..] == old(unexpected[..]) + SanitizeAll(conf.unexpected)
      ensures command == if conf.command == "" then old(command) else conf.command
      ensures timeout == if conf.timeout.None? then old(timeout) else conf.timeout.value
      ensures implicitEnter == if conf.implicitEnter.None? then old(implicitEnter) else conf.implicitEnter.value
      ensures expected == old(expected) || fresh(expected)
      ensures unexpected == old(unexpected) || fresh(unexpected)
    {
      if conf.command != "" {
        command := conf.command;
      }
      expected := AppendSanitized(expected, conf.expected);
      unexpected := AppendSanitized(unexpected, conf.unexpected);
      if conf.timeout.Some? {
        timeout := conf.timeout.value;
      }
      if conf.implicitEnter.Some? {
        implicitEnter := conf.implicitEnter.value;
      }
    }

    /** An equal command that shares neither itself nor its arrays with this one. */
    method DeepCopy() returns (c: CommandSetCommand)
      requires Valid()
      ensures c.Valid() && fresh(c.Owned()) && c.Value() == Value()
      ensures c.command == command && c.expected[..] == expected[..] && c.unexpected[..] == unexpected[..]
      ensures c.timeout == timeout && c.implicitEnter == implicitEnter
    {
      var e := CopyTexts(expected);
      var u := CopyTexts(unexpected);
      c := new CommandSetCommand.Copy(this, e, u);
    }

    method Validate(compiles: string -> bool) returns (ok: bool)
      ensures ok == ValidCommand(Value(), compiles)
      ensures ok <==> && command != ""
                      && (forall i :: 0 <= i < expected.Length ==> Contains(expected[i], "{{") || compiles(expected[i]))
                      && (forall i :: 0 <= i < unexpected.Length ==>
                            Contains(unexpected[i], "{{") || compiles(unexpected[i]))
                      && (timeout == 0 ==> expected.Length == 0 && unexpected.Length == 0)
    {
      ok := command != "";
      var fine := CheckPatterns(expected, compiles);
      ok := ok && fine;
      fine := CheckPatterns(unexpected, compiles);
      ok := ok && fine && !(timeout == 0 && (expected.Length != 0 || unexpected.Length != 0));
    }

    method ReplaceKey(key: string, value: string)
      requires Valid()
      modifies Owned()
      ensures Valid() && Owned() == old(Owned())
      ensures Value() == ReplaceInCommand(old(Value()), key, value)
      ensures command == Replace(old(command), "{{" + key + "}}", value)
      ensures forall i :: 0 <= i < expected.Length ==>
              expected[i] == Replace(old(expected[i]), "{{" + key + "}}", value)
      ensures forall i :: 0 <= i < unexpected.Length ==>
                unexpected[i] == Replace(old(unexpected[i]), "{{" + key + "}}", value)
      ensures timeout == old(timeout) && implicitEnter == old(implicitEnter)
    {
      command := Replace(command, Placeholder(key), value);
      ReplaceEach(expected, key, value);
      ReplaceEach(unexpected, key, value);
    }
  }
}
