/** Template substitution (model/job.go:71-89): one strings.Replace per template value, in
    whatever order Go ranges over the map, against replacing all placeholders at once. */
module Templates {
  import opened Replacement

  /** A text read as literal pieces and placeholders. */
  datatype Token = Lit(text: string) | Var(name: string)

  function Placeholder(key: string): string {
    "{{" + key + "}}"
  }

  function RenderToken(token: Token): string {
    match token
    case Lit(text) => text
    case Var(name) => Placeholder(name)
  }

  function Render(tokens: seq<Token>): string {
    if tokens == [] then "" else RenderToken(tokens[0]) + Render(tokens[1..])
  }

  predicate BraceFree(text: string) {
    '{' !in text && '}' !in text
  }

  /** The text from p on could still become a placeholder, depending on what follows it. */
  predicate OpensAt(text: string, p: nat)
    requires p < |text|
  {
    text[p] == '{' && (p + 1 == |text| || (text[p + 1] == '{' && Unclosed(text[p + 2..])))
  }

  predicate Unclosed(text: string) {
    exists q :: 0 <= q <= |text| && BraceFree(text[..q]) && ClosesFrom(text[q..])
  }

  predicate ClosesFrom(text: string) {
    text <= "}}" || "}}" <= text
  }

  /** No placeholder can begin inside this text, whatever follows it. Single braces and
      regex quantifiers are safe; a text ending in a brace or holding "{{x" is not. */
  predicate Safe(text: string) {
    forall p :: 0 <= p < |text| ==> !OpensAt(text, p)
  }

  predicate SafeToken(token: Token) {
    match token
    case Lit(text) => Safe(text)
    case Var(name) => BraceFree(name)
  }

  ghost predicate WellFormed(tokens: seq<Token>) {
    forall i :: 0 <= i < |tokens| ==> SafeToken(tokens[i])
  }

  ghost predicate GoodText(text: string) {
    exists tokens :: WellFormed(tokens) && Render(tokens) == text
  }

  function SubstToken(token: Token, key: string, value: string): Token {
    if token == Var(key) then Lit(value) else token
  }

  function Subst(tokens: seq<Token>, key: string, value: string): seq<Token> {
    seq(|tokens|, i requires 0 <= i < |tokens| => SubstToken(tokens[i], key, value))
  }

  /** All placeholders that have a value, replaced at once; the others stay. */
  function SubstAll(tokens: seq<Token>, values: map<string, string>): seq<Token> {
    seq(|tokens|, i requires 0 <= i < |tokens| =>
      if tokens[i].Var? && tokens[i].name in values then Lit(values[tokens[i].name]) else tokens[i])
  }

  // ----- Where a placeholder can match -----

  lemma MatchOpens(text: string, rest: string, p: nat, key: string)
    requires p < |text| && BraceFree(key) && Placeholder(key) <= text[p..] + rest
    ensures OpensAt(text, p)
  {
    var mark := Placeholder(key);
    var tail := text[p..] + rest;
    assert tail[0] == mark[0] == '{' && tail[1] == mark[1] == '{';
    if p + 1 < |text| {
      assert text[p + 1] == '{';
      var inner := text[p + 2..];
      var q := if |key| < |inner| then |key| else |inner|;
      assert forall i :: 0 <= i < q ==> inner[i] == tail[i + 2] == mark[i + 2] == key[i];
      assert BraceFree(inner[..q]) by {
        forall c | c in inner[..q] ensures c != '{' && c != '}' {
          var i :| 0 <= i < q && inner[..q][i] == c;
          assert key[i] in key;
        }
      }
      assert forall i :: q <= i < |inner| && i < |key| + 2 ==> inner[i] == tail[i + 2] == mark[i + 2];
      ClosesHere(inner, q, key, mark);
      assert Unclosed(inner);
    }
  }

  lemma ClosesHere(inner: string, q: nat, key: string, mark: string)
    requires mark == Placeholder(key) && q <= |inner| && (q == |key| || (q == |inner| && q < |key|))
    requires forall i :: q <= i < |inner| && i < |key| + 2 ==> inner[i] == mark[i + 2]
    ensures ClosesFrom(inner[q..])
  {
    var after := inner[q..];
    if |after| >= 1 {
      assert after[0] == inner[q] == mark[q + 2] == '}';
    }
    if |after| >= 2 {
      assert after[1] == inner[q + 1] == mark[q + 3] == '}';
    }
  }

  /** Replacing a placeholder walks past safe text. */
  lemma {:induction false} PastSafe(text: string, rest: string, key: string, value: string)
    requires Safe(text) && BraceFree(key)
    ensures Replace(text + rest, Placeholder(key), value) == text + Replace(rest, Placeholder(key), value)
    decreases |text|
  {
    if text == "" {
      assert text + rest == rest;
    } else {
      var tail := text[1..];
      assert text[0..] == text;
      if Placeholder(key) <= text + rest {
        MatchOpens(text, rest, 0, key);
        assert false;
      }
      assert (text + rest)[1..] == tail + rest;
      forall p | 0 <= p < |tail| ensures !OpensAt(tail, p) {
        assert tail[p..] == text[p + 1..];
        assert !OpensAt(text, p + 1);
        if p + 1 < |tail| {
          assert tail[p + 2..] == text[p + 3..];
        }
      }
      PastSafe(tail, rest, key, value);
      assert [text[0]] + (tail + Replace(rest, Placeholder(key), value))
               == text + Replace(rest, Placeholder(key), value);
    }
  }

  // ----- A text of tokens -----

  lemma PlaceholderBound(name: string, key: string, rest: string)
    requires BraceFree(name) && BraceFree(key) && Placeholder(key) <= Placeholder(name) + rest
    ensures |key| <= |name|
  {
    var mark, text := Placeholder(key), Placeholder(name) + rest;
    assert text[|name| + 2] == '}';
    assert forall i {:trigger mark[i]} :: 2 <= i < |key| + 2 ==> mark[i] == key[i - 2] && key[i - 2] in key;
    assert forall i {:trigger mark[i]} :: 0 <= i < |mark| ==> mark[i] == text[i];
  }

  lemma PlaceholdersDiffer(name: string, key: string, rest: string)
    requires BraceFree(name) && BraceFree(key) && Placeholder(key) <= Placeholder(name) + rest
    ensures name == key
  {
    var mark, text := Placeholder(key), Placeholder(name) + rest;
    PlaceholderBound(name, key, rest);
    assert mark[|key| + 2] == '}' == text[|key| + 2];
    assert forall i {:trigger name[i]} :: 0 <= i < |name| ==> text[i + 2] == name[i] && name[i] in name;
    assert forall i {:trigger key[i]} :: 0 <= i < |key| ==> mark[i + 2] == key[i] == text[i + 2];
    assert |name| <= |key|;
  }

  lemma TailOfPlaceholderSafe(name: string)
    requires BraceFree(name)
    ensures Safe("{" + name + "}}")
  {
    var text := "{" + name + "}}";
    assert forall i :: 0 <= i < |name| ==> text[i + 1] == name[i] && name[i] in name;
  }

  /** Replacing a placeholder turns exactly its own placeholders into the value. */
  lemma PastVar(name: string, rest: string, key: string, value: string)
    requires BraceFree(name) && BraceFree(key)
    ensures Replace(Placeholder(name) + rest, Placeholder(key), value)
         == (if name == key then value else Placeholder(name)) + Replace(rest, Placeholder(key), value)
  {
    var text := Placeholder(name) + rest;
    if name == key {
      assert text[|Placeholder(key)|..] == rest;
    } else {
      if Placeholder(key) <= text {
        PlaceholdersDiffer(name, key, rest);
        assert false;
      }
      var tail := "{" + name + "}}";
      assert text[1..] == tail + rest && ['{'] + tail == Placeholder(name);
      TailOfPlaceholderSafe(name);
      PastSafe(tail, rest, key, value);
      assert ['{'] + (tail + Replace(rest, Placeholder(key), value))
               == (['{'] + tail) + Replace(rest, Placeholder(key), value);
    }
  }

  /** One strings.Replace on a well-formed text is the substitution of one variable. */
  lemma {:induction false} ReplaceIsSubst(tokens: seq<Token>, key: string, value: string)
    requires WellFormed(tokens) && BraceFree(key)
    ensures Replace(Render(tokens), Placeholder(key), value) == Render(Subst(tokens, key, value))
  {
    if tokens != [] {
      var rest := Render(tokens[1..]);
      assert SafeToken(tokens[0]);
      ReplaceIsSubst(tokens[1..], key, value);
      assert Subst(tokens, key, value)[1..] == Subst(tokens[1..], key, value);
      match tokens[0]
      case Lit(text) => PastSafe(text, rest, key, value);
      case Var(name) => PastVar(name, rest, key, value);
    }
  }

  // ----- The loop over the template values -----

  /** ApplyTemplateValues on one text, for one order of the keys. */
  function ReplaceAll(text: string, order: seq<string>, values: map<string, string>): string
    requires forall key :: key in order ==> key in values
  {
    if order == [] then text
    else
      var key := order[|order| - 1];
      Replace(ReplaceAll(text, order[..|order| - 1], values), Placeholder(key), values[key])
  }

  ghost predicate SafeValues(values: map<string, string>) {
    forall key :: key in values ==> BraceFree(key) && Safe(values[key])
  }

  function Restrict(values: map<string, string>, order: seq<string>): map<string, string>
    requires forall key :: key in order ==> key in values
  {
    map key | key in values && key in order :: values[key]
  }

  lemma SubstAllSafe(tokens: seq<Token>, values: map<string, string>)
    requires WellFormed(tokens) && SafeValues(values)
    ensures WellFormed(SubstAll(tokens, values))
  {
    forall i | 0 <= i < |tokens| ensures SafeToken(SubstAll(tokens, values)[i]) {
      assert SafeToken(tokens[i]);
    }
  }

  lemma {:induction false} ReplaceAllPrefix(tokens: seq<Token>, order: seq<string>, values: map<string, string>)
    requires WellFormed(tokens) && SafeValues(values)
    requires forall key :: key in order ==> key in values
    ensures ReplaceAll(Render(tokens), order, values) == Render(SubstAll(tokens, Restrict(values, order)))
  {
    if order == [] {
      assert SubstAll(tokens, Restrict(values, order)) == tokens;
    } else {
      var init, key := order[..|order| - 1], order[|order| - 1];
      ReplaceAllPrefix(tokens, init, values);
      SubstAllSafe(tokens, Restrict(values, init));
      ReplaceIsSubst(SubstAll(tokens, Restrict(values, init)), key, values[key]);
      SubstRestrict(tokens, order, values);
    }
  }

  lemma SubstRestrict(tokens: seq<Token>, order: seq<string>, values: map<string, string>)
    requires order != [] && forall key :: key in order ==> key in values
    ensures var init, key := order[..|order| - 1], order[|order| - 1];
            Subst(SubstAll(tokens, Restrict(values, init)), key, values[key])
              == SubstAll(tokens, Restrict(values, order))
  {
    var init, key := order[..|order| - 1], order[|order| - 1];
    assert order == init + [key];
    var before, after := Restrict(values, init), Restrict(values, order);
    forall i | 0 <= i < |tokens|
      ensures Subst(SubstAll(tokens, before), key, values[key])[i] == SubstAll(tokens, after)[i]
    {
      assert tokens[i].Var? ==> (tokens[i].name in after <==> tokens[i].name in before || tokens[i].name == key);
    }
  }

  /** Whatever order Go ranges over the template values, a well-formed text becomes the text
      with all its placeholders replaced at once, and placeholders without a value stay. */
  lemma OrderIndependent(tokens: seq<Token>, order: seq<string>, values: map<string, string>)
    requires WellFormed(tokens) && SafeValues(values)
    requires forall key :: key in order <==> key in values
    ensures ReplaceAll(Render(tokens), order, values) == Render(SubstAll(tokens, values))
  {
    ReplaceAllPrefix(tokens, order, values);
    assert Restrict(values, order) == values;
  }

  /** Substituting in two stages is substituting once with the first stage's values winning. */
  lemma TwoStages(tokens: seq<Token>, first: map<string, string>, second: map<string, string>)
    ensures SubstAll(SubstAll(tokens, first), second) == SubstAll(tokens, second + first)
  {
  }

  /** The same for the two loops over a text, as a device generic and then a device apply
      them, in any two orders; a stage repeated changes nothing. */
  lemma StagesCompose(tokens: seq<Token>, order1: seq<string>, first: map<string, string>, order2: seq<string>,
                      second: map<string, string>)
    requires WellFormed(tokens) && SafeValues(first) && SafeValues(second)
    requires (forall key :: key in order1 <==> key in first) && (forall key :: key in order2 <==> key in second)
    ensures ReplaceAll(ReplaceAll(Render(tokens), order1, first), order2, second)
              == Render(SubstAll(tokens, second + first))
    ensures second == first ==>
              ReplaceAll(ReplaceAll(Render(tokens), order1, first), order2, second)
                == ReplaceAll(Render(tokens), order1, first)
  {
    OrderIndependent(tokens, order1, first);
    SubstAllSafe(tokens, first);
    OrderIndependent(SubstAll(tokens, first), order2, second);
    TwoStages(tokens, first, second);
    if second == first {
      assert second + first == first;
    }
  }

  // ----- Exactly which values keep the order irrelevant -----

  /** In every well-formed text, replacing a with this value and b with any safe value gives
      the same result in both orders. */
  ghost predicate Commutes(value: string) {
    forall tokens, a, b, other ::
      WellFormed(tokens) && BraceFree(a) && BraceFree(b) && a != b && Safe(other) ==>
        SameInBothOrders(Render(tokens), a, value, b, other)
  }

  predicate SameInBothOrders(text: string, a: string, value: string, b: string, other: string) {
    Replace(Replace(text, Placeholder(a), value), Placeholder(b), other)
    == Replace(Replace(text, Placeholder(b), other), Placeholder(a), value)
  }

  lemma SafeCommutes(tokens: seq<Token>, a: string, value: string, b: string, other: string)
    requires WellFormed(tokens) && BraceFree(a) && BraceFree(b) && a != b && Safe(value) && Safe(other)
    ensures SameInBothOrders(Render(tokens), a, value, b, other)
  {
    ReplaceIsSubst(tokens, a, value);
    ReplaceIsSubst(tokens, b, other);
    SubstSafe(tokens, a, value);
    SubstSafe(tokens, b, other);
    ReplaceIsSubst(Subst(tokens, a, value), b, other);
    ReplaceIsSubst(Subst(tokens, b, other), a, value);
    SubstsCommute(tokens, a, value, b, other);
  }

  lemma SubstSafe(tokens: seq<Token>, key: string, value: string)
    requires WellFormed(tokens) && Safe(value)
    ensures WellFormed(Subst(tokens, key, value))
  {
    forall i | 0 <= i < |tokens| ensures SafeToken(Subst(tokens, key, value)[i]) {
      assert SafeToken(tokens[i]);
    }
  }

  lemma SubstsCommute(tokens: seq<Token>, a: string, value: string, b: string, other: string)
    requires a != b
    ensures Subst(Subst(tokens, a, value), b, other) == Subst(Subst(tokens, b, other), a, value)
  {
  }

  /** An unsafe value can be completed to a placeholder by a safe literal after it. */
  lemma Completion(value: string, p: nat) returns (key: string, rest: string)
    requires p < |value| && OpensAt(value, p)
    ensures BraceFree(key) && Safe(rest) && Placeholder(key) <= value[p..] + rest
  {
    if p + 1 == |value| {
      key, rest := "", "{}}";
      TailOfPlaceholderSafe("");
      assert value[p..] + rest == "{{}}";
    } else {
      var inner := value[p + 2..];
      var q :| 0 <= q <= |inner| && BraceFree(inner[..q]) && ClosesFrom(inner[q..]);
      key := inner[..q];
      rest := CloseWith(inner[q..]);
      assert value[p..] == "{{" + key + inner[q..];
      assert value[p..] + rest == "{{" + key + (inner[q..] + rest);
      assert Placeholder(key) + (inner[q..] + rest)[2..] == value[p..] + rest;
    }
  }

  /** What is missing of two closing braces. */
  lemma CloseWith(text: string) returns (rest: string)
    requires ClosesFrom(text)
    ensures Safe(rest) && "}}" <= text + rest
  {
    if "}}" <= text {
      rest := "";
    } else {
      rest := "}}"[|text|..];
      assert text + rest == "}}";
    }
  }

  lemma RenderTwo(first: Token, second: Token)
    ensures Render([first, second]) == RenderToken(first) + RenderToken(second)
  {
    var tokens := [first, second];
    assert tokens[1..] == [second] && [second][1..] == [];
    assert Render([second]) == RenderToken(second) + "";
  }

  lemma UnsafeBreaks(value: string) returns (tokens: seq<Token>, a: string, b: string)
    requires !Safe(value)
    ensures WellFormed(tokens) && BraceFree(a) && BraceFree(b) && a != b
    ensures !SameInBothOrders(Render(tokens), a, value, b, "")
  {
    var p :| 0 <= p < |value| && OpensAt(value, p);
    var rest;
    b, rest := Completion(value, p);
    a := b + "x";
    tokens := [Var(a), Lit(rest)];
    assert forall c :: c in a ==> c in b || c == 'x';
    RenderTwo(Var(a), Lit(rest));
    ValueFirst(value, p, rest, a, b);
    ValueLast(value, rest, a, b);
  }

  /** Its placeholder meets the literal, and the second Replace deletes what they make. */
  lemma ValueFirst(value: string, p: nat, rest: string, a: string, b: string)
    requires BraceFree(a) && BraceFree(b) && Safe(rest) && p < |value| && Placeholder(b) <= value[p..] + rest
    ensures |Replace(Replace(Placeholder(a) + rest, Placeholder(a), value), Placeholder(b), "")| < |value + rest|
  {
    ReplacesOwn(a, value, rest);
    DeletesMade(value, p, rest, Placeholder(b));
  }

  lemma DeletesMade(value: string, p: nat, rest: string, mark: string)
    requires mark != "" && p < |value| && mark <= value[p..] + rest
    ensures |Replace(value + rest, mark, "")| < |value + rest|
  {
    assert (value + rest)[p..] == value[p..] + rest;
    assert OccursAt(value + rest, mark, p);
    DeletingShortens(value + rest, mark);
  }

  lemma ReplacesOwn(key: string, value: string, rest: string)
    requires BraceFree(key) && Safe(rest)
    ensures Replace(Placeholder(key) + rest, Placeholder(key), value) == value + rest
  {
    PastVar(key, rest, key, value);
    SafeKept(rest, key, value);
  }

  /** There is nothing to delete yet. */
  lemma ValueLast(value: string, rest: string, a: string, b: string)
    requires BraceFree(a) && BraceFree(b) && a != b && Safe(rest)
    ensures Replace(Replace(Placeholder(a) + rest, Placeholder(b), ""), Placeholder(a), value) == value + rest
  {
    PastVar(a, rest, b, "");
    SafeKept(rest, b, "");
    ReplacesOwn(a, value, rest);
  }

  lemma SafeKept(text: string, key: string, value: string)
    requires Safe(text) && BraceFree(key)
    ensures Replace(text, Placeholder(key), value) == text
  {
    PastSafe(text, "", key, value);
    assert text + "" == text;
  }

  /** The exact condition: a value keeps the order irrelevant in every well-formed text if and
      only if it is safe. */
  lemma CommutesExactly(value: string)
    ensures Commutes(value) <==> Safe(value)
  {
    if Safe(value) {
      forall tokens, a, b, other |
        WellFormed(tokens) && BraceFree(a) && BraceFree(b) && a != b && Safe(other)
        ensures SameInBothOrders(Render(tokens), a, value, b, other)
      {
        SafeCommutes(tokens, a, value, b, other);
      }
    } else {
      var tokens, a, b := UnsafeBreaks(value);
      assert Safe("");
      assert !SameInBothOrders(Render(tokens), a, value, b, "");
    }
  }
}
