/** For one map of template values: when the order in which Go ranges over it matters
    (model/job.go:71-89). */
module TemplateOrders {
  import opened Prelude
  import opened Replacement
  import opened Templates

  /** Some end of the value begins a placeholder, or holds one. */
  predicate Mixes(value: string, mark: string) {
    exists p :: 0 <= p < |value| && MixesAt(value, mark, p)
  }

  predicate MixesAt(value: string, mark: string, p: nat)
    requires p < |value|
  {
    value[p..] <= mark || mark <= value[p..]
  }

  /** No value mixes with the placeholder of another key, but of one that stands for itself. */
  predicate Independent(values: map<string, string>) {
    forall a, b :: a in values && b in values && a != b && values[b] != Placeholder(b) ==>
      !Mixes(values[a], Placeholder(b))
  }

  predicate PlainKeys(values: map<string, string>) {
    forall key :: key in values ==> BraceFree(key)
  }

  /** The condition holds where all values are safe. */
  lemma SafeIsIndependent(values: map<string, string>)
    requires SafeValues(values)
    ensures PlainKeys(values) && Independent(values)
  {
    forall a, b | a in values && b in values ensures !Mixes(values[a], Placeholder(b)) {
      SafeQuiet(values[a], b);
    }
  }

  // ----- Texts a key's placeholder cannot begin in, but as a variable -----

  ghost predicate Quiet(tokens: seq<Token>, key: string) {
    forall i :: 0 <= i < |tokens| ==> QuietToken(tokens[i], key)
  }

  predicate QuietToken(token: Token, key: string) {
    match token
    case Lit(text) => !Mixes(text, Placeholder(key))
    case Var(name) => BraceFree(name)
  }

  lemma SafeQuiet(text: string, key: string)
    requires Safe(text) && BraceFree(key)
    ensures !Mixes(text, Placeholder(key))
  {
    var mark := Placeholder(key);
    forall p | 0 <= p < |text| ensures !MixesAt(text, mark, p) {
      assert !OpensAt(text, p);
      if MixesAt(text, mark, p) {
        var rest := if |mark| <= |text| - p then "" else mark[|text| - p..];
        assert mark <= text[p..] + rest;
        MatchOpens(text, rest, p, key);
        assert false;
      }
    }
  }

  lemma {:induction false} PastQuiet(text: string, rest: string, mark: string, value: string)
    requires mark != "" && !Mixes(text, mark)
    ensures Replace(text + rest, mark, value) == text + Replace(rest, mark, value)
    decreases |text|
  {
    if text == "" {
      assert text + rest == rest;
    } else {
      var tail := text[1..];
      assert text[0..] == text && !MixesAt(text, mark, 0);
      StartsWithin(text, rest, mark);
      assert (text + rest)[1..] == tail + rest;
      forall p | 0 <= p < |tail| ensures !MixesAt(tail, mark, p) {
        assert tail[p..] == text[p + 1..];
        assert !MixesAt(text, mark, p + 1);
      }
      PastQuiet(tail, rest, mark, value);
      assert [text[0]] + (tail + Replace(rest, mark, value)) == text + Replace(rest, mark, value);
    }
  }

  /** What starts the whole is comparable to its first part. */
  lemma StartsWithin(text: string, rest: string, mark: string)
    ensures mark <= text + rest ==> text <= mark || mark <= text
  {
    if mark <= text + rest {
      if |mark| <= |text| {
        assert mark == (text + rest)[..|mark|] == text[..|mark|];
      } else {
        assert text == (text + rest)[..|text|] == mark[..|text|];
      }
    }
  }

  lemma {:induction false} QuietReplace(tokens: seq<Token>, key: string, value: string)
    requires Quiet(tokens, key) && BraceFree(key)
    ensures Replace(Render(tokens), Placeholder(key), value) == Render(Subst(tokens, key, value))
  {
    if tokens != [] {
      var rest := Render(tokens[1..]);
      assert QuietToken(tokens[0], key);
      QuietReplace(tokens[1..], key, value);
      assert Subst(tokens, key, value)[1..] == Subst(tokens[1..], key, value);
      match tokens[0]
      case Lit(text) => PastQuiet(text, rest, Placeholder(key), value);
      case Var(name) => PastVar(name, rest, key, value);
    }
  }

  lemma {:induction false} RenderSame(a: seq<Token>, b: seq<Token>)
    requires |a| == |b| && forall i :: 0 <= i < |a| ==> RenderToken(a[i]) == RenderToken(b[i])
    ensures Render(a) == Render(b)
  {
    if a != [] {
      RenderSame(a[1..], b[1..]);
    }
  }

  // ----- It suffices -----

  lemma {:induction false} IndependentPrefix(tokens: seq<Token>, order: seq<string>, values: map<string, string>)
    requires WellFormed(tokens) && PlainKeys(values) && Independent(values)
    requires forall i, j :: 0 <= i < j < |order| ==> order[i] != order[j]
    requires forall key :: key in order ==> key in values
    ensures ReplaceAll(Render(tokens), order, values) == Render(SubstAll(tokens, Restrict(values, order)))
  {
    if order == [] {
      assert SubstAll(tokens, Restrict(values, order)) == tokens;
    } else {
      var init, key := order[..|order| - 1], order[|order| - 1];
      var filled := SubstAll(tokens, Restrict(values, init));
      IndependentPrefix(tokens, init, values);
      SubstRestrict(tokens, order, values);
      if values[key] == Placeholder(key) {
        ReplaceSelf(Render(filled), Placeholder(key));
        RenderSame(filled, Subst(filled, key, values[key]));
      } else {
        FilledQuiet(tokens, init, key, values);
        QuietReplace(filled, key, values[key]);
      }
    }
  }

  lemma FilledQuiet(tokens: seq<Token>, order: seq<string>, key: string, values: map<string, string>)
    requires WellFormed(tokens) && PlainKeys(values) && Independent(values)
    requires key in values && key !in order && values[key] != Placeholder(key)
    requires forall other :: other in order ==> other in values
    ensures Quiet(SubstAll(tokens, Restrict(values, order)), key)
  {
    var filled := SubstAll(tokens, Restrict(values, order));
    forall i | 0 <= i < |tokens| ensures QuietToken(filled[i], key) {
      assert SafeToken(tokens[i]);
      match tokens[i]
      case Lit(text) => SafeQuiet(text, key);
      case Var(name) =>
    }
  }

  /** Where the condition holds, the loop in any order is one simultaneous substitution. */
  lemma IndependentOrder(tokens: seq<Token>, order: seq<string>, values: map<string, string>)
    requires WellFormed(tokens) && PlainKeys(values) && Independent(values) && IsOrder(order, values.Keys)
    ensures ReplaceAll(Render(tokens), order, values) == Render(SubstAll(tokens, values))
  {
    IndependentPrefix(tokens, order, values);
    assert Restrict(values, order) == values;
  }

  // ----- It is needed -----

  lemma SafeEnd(text: string, n: nat)
    requires Safe(text) && n <= |text|
    ensures Safe(text[n..])
  {
    var end := text[n..];
    forall p | 0 <= p < |end| ensures !OpensAt(end, p) {
      assert !OpensAt(text, n + p);
      if p + 1 < |end| {
        assert end[p + 2..] == text[n + p + 2..];
      }
    }
  }

  /** What is missing of the placeholder after the end of the value is safe. */
  lemma MissingPart(value: string, b: string, p: nat) returns (rest: string)
    requires BraceFree(b) && p < |value| && MixesAt(value, Placeholder(b), p)
    ensures Safe(rest) && Contains(value + rest, Placeholder(b))
  {
    var mark := Placeholder(b);
    if mark <= value[p..] {
      rest := "";
    } else {
      var tail, k := "{" + b + "}}", |value| - p;
      TailOfPlaceholderSafe(b);
      SafeEnd(tail, k - 1);
      rest := tail[k - 1..];
      assert mark[1..] == tail && mark[k..] == rest;
      assert value[p..] + rest == mark;
    }
    assert (value + rest)[p..] == value[p..] + rest;
    assert OccursAt(value + rest, mark, p);
  }

  lemma {:induction false} OthersIdle(tokens: seq<Token>, order: seq<string>, values: map<string, string>)
    requires WellFormed(tokens) && PlainKeys(values) && forall key :: key in order ==> key in values
    requires forall i :: 0 <= i < |tokens| && tokens[i].Var? ==> tokens[i].name !in order
    ensures ReplaceAll(Render(tokens), order, values) == Render(tokens)
  {
    if order != [] {
      var init, key := order[..|order| - 1], order[|order| - 1];
      OthersIdle(tokens, init, values);
      ReplaceIsSubst(tokens, key, values[key]);
      assert Subst(tokens, key, values[key]) == tokens;
    }
  }

  lemma LastReplaced(text: string, order: seq<string>, key: string, values: map<string, string>)
    requires key in values && forall other :: other in order ==> other in values
    ensures ReplaceAll(text, order + [key], values)
              == Replace(ReplaceAll(text, order, values), Placeholder(key), values[key])
  {
    assert (order + [key])[..|order|] == order;
  }

  lemma OrderWith(order: seq<string>, keys: set<string>, key: string)
    requires IsOrder(order, keys) && key !in keys
    ensures IsOrder(order + [key], keys + {key})
  {
    forall i, j | 0 <= i < j < |order| + 1 ensures (order + [key])[i] != (order + [key])[j] {
      assert order[i] in order;
    }
  }

  /** A value that mixes with a placeholder, and what is missing of that. */
  lemma Mixing(values: map<string, string>) returns (a: string, b: string, rest: string)
    requires PlainKeys(values) && !Independent(values)
    ensures a in values && b in values && a != b && values[b] != Placeholder(b)
    ensures Safe(rest) && Contains(values[a] + rest, Placeholder(b))
  {
    a, b :| a in values && b in values && a != b && values[b] != Placeholder(b) && Mixes(values[a], Placeholder(b));
    var p :| 0 <= p < |values[a]| && MixesAt(values[a], Placeholder(b), p);
    rest := MissingPart(values[a], b, p);
  }

  /** Where it fails, a text and two orders that disagree. */
  lemma MixedDisagree(values: map<string, string>) returns (text: string, order1: seq<string>, order2: seq<string>)
    requires PlainKeys(values) && !Independent(values)
    ensures GoodText(text) && IsOrder(order1, values.Keys) && IsOrder(order2, values.Keys)
    ensures ReplaceAll(text, order1, values) != ReplaceAll(text, order2, values)
  {
    var a, b, rest := Mixing(values);
    var others := TwoOrders(values.Keys, a, b);
    text, order1, order2 := Placeholder(a) + rest, others + [a] + [b], others + [b] + [a];
    FilledFirst(values, a, b, rest, others);
    FilledLast(values, a, b, rest, others);
    ReplaceChanges(values[a] + rest, Placeholder(b), values[b]);
    RenderTwo(Var(a), Lit(rest));
    assert WellFormed([Var(a), Lit(rest)]);
  }

  lemma TwoOrders(keys: set<string>, a: string, b: string) returns (others: seq<string>)
    requires a in keys && b in keys && a != b
    ensures IsOrder(others + [a] + [b], keys) && IsOrder(others + [b] + [a], keys) && a !in others && b !in others
  {
    var rest := keys - {a, b};
    others := OrderExists(rest);
    OrderWith(others, rest, a);
    OrderWith(others, rest, b);
    OrderWith(others + [a], rest + {a}, b);
    OrderWith(others + [b], rest + {b}, a);
    assert rest + {a} + {b} == keys == rest + {b} + {a};
  }

  lemma FilledFirst(values: map<string, string>, a: string, b: string, rest: string, others: seq<string>)
    requires PlainKeys(values) && a in values && b in values && a != b && Safe(rest) && a !in others
    requires forall key :: key in others ==> key in values
    ensures ReplaceAll(Placeholder(a) + rest, others + [a] + [b], values)
         == Replace(values[a] + rest, Placeholder(b), values[b])
  {
    RenderTwo(Var(a), Lit(rest));
    OthersIdle([Var(a), Lit(rest)], others, values);
    LastReplaced(Placeholder(a) + rest, others, a, values);
    LastReplaced(Placeholder(a) + rest, others + [a], b, values);
    ReplacesOwn(a, values[a], rest);
  }

  lemma FilledLast(values: map<string, string>, a: string, b: string, rest: string, others: seq<string>)
    requires PlainKeys(values) && a in values && b in values && a != b && Safe(rest) && a !in others
    requires forall key :: key in others ==> key in values
    ensures ReplaceAll(Placeholder(a) + rest, others + [b] + [a], values) == values[a] + rest
  {
    RenderTwo(Var(a), Lit(rest));
    OthersIdle([Var(a), Lit(rest)], others + [b], values);
    LastReplaced(Placeholder(a) + rest, others + [b], a, values);
    ReplacesOwn(a, values[a], rest);
  }

  /** Two orders of the values, and whether they fill every well-formed text alike. */
  ghost predicate Alike(order1: seq<string>, order2: seq<string>, values: map<string, string>)
    requires IsOrder(order1, values.Keys) && IsOrder(order2, values.Keys)
  {
    forall text :: GoodText(text) ==> ReplaceAll(text, order1, values) == ReplaceAll(text, order2, values)
  }

  lemma IndependentAlike(order1: seq<string>, order2: seq<string>, values: map<string, string>)
    requires PlainKeys(values) && Independent(values)
    requires IsOrder(order1, values.Keys) && IsOrder(order2, values.Keys)
    ensures Alike(order1, order2, values)
  {
    forall text | GoodText(text) ensures ReplaceAll(text, order1, values) == ReplaceAll(text, order2, values) {
      var tokens :| WellFormed(tokens) && Render(tokens) == text;
      IndependentOrder(tokens, order1, values);
      IndependentOrder(tokens, order2, values);
    }
  }

  /** The exact condition on a map of values: all orders agree on all well-formed texts if and
      only if no value mixes with the placeholder of another key that does not stand for itself. */
  lemma OrdersAgreeExactly(values: map<string, string>)
    requires PlainKeys(values)
    ensures (forall order1, order2 :: IsOrder(order1, values.Keys) && IsOrder(order2, values.Keys) ==>
               Alike(order1, order2, values))
            <==> Independent(values)
  {
    if Independent(values) {
      forall order1, order2 | IsOrder(order1, values.Keys) && IsOrder(order2, values.Keys)
        ensures Alike(order1, order2, values)
      {
        IndependentAlike(order1, order2, values);
      }
    } else {
      var text, order1, order2 := MixedDisagree(values);
      assert !Alike(order1, order2, values);
    }
  }
}
