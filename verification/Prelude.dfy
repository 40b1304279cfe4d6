/** Containers used throughout the model, and the orders in which Go may range over a map. */
module Prelude {
  datatype Option<+T> = None | Some(value: T)

  datatype Result<+T, +E> = Ok(value: T) | Err(error: E)

  /** A listing of the keys of a map, each once: one order in which Go may range over it. */
  ghost predicate IsOrder(order: seq<string>, keys: set<string>) {
    && (forall i, j :: 0 <= i < j < |order| ==> order[i] != order[j])
    && (forall key :: key in order <==> key in keys)
  }

  lemma OrderSnoc(order: seq<string>, keys: set<string>, left: set<string>, key: string)
    requires IsOrder(order, keys - left) && key in left && left <= keys
    ensures IsOrder(order + [key], keys - (left - {key}))
    ensures (order + [key])[..|order|] == order
  {
    forall i, j | 0 <= i < j < |order| + 1 ensures (order + [key])[i] != (order + [key])[j] {
      assert order[i] in order;
    }
  }

  lemma OrderExists(keys: set<string>) returns (order: seq<string>)
    ensures IsOrder(order, keys)
  {
    if keys == {} {
      order := [];
    } else {
      var key :| key in keys;
      var rest := OrderExists(keys - {key});
      order := rest + [key];
      forall i, j | 0 <= i < j < |order| ensures order[i] != order[j] {
        assert rest[i] in rest;
      }
    }
  }

  lemma Assoc<T>(a: seq<T>, b: seq<T>, c: seq<T>)
    ensures (a + b) + c == a + (b + c)
  {
  }
}
