/** Dictionaries: as sequences of items while they are read, as maps when the order no longer matters. */
module Dicts {
  import opened Texts

  predicate Distinct<V>(items: seq<(string, V)>) {
    forall i, j :: 0 <= i < j < |items| ==> items[i].0 != items[j].0
  }

  function Get<V>(items: seq<(string, V)>, name: string): (r: Option<V>)
    ensures r.None? <==> forall x :: x in items ==> x.0 != name
    ensures r.Some? ==> (name, r.value) in items
  {
    if items == [] then None
    else if items[0].0 == name then Some(items[0].1)
    else Get(items[1..], name)
  }

  /** Assignment to a key: in place when the key is there, else at the end. */
  function Put<V>(items: seq<(string, V)>, name: string, v: V): seq<(string, V)> {
    if items == [] then [(name, v)]
    else if items[0].0 == name then [(name, v)] + items[1..]
    else [items[0]] + Put(items[1..], name, v)
  }

  lemma {:induction false} PutNew<V>(items: seq<(string, V)>, name: string, v: V)
    requires forall x :: x in items ==> x.0 != name
    ensures Put(items, name, v) == items + [(name, v)]
  {
    if items != [] {
      assert items[0] in items;
      PutNew(items[1..], name, v);
      assert items == [items[0]] + items[1..];
    }
  }

  /** Assignment changes what is found under its own name only. */
  lemma {:induction false} PutGet<V>(items: seq<(string, V)>, name: string, v: V, other: string)
    ensures Get(Put(items, name, v), other) == if other == name then Some(v) else Get(items, other)
  {
    if items != [] && items[0].0 != name {
      PutGet(items[1..], name, v, other);
      var put := Put(items, name, v);
      assert put[0] == items[0] && put[1..] == Put(items[1..], name, v);
    } else if items != [] {
      var put := Put(items, name, v);
      assert put[0] == (name, v) && put[1..] == items[1..];
    }
  }

  lemma {:induction false} GetAt<V>(items: seq<(string, V)>, i: nat)
    requires Distinct(items) && i < |items|
    ensures Get(items, items[i].0) == Some(items[i].1)
  {
    if i > 0 {
      GetAt(items[1..], i - 1);
    }
  }

  lemma {:induction false} GetFirst<V>(a: seq<(string, V)>, b: seq<(string, V)>, name: string)
    ensures Get(a + b, name) == if Get(a, name).Some? then Get(a, name) else Get(b, name)
  {
    if a == [] {
      assert a + b == b;
    } else {
      GetFirst(a[1..], b, name);
      assert (a + b)[1..] == a[1..] + b;
    }
  }

  // ----- rebuilt dictionaries -----

  /** The dictionary rebuilt from bindings; the last binding of a name wins. */
  function MapOf<V>(bindings: seq<(string, V)>): map<string, V> {
    if bindings == [] then map[] else map[bindings[0].0 := bindings[0].1] + MapOf(bindings[1..])
  }

  lemma {:induction false} MapOfAppend<V>(a: seq<(string, V)>, b: seq<(string, V)>)
    ensures MapOf(a + b) == MapOf(a) + MapOf(b)
  {
    if a == [] {
      assert a + b == b;
      assert MapOf(a) + MapOf(b) == MapOf(b);
    } else {
      MapOfAppend(a[1..], b);
      assert (a + b)[1..] == a[1..] + b;
      OverrideAssoc(map[a[0].0 := a[0].1], MapOf(a[1..]), MapOf(b));
    }
  }

  lemma OverrideAssoc<V>(x: map<string, V>, y: map<string, V>, z: map<string, V>)
    ensures x + (y + z) == (x + y) + z
  {
  }

  /** Every entry of a rebuilt dictionary was put there by a binding. */
  lemma {:induction false} MapOfFrom<V>(bs: seq<(string, V)>, name: string)
    requires name in MapOf(bs)
    ensures (name, MapOf(bs)[name]) in bs
  {
    if name in MapOf(bs[1..]) {
      MapOfFrom(bs[1..], name);
    }
  }

  lemma {:induction false} MapOfHas<V>(bs: seq<(string, V)>, b: (string, V))
    requires b in bs
    ensures b.0 in MapOf(bs)
    ensures Distinct(bs) ==> MapOf(bs)[b.0] == b.1
  {
    if bs[0] != b {
      MapOfHas(bs[1..], b);
    } else if Distinct(bs) && b.0 in MapOf(bs[1..]) {
      MapOfFrom(bs[1..], b.0);
      assert false;
    }
  }

  /** The order of distinct items does not matter. */
  lemma MapOfSame<V>(a: seq<(string, V)>, b: seq<(string, V)>)
    requires Distinct(a) && Distinct(b) && forall x :: x in a <==> x in b
    ensures MapOf(a) == MapOf(b)
  {
    hide MapOf;
    forall name | name in MapOf(a)
      ensures name in MapOf(b) && MapOf(b)[name] == MapOf(a)[name]
    {
      MapOfFrom(a, name);
      MapOfHas(b, (name, MapOf(a)[name]));
    }
    forall name | name in MapOf(b)
      ensures name in MapOf(a)
    {
      MapOfFrom(b, name);
      MapOfHas(a, (name, MapOf(b)[name]));
    }
  }

  lemma DistinctNames<V>(items: seq<(string, V)>, x: (string, V), y: (string, V))
    requires Distinct(items) && x in items && y in items && x.0 == y.0
    ensures x == y
  {
  }
}
