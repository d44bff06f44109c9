/** Rebuilding a dictionary item by item. */
module Bindings {
  import opened Texts
  import opened Dicts
  import opened YangValues

  type Item = (string, Value)
  type Trip = Item -> Result<Option<(string, Config)>>

  function AsBinding(x: Item): (string, Config) {
    (x.0, AsConfig(x.1))
  }

  /** All bindings the items give, in order; an error in one is an error of the whole. */
  function Collect(items: seq<Item>, trip: Trip): Result<seq<(string, Config)>> {
    if items == [] then Ok([])
    else
      var first :- trip(items[0]);
      var rest :- Collect(items[1..], trip);
      Ok(if first.Some? then [first.value] + rest else rest)
  }

  lemma {:induction false} CollectFrom(items: seq<Item>, trip: Trip, b: (string, Config))
    requires Collect(items, trip).Ok? && b in Collect(items, trip).value
    ensures exists x :: x in items && trip(x) == Ok(Some(b))
  {
    var first := trip(items[0]).value;
    if first == Some(b) {
      assert items[0] in items;
    } else {
      CollectFrom(items[1..], trip, b);
      var x :| x in items[1..] && trip(x) == Ok(Some(b));
      assert x in items;
    }
  }

  lemma {:induction false} CollectHas(items: seq<Item>, trip: Trip, x: Item)
    requires Collect(items, trip).Ok? && x in items
    ensures trip(x).Ok? && (trip(x).value.Some? ==> trip(x).value.value in Collect(items, trip).value)
  {
    if items[0] != x {
      CollectHas(items[1..], trip, x);
    }
  }

  lemma {:induction false} CollectFixed(items: seq<Item>, trip: Trip)
    requires forall x :: x in items ==> trip(x) == Ok(Some(AsBinding(x)))
    ensures Collect(items, trip) == Ok(AsBindings(items))
  {
    if items != [] {
      assert items[0] in items;
      CollectFixed(items[1..], trip);
      assert AsBindings(items) == [AsBinding(items[0])] + AsBindings(items[1..]);
    }
  }

  lemma {:induction false} CollectAppend(a: seq<Item>, b: seq<Item>, trip: Trip)
    ensures Collect(a + b, trip) ==
            match Collect(a, trip)
            case Err => Err
            case Ok(p) =>
              match Collect(b, trip)
              case Err => Err
              case Ok(q) => Ok(p + q)
  {
    if a == [] {
      assert a + b == b;
      if Collect(b, trip).Ok? {
        SeqAssoc(Collect(b, trip).value, [], []);
      }
    } else {
      CollectAppend(a[1..], b, trip);
      assert (a + b)[1..] == a[1..] + b;
      if trip(a[0]).Ok? && trip(a[0]).value.Some? && Collect(a[1..], trip).Ok? && Collect(b, trip).Ok? {
        SeqAssoc([trip(a[0]).value.value], Collect(a[1..], trip).value, Collect(b, trip).value);
      }
    }
  }

  predicate Rebuilds(items: seq<Item>, trip: Trip) {
    Collect(items, trip).Ok? && MapOf(Collect(items, trip).value) == MapOf(AsBindings(items))
  }

  lemma BindingsDistinct(items: seq<Item>)
    requires Distinct(items)
    ensures Distinct(AsBindings(items))
    ensures forall x :: x in items ==> AsBinding(x) in AsBindings(items)
  {
    hide AsConfig;
    forall x | x in items
      ensures AsBinding(x) in AsBindings(items)
    {
      var i :| 0 <= i < |items| && items[i] == x;
      assert AsBindings(items)[i] == AsBinding(x);
    }
  }

  /** If the whole dictionary is rebuilt, every one of its items is the image of some item. */
  lemma RebuiltFrom(items: seq<Item>, trip: Trip, x: Item)
    requires Distinct(items) && Rebuilds(items, trip) && x in items
    ensures exists y :: y in items && trip(y) == Ok(Some(AsBinding(x)))
  {
    hide MapOf, Collect, AsConfig;
    BindingsDistinct(items);
    MapOfHas(AsBindings(items), AsBinding(x));
    var bs := Collect(items, trip).value;
    MapOfFrom(bs, x.0);
    CollectFrom(items, trip, AsBinding(x));
  }

  /** Items that keep their names rebuild the dictionary exactly when each rebuilds itself. */
  lemma SameNamesIff(items: seq<Item>, trip: Trip)
    requires Distinct(items)
    requires forall x :: x in items && trip(x).Ok? && trip(x).value.Some? ==> trip(x).value.value.0 == x.0
    ensures Rebuilds(items, trip) <==> forall x :: x in items ==> trip(x) == Ok(Some(AsBinding(x)))
  {
    hide MapOf, Collect, AsConfig;
    if forall x :: x in items ==> trip(x) == Ok(Some(AsBinding(x))) {
      CollectFixed(items, trip);
    }
    if Rebuilds(items, trip) {
      forall x | x in items
        ensures trip(x) == Ok(Some(AsBinding(x)))
      {
        RebuiltFrom(items, trip, x);
        var y :| y in items && trip(y) == Ok(Some(AsBinding(x)));
        DistinctNames(items, x, y);
      }
    }
  }
}
