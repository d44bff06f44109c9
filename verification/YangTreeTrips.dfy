/**
 The round trip of whole tables: every item goes to one place, and the table comes back
 unchanged exactly when every item is in ConfigDB's form for its place.
 */
module YangTreeTrips {
  import opened Texts
  import opened YangSchema
  import opened YangValues
  import opened Bindings
  import opened Dicts
  import opened YangEntries
  import opened YangEntryLaws
  import opened YangEntryTrips
  import opened YangEntrySettles
  import opened YangTrees
  import opened YangTreeLaws

  // ----- where an item goes -----

  /** The first list in schema order that accepts the item. */
  function FirstList(env: Env, lists: seq<YList>, x: Item): (r: Option<YList>)
    ensures r.Some? ==> r.value in lists && Accepts(env, r.value, x)
  {
    if lists == [] then None
    else if Accepts(env, lists[0], x) then Some(lists[0])
    else FirstList(env, lists[1..], x)
  }

  function ItemTrip(env: Env, c: Container, x: Item): Result<Option<(string, Config)>> {
    match FirstList(env, ActiveLists(c), x)
    case Some(l) => EntryTrip(env, l, x)
    case None =>
      match FindContainer(c.containers, x.0)
      case Some(child) => ContainerTrip(env, child, x)
      case None => FieldTrip(env, c.leaves, x)
  }

  function ItemTripper(env: Env, c: Container): Trip {
    x => ItemTrip(env, c, x)
  }

  /** The items the lists take, list by list. */
  function Listed(env: Env, lists: seq<YList>, items: seq<Item>): seq<Item> {
    if lists == [] then []
    else Taken(env, lists[0], items) + Listed(env, lists[1..], Passed(env, lists[0], items))
  }

  function Contained(c: Container, n: nat, items: seq<Item>): seq<Item>
    requires n <= |c.containers|
    decreases |c.containers| - n
  {
    if n == |c.containers| then []
    else
      match Get(items, c.containers[n].name)
      case None => Contained(c, n + 1, items)
      case Some(v) => [(c.containers[n].name, v)] + Contained(c, n + 1, Del(items, c.containers[n].name))
  }

  /** The items of a table in the order in which the trip reaches them. */
  function Arranged(env: Env, c: Container, items: seq<Item>): seq<Item> {
    var left := Unlisted(env, ActiveLists(c), items);
    Listed(env, ActiveLists(c), items) + Contained(c, 0, left) + Uncontained(c.containers, left)
  }

  // ----- the arrangement loses and repeats nothing -----

  lemma {:induction false} TakenExact(env: Env, l: YList, items: seq<Item>, x: Item)
    ensures x in Taken(env, l, items) <==> x in items && Accepts(env, l, x)
    ensures x in Passed(env, l, items) <==> x in items && !Accepts(env, l, x)
  {
    hide Accepts;
    if items != [] {
      TakenExact(env, l, items[1..], x);
      assert items == [items[0]] + items[1..];
    }
  }

  lemma {:induction false} SplitDistinct(env: Env, l: YList, items: seq<Item>)
    requires Distinct(items)
    ensures Distinct(Taken(env, l, items)) && Distinct(Passed(env, l, items))
  {
    hide Accepts;
    if items != [] {
      SplitDistinct(env, l, items[1..]);
      forall x | x in Taken(env, l, items[1..]) || x in Passed(env, l, items[1..])
        ensures x.0 != items[0].0
      {
        TakenExact(env, l, items[1..], x);
      }
    }
  }

  lemma DistinctAppend<V>(a: seq<(string, V)>, b: seq<(string, V)>)
    requires Distinct(a) && Distinct(b) && forall x, y :: x in a && y in b ==> x.0 != y.0
    ensures Distinct(a + b)
  {
  }

  lemma {:induction false} ListedExact(env: Env, lists: seq<YList>, items: seq<Item>, x: Item)
    ensures x in Listed(env, lists, items) <==> x in items && FirstList(env, lists, x).Some?
    ensures x in Unlisted(env, lists, items) <==> x in items && FirstList(env, lists, x).None?
    decreases |lists|
  {
    hide Accepts, Taken, Passed;
    if lists != [] {
      TakenExact(env, lists[0], items, x);
      ListedExact(env, lists[1..], Passed(env, lists[0], items), x);
    }
  }

  lemma {:induction false} ListedDistinct(env: Env, lists: seq<YList>, items: seq<Item>)
    requires Distinct(items)
    ensures Distinct(Listed(env, lists, items)) && Distinct(Unlisted(env, lists, items))
    decreases |lists|
  {
    hide Accepts, Taken, Passed, Distinct;
    if lists == [] {
      EmptyDistinct();
    } else {
      var taken, passed := Taken(env, lists[0], items), Passed(env, lists[0], items);
      SplitDistinct(env, lists[0], items);
      ListedDistinct(env, lists[1..], passed);
      forall x, y | x in taken && y in Listed(env, lists[1..], passed)
        ensures x.0 != y.0
      {
        ListedExact(env, lists[1..], passed, y);
        TakenExact(env, lists[0], items, x);
        TakenExact(env, lists[0], items, y);
        if x.0 == y.0 {
          DistinctNames(items, x, y);
        }
      }
      DistinctAppend(taken, Listed(env, lists[1..], passed));
    }
  }

  lemma EmptyDistinct()
    ensures Distinct<Value>([])
  {
  }

  lemma {:induction false} DelExact<V>(items: seq<(string, V)>, name: string, x: (string, V))
    requires Distinct(items)
    ensures x in Del(items, name) <==> x in items && x.0 != name
    ensures Distinct(Del(items, name))
  {
    if items != [] {
      assert items == [items[0]] + items[1..];
      if items[0].0 != name {
        DelExact(items[1..], name, x);
        forall y | y in Del(items[1..], name)
          ensures y.0 != items[0].0
        {
          DelExact(items[1..], name, y);
        }
      }
    }
  }

  /** The names of the containers from the n-th on. */
  predicate NamedFrom(c: Container, n: nat, name: string) {
    exists i :: n <= i < |c.containers| && c.containers[i].name == name
  }

  lemma NamedFromStep(c: Container, n: nat, name: string)
    requires n < |c.containers|
    ensures NamedFrom(c, n, name) <==> c.containers[n].name == name || NamedFrom(c, n + 1, name)
  {
  }

  lemma {:induction false} ContainedExact(c: Container, n: nat, items: seq<Item>, x: Item)
    requires n <= |c.containers| && Distinct(items) && ContainersOk(c)
    ensures x in Contained(c, n, items) <==> x in items && NamedFrom(c, n, x.0)
    ensures x in Uncontained(c.containers[n..], items) <==> x in items && !NamedFrom(c, n, x.0)
    decreases |c.containers| - n
  {
    hide Distinct, FindContainer, NamedFrom, Get, Del;
    if n == |c.containers| {
      NamedNone(c, x.0);
    } else {
      var name := c.containers[n].name;
      NamedFromStep(c, n, x.0);
      assert c.containers[n..][1..] == c.containers[n+1..] && c.containers[n..][0] == c.containers[n];
      match Get(items, name)
      case None =>
        ContainedExact(c, n + 1, items, x);
      case Some(v) =>
        DelExact(items, name, x);
        ContainedExact(c, n + 1, Del(items, name), x);
        if x in items && x.0 == name {
          DistinctNames(items, x, (name, v));
        }
        NamedOnce(c, n);
    }
  }

  lemma NamedNone(c: Container, name: string)
    ensures !NamedFrom(c, |c.containers|, name)
  {
  }

  lemma NamedOnce(c: Container, n: nat)
    requires n < |c.containers| && ContainersOk(c)
    ensures !NamedFrom(c, n + 1, c.containers[n].name)
  {
    hide FindContainer;
  }

  lemma {:induction false} ContainedDistinct(c: Container, n: nat, items: seq<Item>)
    requires n <= |c.containers| && Distinct(items) && ContainersOk(c)
    ensures Distinct(Contained(c, n, items)) && Distinct(Uncontained(c.containers[n..], items))
    decreases |c.containers| - n
  {
    hide Distinct, FindContainer, NamedFrom, Get, Del;
    if n == |c.containers| {
      EmptyDistinct();
    } else {
      var name := c.containers[n].name;
      assert c.containers[n..][1..] == c.containers[n+1..] && c.containers[n..][0] == c.containers[n];
      match Get(items, name)
      case None =>
        ContainedDistinct(c, n + 1, items);
      case Some(v) =>
        var left := Del(items, name);
        DelExact(items, name, (name, v));
        ContainedDistinct(c, n + 1, left);
        forall y | y in Contained(c, n + 1, left)
          ensures y.0 != name
        {
          ContainedExact(c, n + 1, left, y);
          DelExact(items, name, y);
        }
        OneDistinct((name, v));
        DistinctAppend([(name, v)], Contained(c, n + 1, left));
    }
  }

  lemma OneDistinct(x: Item)
    ensures Distinct([x])
  {
  }

  /** Every item of the table is arranged exactly once. */
  lemma ArrangedExact(env: Env, c: Container, items: seq<Item>)
    requires SchemaOk(c) && Distinct(items)
    ensures Distinct(Arranged(env, c, items))
    ensures forall x :: x in Arranged(env, c, items) <==> x in items
  {
    hide SchemaOk, Distinct, Listed, Contained, Unlisted, Uncontained, ActiveLists, FirstList, NamedFrom, ContainersOk;
    var lists := ActiveLists(c);
    var left := Unlisted(env, lists, items);
    var a, b, d := Listed(env, lists, items), Contained(c, 0, left), Uncontained(c.containers, left);
    SchemaKnown(c);
    ListedDistinct(env, lists, items);
    ContainedDistinct(c, 0, left);
    assert c.containers[0..] == c.containers;
    forall x
      ensures x in a <==> x in items && FirstList(env, lists, x).Some?
      ensures x in b <==> x in items && FirstList(env, lists, x).None? && NamedFrom(c, 0, x.0)
      ensures x in d <==> x in items && FirstList(env, lists, x).None? && !NamedFrom(c, 0, x.0)
    {
      ListedExact(env, lists, items, x);
      ContainedExact(c, 0, left, x);
    }
    ApartParts(items, a, b);
    DistinctAppend(a, b);
    ApartParts(items, a + b, d);
    DistinctAppend(a + b, d);
  }

  lemma ApartParts(items: seq<Item>, a: seq<Item>, b: seq<Item>)
    requires Distinct(items) && (forall x :: x in a ==> x in items && x !in b) && (forall x :: x in b ==> x in items)
    ensures forall x, y :: x in a && y in b ==> x.0 != y.0
  {
    hide Distinct;
    forall x, y | x in a && y in b
      ensures x.0 != y.0
    {
      if x.0 == y.0 {
        DistinctNames(items, x, y);
      }
    }
  }

  // ----- the trip of a table, item by item -----

  lemma {:induction false} CollectSame(items: seq<Item>, f: Trip, g: Trip)
    requires forall x :: x in items ==> f(x) == g(x)
    ensures Collect(items, f) == Collect(items, g)
  {
    if items != [] {
      assert items[0] in items;
      CollectSame(items[1..], f, g);
    }
  }

  function ListTripper(env: Env, lists: seq<YList>): Trip {
    (x: Item) =>
      match FirstList(env, lists, x)
      case Some(l) => EntryTrip(env, l, x)
      case None => Ok(None)
  }

  lemma {:induction false} ListsCollect(env: Env, lists: seq<YList>, items: seq<Item>)
    ensures ListsTrip(env, lists, items) == Collect(Listed(env, lists, items), ListTripper(env, lists))
    decreases |lists|
  {
    hide Accepts, Taken, Passed, Collect, EntryTrip;
    if lists == [] {
      CollectNone(ListTripper(env, lists));
    } else {
      var l, rest := lists[0], lists[1..];
      var taken, passed := Taken(env, l, items), Passed(env, l, items);
      ListsCollect(env, rest, passed);
      var trip := ListTripper(env, lists);
      forall x | x in taken
        ensures EntryTripper(env, l)(x) == trip(x)
      {
        TakenExact(env, l, items, x);
      }
      CollectSame(taken, EntryTripper(env, l), trip);
      forall x | x in Listed(env, rest, passed)
        ensures ListTripper(env, rest)(x) == trip(x)
      {
        ListedExact(env, rest, passed, x);
        TakenExact(env, l, items, x);
      }
      CollectSame(Listed(env, rest, passed), ListTripper(env, rest), trip);
      CollectAppend(taken, Listed(env, rest, passed), trip);
    }
  }

  lemma CollectNone(trip: Trip)
    ensures Collect([], trip) == Ok([])
  {
  }

  function ContainersTripper(env: Env, c: Container): Trip {
    (x: Item) =>
      match FindContainer(c.containers, x.0)
      case Some(child) => ContainerTrip(env, child, x)
      case None => Ok(None)
  }

  lemma {:induction false} ContainersCollect(env: Env, c: Container, n: nat, items: seq<Item>)
    requires n <= |c.containers| && ContainersOk(c)
    ensures ContainersTrip(env, c, n, items) == Collect(Contained(c, n, items), ContainersTripper(env, c))
    decreases |c.containers| - n
  {
    hide Collect, ContainerTrip, Get, Del, FindContainer;
    var trip := ContainersTripper(env, c);
    if n == |c.containers| {
      CollectNone(trip);
    } else {
      var child := c.containers[n];
      match Get(items, child.name)
      case None => ContainersCollect(env, c, n + 1, items);
      case Some(v) =>
        ContainersCollect(env, c, n + 1, Del(items, child.name));
        CollectSame([(child.name, v)], ContainerTripper(env, child), trip);
        CollectAppend([(child.name, v)], Contained(c, n + 1, Del(items, child.name)), trip);
    }
  }

  lemma {:induction false} FindContainerExact(c: Container, name: string)
    requires ContainersOk(c)
    ensures NamedFrom(c, 0, name) <==> FindContainer(c.containers, name).Some?
  {
    hide FindContainer;
    if NamedFrom(c, 0, name) {
      var i :| 0 <= i < |c.containers| && c.containers[i].name == name;
    }
  }

  /** The trip of a table is the trip of each item, in the order of the arrangement. */
  lemma TreeTripItems(env: Env, c: Container, items: seq<Item>)
    requires SchemaOk(c) && Distinct(items)
    ensures TreeTrip(env, c, items) == Collect(Arranged(env, c, items), ItemTripper(env, c))
  {
    hide SchemaOk, Distinct, Listed, Contained, Unlisted, Uncontained, ActiveLists, FirstList, NamedFrom, ContainersOk,
      TreeTrip, ListsTrip, ContainersTrip, Collect, EntryTrip, ContainerTrip, FieldTrip, FindContainer;
    var lists := ActiveLists(c);
    var left := Unlisted(env, lists, items);
    var a, b, d := Listed(env, lists, items), Contained(c, 0, left), Uncontained(c.containers, left);
    var trip := ItemTripper(env, c);
    TreeSteps(env, c, items);
    SchemaKnown(c);
    ListedDistinct(env, lists, items);
    ListsCollect(env, lists, items);
    ContainersCollect(env, c, 0, left);
    assert c.containers[0..] == c.containers;
    forall x
      ensures x in a ==> ListTripper(env, lists)(x) == trip(x)
      ensures x in b ==> ContainersTripper(env, c)(x) == trip(x)
      ensures x in d ==> FieldTripper(env, c.leaves)(x) == trip(x)
    {
      ListedExact(env, lists, items, x);
      ContainedExact(c, 0, left, x);
      FindContainerExact(c, x.0);
    }
    CollectSame(a, ListTripper(env, lists), trip);
    CollectSame(b, ContainersTripper(env, c), trip);
    CollectSame(d, FieldTripper(env, c.leaves), trip);
    CollectAppend(a, b, trip);
    CollectAppend(a + b, d, trip);
  }

  // ----- when the table comes back -----

  /** No two items of any dictionary in the value share a name. */
  predicate DeepDistinct(v: Value) {
    v.Obj? ==> Distinct(v.fields) && forall i :: 0 <= i < |v.fields| ==> DeepDistinct(v.fields[i].1)
  }

  /** The item is in ConfigDB's form for the place it goes to. */
  predicate ItemOk(env: Env, c: Container, x: Item)
    requires SchemaOk(c)
    decreases c, 0
  {
    match FirstList(env, ActiveLists(c), x)
    case Some(l) => EntryOk(env, l, x)
    case None =>
      match FindContainer(c.containers, x.0)
      case Some(child) =>
        assert exists i :: 0 <= i < |c.containers| && c.containers[i] == child;
        x.1.Obj? && x.1.fields != [] && WellTyped(env, child, x.1.fields)
      case None => FindLeaf(c.leaves, x.0).Some? && ValueOk(env, FindLeaf(c.leaves, x.0).value, x.1)
  }

  predicate WellTyped(env: Env, c: Container, items: seq<Item>)
    requires SchemaOk(c)
    decreases c, 1
  {
    forall x :: x in items ==> ItemOk(env, c, x)
  }

  /** The rebuilt dictionary is the one translated. */
  predicate Returned(env: Env, c: Container, items: seq<Item>) {
    TreeTrip(env, c, items).Ok? && MapOf(TreeTrip(env, c, items).value) == MapOf(AsBindings(items))
  }

  lemma BindingsSame(a: seq<Item>, b: seq<Item>)
    requires Distinct(a) && Distinct(b) && forall x :: x in a <==> x in b
    ensures MapOf(AsBindings(a)) == MapOf(AsBindings(b))
  {
    hide MapOf, AsConfig;
    BindingsDistinct(a);
    BindingsDistinct(b);
    forall y | y in AsBindings(a)
      ensures y in AsBindings(b)
    {
      var i :| 0 <= i < |a| && AsBindings(a)[i] == y;
      assert a[i] in a && y == AsBinding(a[i]);
    }
    forall y | y in AsBindings(b)
      ensures y in AsBindings(a)
    {
      var i :| 0 <= i < |b| && AsBindings(b)[i] == y;
      assert b[i] in b && y == AsBinding(b[i]);
    }
    MapOfSame(AsBindings(a), AsBindings(b));
  }

  lemma ReturnedIffRebuilds(env: Env, c: Container, items: seq<Item>)
    requires SchemaOk(c) && Distinct(items)
    ensures Returned(env, c, items) <==> Rebuilds(Arranged(env, c, items), ItemTripper(env, c))
  {
    hide SchemaOk, Distinct, Arranged, TreeTrip, Collect, MapOf, AsBindings, ItemTripper;
    ArrangedExact(env, c, items);
    TreeTripItems(env, c, items);
    BindingsSame(Arranged(env, c, items), items);
  }

  // ----- entries: a table that comes back holds only entries in ConfigDB's form -----

  /** Position of the first accepting list. */
  function ListIndex(env: Env, lists: seq<YList>, x: Item): (n: nat)
    ensures n <= |lists|
  {
    if lists == [] || Accepts(env, lists[0], x) then 0 else 1 + ListIndex(env, lists[1..], x)
  }

  lemma {:induction false} ListIndexIs(env: Env, lists: seq<YList>, x: Item)
    ensures ListIndex(env, lists, x) < |lists| <==> FirstList(env, lists, x).Some?
    ensures ListIndex(env, lists, x) < |lists| ==> FirstList(env, lists, x) == Some(lists[ListIndex(env, lists, x)])
  {
    hide Accepts;
    if lists != [] && !Accepts(env, lists[0], x) {
      ListIndexIs(env, lists[1..], x);
    }
  }

  lemma {:induction false} ListIndexFirst(env: Env, lists: seq<YList>, x: Item, k: nat)
    requires k < |lists| && Accepts(env, lists[k], x)
    ensures ListIndex(env, lists, x) <= k
  {
    hide Accepts;
    if k > 0 && !Accepts(env, lists[0], x) {
      ListIndexFirst(env, lists[1..], x, k - 1);
    }
  }

  /** A table whose items rebuild it. */
  predicate Rebuilt(env: Env, c: Container, items: seq<Item>) {
    && SchemaOk(c) && Distinct(items) && Rebuilds(items, ItemTripper(env, c))
    && forall x :: x in items ==> DeepDistinct(x.1)
  }

  lemma ActiveListOk(c: Container, l: YList)
    requires SchemaOk(c) && l in ActiveLists(c)
    ensures ListOk(l)
  {
    hide ListOk;
  }

  lemma FieldsDistinct(v: Value)
    requires DeepDistinct(v)
    ensures DistinctFields(v)
  {
  }

  lemma KeepsName(env: Env, c: Container, x: Item)
    requires FirstList(env, ActiveLists(c), x).None?
    ensures var r := ItemTripper(env, c)(x); r.Ok? && r.value.Some? ==> r.value.value.0 == x.0
  {
    hide ToTree, PrintedTree, TreeBindings, ValueTrip, FirstList, FindLeaf, FindContainer;
  }

  /** A listed item of a rebuilt table is what came back for some listed item. */
  lemma Preimage(env: Env, c: Container, items: seq<Item>, x: Item) returns (y: Item)
    requires Rebuilt(env, c, items) && x in items && FirstList(env, ActiveLists(c), x).Some?
    ensures y in items && FirstList(env, ActiveLists(c), y).Some?
    ensures EntryTrip(env, FirstList(env, ActiveLists(c), y).value, y) == Ok(Some(AsBinding(x)))
  {
    hide SchemaOk, Distinct, Rebuilds, EntryTrip, ContainerTrip, FieldTrip, FirstList, DeepDistinct, ActiveLists, AsConfig;
    RebuiltFrom(items, ItemTripper(env, c), x);
    y :| y in items && ItemTripper(env, c)(y) == Ok(Some(AsBinding(x)));
    if FirstList(env, ActiveLists(c), y).None? {
      KeepsName(env, c, y);
      DistinctNames(items, x, y);
    }
  }

  /** Such an item has no more fields than that one; and if as many, its list does not come later. */
  lemma PreimageSettles(env: Env, c: Container, items: seq<Item>, x: Item, y: Item)
    requires Rebuilt(env, c, items) && x in items && y in items
    requires FirstList(env, ActiveLists(c), y).Some?
    requires EntryTrip(env, FirstList(env, ActiveLists(c), y).value, y) == Ok(Some(AsBinding(x)))
    ensures var l := FirstList(env, ActiveLists(c), y).value;
            && Size(x.1) <= Size(y.1)
            && (Size(x.1) == Size(y.1) ==>
                  && ListIndex(env, ActiveLists(c), x) <= ListIndex(env, ActiveLists(c), y)
                  && EntrySettled(env, l, x.1))
  {
    hide SchemaOk, Distinct, Rebuilds, EntryTrip, FirstList, DeepDistinct, ActiveLists, AsConfig, EntrySettled, ListIndex,
      ListOk, ToEntry;
    var lists := ActiveLists(c);
    var l := FirstList(env, lists, y).value;
    ActiveListOk(c, l);
    FieldsDistinct(x.1);
    FieldsDistinct(y.1);
    EntrySettles(env, l, y, x);
    if Size(x.1) == Size(y.1) {
      ListIndexIs(env, lists, y);
      ListIndexFirst(env, lists, x, ListIndex(env, lists, y));
    }
  }

  lemma FixedSame(env: Env, l: YList, items: seq<Item>, x: Item, y: Item)
    requires ListOk(l) && Distinct(items) && x in items && y in items && DeepDistinct(y.1)
    requires EntryOk(env, l, y) && EntryTrip(env, l, y) == Ok(Some(AsBinding(x)))
    ensures x == y
  {
    hide ListOk, Distinct, DeepDistinct, EntryOk, EntryTrip, AsConfig;
    FieldsDistinct(y.1);
    EntryTripIff(env, l, y);
    DistinctNames(items, x, y);
  }

  lemma TripOk(env: Env, c: Container, items: seq<Item>, x: Item)
    requires Rebuilt(env, c, items) && x in items && FirstList(env, ActiveLists(c), x).Some?
    ensures EntryTrip(env, FirstList(env, ActiveLists(c), x).value, x).Ok?
  {
    hide SchemaOk, Distinct, Collect, EntryTrip, FirstList, DeepDistinct, ActiveLists, MapOf;
    CollectHas(items, ItemTripper(env, c), x);
  }

  /**
   Follow an entry back to what it came from, twice. Either the number of fields or the
   position of the list grows on the way, and then the origin is already known to be in
   ConfigDB's form and so is its own origin; or both stay, and a second trip settles.
   */
  lemma {:induction false} ListedOk(env: Env, c: Container, items: seq<Item>, n: nat, x: Item)
    requires Rebuilt(env, c, items) && x in items && FirstList(env, ActiveLists(c), x).Some?
    requires forall y :: y in items ==> Size(y.1) <= n
    ensures ListOk(FirstList(env, ActiveLists(c), x).value) && EntryOk(env, FirstList(env, ActiveLists(c), x).value, x)
    decreases n - Size(x.1), |ActiveLists(c)| - ListIndex(env, ActiveLists(c), x)
  {
    hide SchemaOk, Rebuilds, EntryTrip, FirstList, DeepDistinct, ActiveLists, AsConfig, EntrySettled, Distinct,
      ListOk, ToEntry, EntryOk, ListIndex;
    var lists := ActiveLists(c);
    var l := FirstList(env, lists, x).value;
    ActiveListOk(c, l);
    ListIndexIs(env, lists, x);
    var y := Preimage(env, c, items, x);
    PreimageSettles(env, c, items, x, y);
    ListIndexIs(env, lists, y);
    var ly := FirstList(env, lists, y).value;
    if Size(x.1) < Size(y.1) || ListIndex(env, lists, x) < ListIndex(env, lists, y) {
      ListedOk(env, c, items, n, y);
      FixedSame(env, ly, items, x, y);
    } else {
      assert ly == l;
      var z := Preimage(env, c, items, y);
      PreimageSettles(env, c, items, y, z);
      ListIndexIs(env, lists, z);
      var lz := FirstList(env, lists, z).value;
      if Size(y.1) < Size(z.1) || ListIndex(env, lists, y) < ListIndex(env, lists, z) {
        ListedOk(env, c, items, n, z);
        FixedSame(env, lz, items, y, z);
        FixedSame(env, l, items, x, y);
      } else {
        assert lz == l;
        TripOk(env, c, items, x);
        FieldsDistinct(x.1);
        FieldsDistinct(y.1);
        EntrySettles(env, l, y, x);
      }
    }
  }

  lemma {:induction false} SizeBound(items: seq<Item>) returns (n: nat)
    ensures forall y :: y in items ==> Size(y.1) <= n
  {
    if items == [] {
      n := 0;
    } else {
      n := SizeBound(items[1..]);
      if n < Size(items[0].1) {
        n := Size(items[0].1);
      }
      assert items == [items[0]] + items[1..];
    }
  }

  // ----- the theorem -----

  lemma ItemDeep(items: seq<Item>, x: Item)
    requires DeepDistinct(Obj(items)) && x in items
    ensures DeepDistinct(x.1)
  {
    var i :| 0 <= i < |items| && items[i] == x;
    assert DeepDistinct(Obj(items).fields[i].1);
  }

  lemma ContainerItemIff(env: Env, child: Container, x: Item)
    requires SchemaOk(child)
    requires x.1.Obj? ==> (Returned(env, child, x.1.fields) <==> WellTyped(env, child, x.1.fields))
    ensures ContainerTrip(env, child, x) == Ok(Some(AsBinding(x))) <==>
            x.1.Obj? && x.1.fields != [] && WellTyped(env, child, x.1.fields)
  {
    hide SchemaOk, ToTree, PrintedTree, TreeBindings, MapOf, AsConfig, WellTyped;
    if x.1.Obj? && x.1.fields != [] {
      assert AsConfig(Obj(x.1.fields)) == CObj(MapOf(AsBindings(x.1.fields)));
      NothingBack(env, child);
      EmptyFields(x.1.fields);
    }
  }

  lemma NothingBack(env: Env, c: Container)
    ensures TreeBindings(env, c, []) == Ok([]) && MapOf<Config>([]) == map[]
  {
    NoLists(env, c.lists);
    AbsentContainers(env, c, 0, []);
    SeqAssoc<(string, Config)>([], [], []);
  }

  lemma {:induction false} NoLists(env: Env, lists: seq<YList>)
    ensures ListBindings(env, lists, []) == Ok([])
  {
    if lists != [] {
      NoLists(env, lists[1..]);
      SeqAssoc<(string, Config)>([], [], []);
    }
  }

  lemma ChildSchema(c: Container, name: string)
    requires SchemaOk(c) && FindContainer(c.containers, name).Some?
    ensures FindContainer(c.containers, name).value < c && SchemaOk(FindContainer(c.containers, name).value)
  {
    hide FindContainer, ListOk;
    var child := FindContainer(c.containers, name).value;
    var i :| 0 <= i < |c.containers| && c.containers[i] == child;
  }

  lemma ItemTripIff(env: Env, c: Container, x: Item)
    requires SchemaOk(c) && DeepDistinct(x.1)
    ensures ItemTripper(env, c)(x) == Ok(Some(AsBinding(x))) <==> ItemOk(env, c, x)
    decreases c, 0
  {
    hide EntryTrip, EntryOk, ContainerTrip, FirstList, FindContainer, ActiveLists, AsConfig, WellTyped, Returned, ValueTrip,
      ValueOk, FindLeaf, ListOk;
    match FirstList(env, ActiveLists(c), x)
    case Some(l) =>
      ActiveListOk(c, l);
      FieldsDistinct(x.1);
      EntryTripIff(env, l, x);
    case None =>
      match FindContainer(c.containers, x.0)
      case Some(child) =>
        ChildSchema(c, x.0);
        if x.1.Obj? {
          ReturnedIff(env, child, x.1.fields);
        }
        ContainerItemIff(env, child, x);
      case None =>
        if FindLeaf(c.leaves, x.0).Some? {
          ValueTripIff(env, FindLeaf(c.leaves, x.0).value, x.1);
        }
  }

  /**
   Translating a table to YANG, through the data tree and back returns the same table
   exactly when the table is well typed.
   */
  lemma ReturnedIff(env: Env, c: Container, items: seq<Item>)
    requires SchemaOk(c) && DeepDistinct(Obj(items))
    ensures Returned(env, c, items) <==> WellTyped(env, c, items)
    decreases c, 1
  {
    hide SchemaOk, Arranged, Returned, ItemOk, Rebuilds, FirstList, ActiveLists, EntryTrip, EntryOk, AsConfig, ItemTripper, ListOk;
    var all := Arranged(env, c, items);
    var trip := ItemTripper(env, c);
    ArrangedExact(env, c, items);
    ReturnedIffRebuilds(env, c, items);
    forall x | x in items
      ensures DeepDistinct(x.1) && (trip(x) == Ok(Some(AsBinding(x))) <==> ItemOk(env, c, x))
    {
      ItemDeep(items, x);
      ItemTripIff(env, c, x);
    }
    if WellTyped(env, c, items) {
      CollectFixed(all, trip);
      FixedRebuilds(all, trip);
    }
    if Rebuilds(all, trip) {
      NamesKept(env, c, all);
      SameNamesIff(all, trip);
    }
  }

  lemma FixedRebuilds(items: seq<Item>, trip: Trip)
    requires Collect(items, trip) == Ok(AsBindings(items))
    ensures Rebuilds(items, trip)
  {
  }

  lemma NamesKept(env: Env, c: Container, items: seq<Item>)
    requires Rebuilt(env, c, items)
    ensures var trip := ItemTripper(env, c);
            forall x :: x in items && trip(x).Ok? && trip(x).value.Some? ==> trip(x).value.value.0 == x.0
  {
    hide SchemaOk, EntryTrip, ContainerTrip, FieldTrip, FirstList, ActiveLists, EntryOk, AsConfig, ListOk, Rebuilds, DeepDistinct;
    var trip := ItemTripper(env, c);
    var n := SizeBound(items);
    forall x | x in items && trip(x).Ok? && trip(x).value.Some?
      ensures trip(x).value.value.0 == x.0
    {
      match FirstList(env, ActiveLists(c), x)
      case Some(l) =>
        ListedOk(env, c, items, n, x);
        FieldsDistinct(x.1);
        EntryTripIff(env, l, x);
      case None => KeepsName(env, c, x);
    }
  }
}
