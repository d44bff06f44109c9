/**
 What comes back from a list: an entry with no more fields than it had, which the list
 accepts again, and which is in ConfigDB's form unless the data tree refuses it.
 */
module YangEntrySettles {
  import opened Texts
  import opened YangSchema
  import opened YangValues
  import opened Bindings
  import opened Dicts
  import opened YangEntries
  import opened YangKeyLaws
  import opened YangEntryLaws
  import opened YangEntryTrips

  function Size(v: Value): nat {
    if v.Obj? then |v.fields| else 0
  }

  function NameSet<V>(items: seq<(string, V)>): set<string> {
    set i | 0 <= i < |items| :: items[i].0
  }

  lemma {:induction false} NameCount<V>(items: seq<(string, V)>)
    requires Distinct(items)
    ensures |NameSet(items)| == |items|
  {
    if items == [] {
      assert NameSet(items) == {};
    } else {
      NameCount(items[1..]);
      assert NameSet(items) == {items[0].0} + NameSet(items[1..]) by {
        assert forall i :: 0 <= i < |items[1..]| ==> items[1..][i] == items[i + 1];
        assert forall i :: 1 <= i < |items| ==> items[i] == items[1..][i - 1];
      }
      assert items[0].0 !in NameSet(items[1..]);
    }
  }

  lemma SubsetSize<T>(a: set<T>, b: set<T>)
    requires a <= b
    ensures |a| <= |b| && (|a| == |b| ==> a == b)
  {
    assert b == a + (b - a);
  }

  // ----- ordinary entries -----

  lemma {:induction false} PutNames<V>(items: seq<(string, V)>, name: string, v: V)
    ensures NameSet(Put(items, name, v)) <= NameSet(items) + {name}
  {
    if items != [] {
      PutNames(items[1..], name, v);
      var rest := Put(items[1..], name, v);
      forall n | n in NameSet(Put(items, name, v))
        ensures n in NameSet(items) + {name}
      {
        var i :| 0 <= i < |Put(items, name, v)| && Put(items, name, v)[i].0 == n;
        if items[0].0 != name && i > 0 {
          assert rest[i - 1].0 == n;
          assert n in NameSet(items[1..]) + {name};
          if n != name {
            var j :| 0 <= j < |items[1..]| && items[1..][j].0 == n;
            assert items[j + 1].0 == n;
          }
        }
      }
    }
  }

  lemma NameSetRest<V>(items: seq<(string, V)>)
    requires items != []
    ensures NameSet(items) == {items[0].0} + NameSet(items[1..])
  {
    assert forall i :: 0 <= i < |items[1..]| ==> items[1..][i] == items[i + 1];
    assert forall i :: 1 <= i < |items| ==> items[i] == items[1..][i - 1];
  }

  lemma {:induction false} AddNames(env: Env, leaves: seq<Leaf>, entry: Fields, fields: seq<Item>)
    requires AddFields(env, leaves, entry, fields).Ok?
    ensures NameSet(AddFields(env, leaves, entry, fields).value) <= NameSet(entry) + NameSet(fields)
    decreases |fields|
  {
    hide ToData, FindLeaf, Put, NameSet;
    if fields != [] {
      NameSetRest(fields);
      var grown := AddField(env, leaves, entry, fields[0]).value;
      PutNames(entry, fields[0].0, ToData(env, FindLeaf(leaves, fields[0].0).value, fields[0].1).value);
      AddNames(env, leaves, grown, fields[1..]);
    }
  }

  lemma {:induction false} PrintedNames(l: YList, fields: Fields)
    requires PrintedEntry(l, fields).Ok?
    ensures NameSet(PrintedEntry(l, fields).value) <= NameSet(fields)
  {
    hide PrintedItem, NameSet;
    if fields == [] {
    } else {
      NameSetRest(fields);
      PrintedNames(l, fields[1..]);
      var d := PrintedItem(l, fields[0]).value;
      if d.Some? {
        var rest := PrintedEntry(l, fields[1..]).value;
        var r := [(fields[0].0, d.value)] + rest;
        NameSetRest(r);
        assert r[1..] == rest;
      }
    }
  }

  lemma NameIn<V>(items: seq<(string, V)>, x: (string, V))
    requires x in items
    ensures x.0 in NameSet(items)
  {
    var i :| 0 <= i < |items| && items[i] == x;
  }

  /** The names that come back are names of fields that went in, without the keys. */
  lemma OutputNames(env: Env, l: YList, x: Item, y: Item, fields: seq<Item>)
    requires KeysOk(l) && !IsType1(l) && EntryTrip(env, l, x) == Ok(Some(AsBinding(y)))
    requires FieldsOf(x.1) == Ok(fields) && y.1.Obj?
    ensures forall g :: g in y.1.fields ==> g.0 !in l.keys && g.0 in NameSet(fields)
  {
    hide AddFields, PrintedEntry, ReadFields, MapOf, Returns, NameSet, KeysOk, AsConfig, FieldsOf, KeyItems, StripAll, SplitOn;
    var parts := SplitOn(x.0, '|');
    var key := KeyItems(l.keys, StripAll(parts));
    var e := ToEntry(env, l, x).value;
    var p := PrintedEntry(l, e).value;
    AddNames(env, l.leaves, key, fields);
    PrintedNames(l, e);
    ReadNames(env, l, p);
    NoKeyNames(env, l, x, AsBinding(y));
    assert AsConfig(Obj(y.1.fields)) == CObj(MapOf(AsBindings(y.1.fields)));
    var bs := ReadFields(env, l, p).value;
    forall g | g in y.1.fields
      ensures g.0 !in l.keys && g.0 in NameSet(fields)
    {
      FieldNameKept(y.1.fields, g);
      MapOfFrom(bs, g.0);
      var f :| f in p && f.0 == g.0;
      NameIn(p, f);
      KeySetNames(l.keys, StripAll(parts));
    }
  }

  lemma KeySetNames(keys: seq<string>, parts: seq<string>)
    requires |keys| == |parts|
    ensures forall n :: n in NameSet(KeyItems(keys, parts)) ==> n in keys
  {
    hide KeyItems;
    KeyItemNames(keys, parts);
    forall n | n in NameSet(KeyItems(keys, parts))
      ensures n in keys
    {
      var i :| 0 <= i < |keys| && KeyItems(keys, parts)[i].0 == n;
      assert KeyItems(keys, parts)[i] in KeyItems(keys, parts);
    }
  }

  predicate EntrySettled(env: Env, l: YList, v: Value) {
    !IsType1(l) && v.Obj? ==>
      forall f :: f in v.fields && FindLeaf(l.leaves, f.0).Some? ==> Settled(env, FindLeaf(l.leaves, f.0).value, f.1)
  }

  /** An entry that lost no field had none named like a key. */
  lemma SizesPlain(env: Env, l: YList, x: Item, y: Item, fields: seq<Item>)
    requires KeysOk(l) && !IsType1(l) && EntryTrip(env, l, x) == Ok(Some(AsBinding(y)))
    requires FieldsOf(x.1) == Ok(fields) && Distinct(fields) && y.1.Obj? && Distinct(y.1.fields)
    ensures |y.1.fields| <= |fields|
    ensures |y.1.fields| == |fields| ==> forall f :: f in fields ==> f.0 !in l.keys
  {
    hide EntryTrip, KeysOk, FieldsOf, AsConfig;
    var ys := y.1.fields;
    OutputNames(env, l, x, y, fields);
    forall n | n in NameSet(ys)
      ensures n in NameSet(fields) && n !in l.keys
    {
      var i :| 0 <= i < |ys| && ys[i].0 == n;
      assert ys[i] in ys;
    }
    NameCount(ys);
    NameCount(fields);
    SubsetSize(NameSet(ys), NameSet(fields));
    forall f | f in fields && |ys| == |fields|
      ensures f.0 !in l.keys
    {
      NameIn(fields, f);
    }
  }

  /** Each field that came back is the trip of the field of that name. */
  lemma FieldBack(env: Env, leaves: seq<Leaf>, fields: seq<Item>, ys: seq<Item>, g: Item) returns (f: Item)
    requires Collect(fields, FieldTripper(env, leaves)).Ok? && Distinct(ys) && g in ys
    requires MapOf(Collect(fields, FieldTripper(env, leaves)).value) == MapOf(AsBindings(ys))
    ensures f in fields && f.0 == g.0 && FindLeaf(leaves, g.0).Some?
    ensures ValueTrip(env, FindLeaf(leaves, g.0).value, f.1) == Ok(Some(AsConfig(g.1)))
  {
    hide Collect, MapOf, Distinct, ValueTrip, FindLeaf, AsConfig;
    var bs := Collect(fields, FieldTripper(env, leaves)).value;
    BindingsDistinct(ys);
    MapOfHas(AsBindings(ys), AsBinding(g));
    MapOfFrom(bs, g.0);
    CollectFrom(fields, FieldTripper(env, leaves), AsBinding(g));
    f :| f in fields && FieldTripper(env, leaves)(f) == Ok(Some(AsBinding(g)));
  }

  lemma PlainSettles(env: Env, l: YList, x: Item, y: Item)
    requires ListOk(l) && !IsType1(l) && DistinctFields(x.1) && DistinctFields(y.1)
    requires EntryTrip(env, l, x) == Ok(Some(AsBinding(y)))
    ensures y.1.Obj? && Size(y.1) <= Size(x.1)
    ensures Size(y.1) == Size(x.1) ==> ToEntry(env, l, y).Ok? && EntrySettled(env, l, y.1)
    ensures Size(y.1) == Size(x.1) && EntrySettled(env, l, x.1) && EntryTrip(env, l, y).Ok? ==> EntryOk(env, l, y)
  {
    hide EntryTrip, KeysOk, FieldTripper, Collect, MapOf, IsType1, AddFields, KeyTrip, KeyOk, ValueTrip, ToData, ValueOk,
      Settled, FindLeaf, Distinct, SplitOn, KeyItems, AsConfig;
    EntryShape(env, l, x, y);
    var fields := FieldsOf(x.1).value;
    SizesPlain(env, l, x, y, fields);
    if Size(y.1) == Size(x.1) {
      var ys := y.1.fields;
      assert AsConfig(Obj(ys)) == CObj(MapOf(AsBindings(ys)));
      PlainEntryParts(env, l, x, fields);
      KeySettles(l, x.0);
      forall g | g in ys
        ensures FindLeaf(l.leaves, g.0).Some?
        ensures ToData(env, FindLeaf(l.leaves, g.0).value, g.1).Ok? && Settled(env, FindLeaf(l.leaves, g.0).value, g.1)
        ensures EntrySettled(env, l, x.1) && ValueTrip(env, FindLeaf(l.leaves, g.0).value, g.1).Ok? ==>
                  ValueOk(env, FindLeaf(l.leaves, g.0).value, g.1)
      {
        var f := FieldBack(env, l.leaves, fields, ys, g);
        ValueSettles(env, FindLeaf(l.leaves, g.0).value, f.1, g.1);
      }
      AddFieldsIff(env, l.leaves, KeyItems(l.keys, StripAll(SplitOn(y.0, '|'))), ys);
      if EntrySettled(env, l, x.1) && EntryTrip(env, l, y).Ok? {
        OutputNames(env, l, x, y, fields);
        PlainEntryParts(env, l, y, ys);
        forall g | g in ys
          ensures FieldOk(env, l, g)
        {
          CollectHas(ys, FieldTripper(env, l.leaves), g);
          FieldTripOk(env, l.leaves, g);
        }
      }
    }
  }

  lemma FieldTripOk(env: Env, leaves: seq<Leaf>, g: Item)
    requires FieldTripper(env, leaves)(g).Ok?
    ensures FindLeaf(leaves, g.0).Some? && ValueTrip(env, FindLeaf(leaves, g.0).value, g.1).Ok?
  {
  }

  /** Only entries that look like dictionaries go in, and dictionaries come back. */
  lemma EntryShape(env: Env, l: YList, x: Item, y: Item)
    requires EntryTrip(env, l, x) == Ok(Some(AsBinding(y)))
    ensures y.1.Obj? && Returns(l)
    ensures !IsType1(l) || l.inner != [] ==> FieldsOf(x.1).Ok? && |FieldsOf(x.1).value| == Size(x.1)
    ensures DistinctFields(x.1) && FieldsOf(x.1).Ok? ==> Distinct(FieldsOf(x.1).value)
    ensures x.1.Obj? ==> FieldsOf(x.1) == Ok(x.1.fields)
  {
    hide PrintedEntry, FromEntry, AddFields, MapOf, Returns, IsType1;
    ObjectBack(env, l, x);
  }

  // ----- Type 1 entries -----

  lemma {:induction false} MapSize<V>(bs: seq<(string, V)>)
    ensures |MapOf(bs)| <= |bs|
    ensures Distinct(bs) ==> |MapOf(bs)| == |bs|
  {
    if bs != [] {
      MapSize(bs[1..]);
      var b, rest := bs[0], MapOf(bs[1..]);
      assert MapOf(bs).Keys == {b.0} + rest.Keys;
      if Distinct(bs) && b.0 in rest {
        MapOfFrom(bs[1..], b.0);
        assert false;
      }
    }
  }

  lemma {:induction false} InnerCount(env: Env, inner: InnerList, fields: seq<Item>)
    requires InnerShape(inner) && Collect(fields, InnerTripper(env, inner)).Ok?
    ensures |Collect(fields, InnerTripper(env, inner)).value| == |fields|
  {
    hide InnerShape, Printed, PyStr, BaseOf;
    if fields != [] {
      InnerCount(env, inner, fields[1..]);
    }
  }

  lemma InnerSizes(env: Env, inner: InnerList, fields: seq<Item>, ys: seq<Item>)
    requires InnerShape(inner) && Collect(fields, InnerTripper(env, inner)).Ok? && Distinct(ys)
    requires MapOf(Collect(fields, InnerTripper(env, inner)).value) == MapOf(AsBindings(ys))
    ensures |ys| <= |fields|
  {
    hide Collect, MapOf, Distinct, AsConfig, InnerTripper, InnerShape;
    BindingsDistinct(ys);
    MapSize(AsBindings(ys));
    MapSize(Collect(fields, InnerTripper(env, inner)).value);
    InnerCount(env, inner, fields);
  }

  /** An inner field that came back, and is accepted again, is in printed form. */
  lemma InnerSettles(env: Env, inner: InnerList, fields: seq<Item>, ys: seq<Item>, g: Item)
    requires InnerShape(inner) && Collect(fields, InnerTripper(env, inner)).Ok? && Distinct(ys) && g in ys
    requires MapOf(Collect(fields, InnerTripper(env, inner)).value) == MapOf(AsBindings(ys))
    requires InnerTripper(env, inner)(g).Ok?
    ensures InnerFieldOk(inner, g)
  {
    hide Collect, MapOf, Distinct, FindLeaf, Printed, PyStr, Fixed, InnerKey, InnerValue;
    var trip := InnerTripper(env, inner);
    var bs := Collect(fields, trip).value;
    BindingsDistinct(ys);
    MapOfHas(AsBindings(ys), AsBinding(g));
    MapOfFrom(bs, g.0);
    CollectFrom(fields, trip, AsBinding(g));
    var f :| f in fields && trip(f) == Ok(Some(AsBinding(g)));
    SentSettles(BaseOf(inner.leaves, InnerKey(inner)), f.0);
    SentSettles(BaseOf(inner.leaves, InnerValue(inner)), AsText(env, f.1));
  }

  lemma Type1Settles(env: Env, l: YList, x: Item, y: Item)
    requires ListOk(l) && IsType1(l) && l.inner != [] && DistinctFields(x.1) && DistinctFields(y.1)
    requires EntryTrip(env, l, x) == Ok(Some(AsBinding(y)))
    ensures y.1.Obj? && Size(y.1) <= Size(x.1) && ToEntry(env, l, y).Ok?
    ensures EntryTrip(env, l, y).Ok? ==> EntryOk(env, l, y)
  {
    hide EntryTrip, KeysOk, InnerTripper, Collect, MapOf, IsType1, KeyTrip, KeyOk, Distinct, SplitOn, KeyItems, AsConfig,
      InnerShape, InnerEntries, InnerFieldOk, Put;
    EntryShape(env, l, x, y);
    var fields := FieldsOf(x.1).value;
    var ys := y.1.fields;
    assert AsConfig(Obj(ys)) == CObj(MapOf(AsBindings(ys)));
    Type1EntryParts(env, l, x, fields);
    KeySettles(l, x.0);
    InnerSizes(env, l.inner[0], fields, ys);
    if EntryTrip(env, l, y).Ok? {
      Type1EntryParts(env, l, y, ys);
      forall g | g in ys
        ensures InnerFieldOk(l.inner[0], g)
      {
        CollectHas(ys, InnerTripper(env, l.inner[0]), g);
        InnerSettles(env, l.inner[0], fields, ys, g);
      }
    }
  }

  lemma BareSettles(env: Env, l: YList, x: Item, y: Item)
    requires ListOk(l) && IsType1(l) && l.inner == [] && DistinctFields(y.1)
    requires EntryTrip(env, l, x) == Ok(Some(AsBinding(y)))
    ensures y.1.Obj? && Size(y.1) == 0 && ToEntry(env, l, y).Ok?
    ensures EntryTrip(env, l, y).Ok? ==> EntryOk(env, l, y)
  {
    hide EntryTrip, KeysOk, MapOf, IsType1, KeyTrip, KeyOk, SplitOn, KeyItems, AsConfig;
    EntryShape(env, l, x, y);
    BareEntryParts(env, l, x);
    assert AsConfig(Obj(y.1.fields)) == CObj(MapOf(AsBindings(y.1.fields)));
    EmptyFields(y.1.fields);
    KeySettles(l, x.0);
    BareEntryParts(env, l, y);
  }

  /** What comes back from a list settles after at most two trips. */
  lemma EntrySettles(env: Env, l: YList, x: Item, y: Item)
    requires ListOk(l) && DistinctFields(x.1) && DistinctFields(y.1)
    requires EntryTrip(env, l, x) == Ok(Some(AsBinding(y)))
    ensures y.1.Obj? && Size(y.1) <= Size(x.1)
    ensures Size(y.1) == Size(x.1) ==> ToEntry(env, l, y).Ok? && EntrySettled(env, l, y.1)
    ensures Size(y.1) == Size(x.1) && EntrySettled(env, l, x.1) && EntryTrip(env, l, y).Ok? ==> EntryOk(env, l, y)
  {
    hide EntryTrip, ToEntry, EntryOk, ListOk, DistinctFields, AsBinding, IsType1, FindLeaf;
    if !IsType1(l) {
      PlainSettles(env, l, x, y);
    } else if l.inner == [] {
      BareSettles(env, l, x, y);
    } else {
      Type1Settles(env, l, x, y);
    }
  }
}
