/** The round trip of a table entry, exactly. */
module YangEntryTrips {
  import opened Texts
  import opened Decimals
  import opened YangSchema
  import opened YangValues
  import opened Bindings
  import opened Dicts
  import opened YangEntries
  import opened YangKeyLaws
  import opened YangEntryLaws

  /** A list of the supported class: scalar keys, and for Type 1 lists one inner key and a value. */
  predicate ListOk(l: YList) {
    && KeysOk(l)
    && (IsType1(l) && l.inner != [] ==> InnerShape(l.inner[0]) && l.inner[0].name !in l.keys)
  }

  predicate FieldOk(env: Env, l: YList, f: Item) {
    f.0 !in l.keys && FindLeaf(l.leaves, f.0).Some? && ValueOk(env, FindLeaf(l.leaves, f.0).value, f.1)
  }

  predicate InnerFieldOk(inner: InnerList, f: Item)
    requires InnerShape(inner)
  {
    && Fixed(BaseOf(inner.leaves, InnerKey(inner)), f.0)
    && f.1.Str? && Fixed(BaseOf(inner.leaves, InnerValue(inner)), f.1.text)
  }

  /** An entry in the form ConfigDB keeps it in, of a list that is translated back. */
  predicate EntryOk(env: Env, l: YList, x: Item)
    requires ListOk(l)
  {
    && Returns(l) && KeyOk(l, x.0) && x.1.Obj?
    && if !IsType1(l) then forall f :: f in x.1.fields ==> FieldOk(env, l, f)
       else if l.inner == [] then x.1.fields == []
       else x.1.fields != [] && forall f :: f in x.1.fields ==> InnerFieldOk(l.inner[0], f)
  }

  predicate DistinctFields(v: Value) {
    v.Obj? ==> Distinct(v.fields)
  }

  // ----- fields -----

  lemma FieldTripIff(env: Env, l: YList, f: Item)
    requires f.0 !in l.keys
    ensures FieldTripper(env, l.leaves)(f) == Ok(Some(AsBinding(f))) <==> FieldOk(env, l, f)
  {
    hide ValueTrip, ValueOk, FindLeaf, AsConfig;
    match FindLeaf(l.leaves, f.0)
    case None =>
    case Some(leaf) => ValueTripIff(env, leaf, f.1);
  }

  lemma FieldsIff(env: Env, l: YList, fields: seq<Item>)
    requires Distinct(fields) && forall f :: f in fields ==> f.0 !in l.keys
    ensures Rebuilds(fields, FieldTripper(env, l.leaves)) <==> forall f :: f in fields ==> FieldOk(env, l, f)
  {
    hide Rebuilds, FieldOk, Distinct, ValueTrip, AsBinding;
    var trip := FieldTripper(env, l.leaves);
    SameNamesIff(fields, trip);
    forall f | f in fields
      ensures trip(f) == Ok(Some(AsBinding(f))) <==> FieldOk(env, l, f)
    {
      FieldTripIff(env, l, f);
    }
  }

  /** A text the data tree printed is canonical, or else refused the next time. */
  lemma SentSettles(base: Base, s: string)
    requires Printed(base, Text(s)).Ok?
    ensures var t := PyStr(Printed(base, Text(s)).value);
            Printed(base, Text(t)).Ok? ==> Fixed(base, t)
  {
    hide Fixed, PrintInt, PrintReal, Integer, IsInteger, IsReal;
    PrintedShape(base, Text(s));
  }

  lemma InnerFieldIff(env: Env, inner: InnerList, f: Item)
    requires InnerShape(inner)
    ensures InnerTripper(env, inner)(f) == Ok(Some(AsBinding(f))) <==> InnerFieldOk(inner, f)
  {
    hide Printed, PyStr, Fixed, FindLeaf, MapOf, InnerKey, InnerValue;
    SentIff(BaseOf(inner.leaves, InnerKey(inner)), f.0);
    SentIff(BaseOf(inner.leaves, InnerValue(inner)), AsText(env, f.1));
  }

  /** If the inner fields are rebuilt, each name is in printed form. */
  lemma InnerNameFixed(env: Env, inner: InnerList, fields: seq<Item>, f: Item)
    requires InnerShape(inner) && Distinct(fields) && f in fields && Rebuilds(fields, InnerTripper(env, inner))
    ensures Fixed(BaseOf(inner.leaves, InnerKey(inner)), f.0)
  {
    hide Printed, PyStr, Fixed, FindLeaf, MapOf, InnerKey, InnerValue, Collect, Distinct;
    var trip := InnerTripper(env, inner);
    RebuiltFrom(fields, trip, f);
    var y :| y in fields && trip(y) == Ok(Some(AsBinding(f)));
    CollectHas(fields, trip, f);
    SentSettles(BaseOf(inner.leaves, InnerKey(inner)), y.0);
  }

  lemma InnerFieldsIff(env: Env, inner: InnerList, fields: seq<Item>)
    requires InnerShape(inner) && Distinct(fields)
    ensures Rebuilds(fields, InnerTripper(env, inner)) <==> forall f :: f in fields ==> InnerFieldOk(inner, f)
  {
    hide Printed, PyStr, Fixed, FindLeaf, InnerKey, InnerValue, Rebuilds, Distinct, AsConfig;
    var trip := InnerTripper(env, inner);
    forall f | f in fields
      ensures trip(f) == Ok(Some(AsBinding(f))) <==> InnerFieldOk(inner, f)
    {
      InnerFieldIff(env, inner, f);
    }
    if Rebuilds(fields, trip) || forall f :: f in fields ==> InnerFieldOk(inner, f) {
      forall f | f in fields && trip(f).Ok? && trip(f).value.Some?
        ensures trip(f).value.value.0 == f.0
      {
        if Rebuilds(fields, trip) {
          InnerNameFixed(env, inner, fields, f);
        }
        SentIff(BaseOf(inner.leaves, InnerKey(inner)), f.0);
      }
      SameNamesIff(fields, trip);
    }
  }

  // ----- entries -----

  lemma {:induction false} ReadNames(env: Env, l: YList, fields: Fields)
    requires ReadFields(env, l, fields).Ok?
    ensures forall b :: b in ReadFields(env, l, fields).value ==>
              b.0 !in l.keys && exists f :: f in fields && f.0 == b.0
  {
    hide FromData, FindLeaf;
    if fields != [] {
      ReadNames(env, l, fields[1..]);
      forall b | b in ReadFields(env, l, fields).value
        ensures b.0 !in l.keys && exists f :: f in fields && f.0 == b.0
      {
        if fields[0].0 !in l.keys && b == ReadField(env, l.leaves, fields[0]).value {
          assert fields[0] in fields;
        } else {
          var f :| f in fields[1..] && f.0 == b.0;
          assert f in fields;
        }
      }
    }
  }

  /** No field of an entry that came back is named like a key. */
  lemma NoKeyNames(env: Env, l: YList, x: Item, b: (string, Config))
    requires !IsType1(l) && EntryTrip(env, l, x) == Ok(Some(b))
    ensures b.1.CObj? && forall name :: name in b.1.fields ==> name !in l.keys
  {
    hide ToEntry, PrintedEntry, ReadFields, CreateKey, MapOf, Returns;
    var p := PrintedEntry(l, ToEntry(env, l, x).value).value;
    ReadNames(env, l, p);
    var bs := ReadFields(env, l, p).value;
    forall name | name in b.1.fields
      ensures name !in l.keys
    {
      MapOfFrom(bs, name);
    }
  }

  lemma FieldNameKept(fields: seq<Item>, f: Item)
    requires f in fields
    ensures f.0 in MapOf(AsBindings(fields))
  {
    hide MapOf, AsConfig;
    var i :| 0 <= i < |fields| && fields[i] == f;
    assert AsBindings(fields)[i] == AsBinding(f);
    MapOfHas(AsBindings(fields), AsBinding(f));
  }

  lemma PlainEntryIff(env: Env, l: YList, x: Item)
    requires ListOk(l) && !IsType1(l) && Returns(l) && x.1.Obj? && Distinct(x.1.fields)
    ensures EntryTrip(env, l, x) == Ok(Some(AsBinding(x))) <==> EntryOk(env, l, x)
  {
    hide EntryTrip, KeyTrip, KeyOk, Collect, FieldTripper, FieldOk, Distinct, IsType1, Returns, MapOf, AsConfig, KeysOk;
    var fields := x.1.fields;
    if EntryTrip(env, l, x) == Ok(Some(AsBinding(x))) {
      NoKeyNames(env, l, x, AsBinding(x));
      forall f | f in fields
        ensures f.0 !in l.keys
      {
        FieldNameKept(fields, f);
        assert AsConfig(Obj(fields)) == CObj(MapOf(AsBindings(fields)));
      }
    }
    if forall f :: f in fields ==> f.0 !in l.keys {
      PlainEntryParts(env, l, x, fields);
      KeyTripIff(l, x.0);
      FieldsIff(env, l, fields);
      assert AsConfig(Obj(fields)) == CObj(MapOf(AsBindings(fields)));
    } else {
      var f :| f in fields && f.0 in l.keys;
      assert !FieldOk(env, l, f) by { NotFieldOk(env, l, f); }
    }
  }

  lemma NotFieldOk(env: Env, l: YList, f: Item)
    requires f.0 in l.keys
    ensures !FieldOk(env, l, f)
  {
  }

  lemma Type1EntryIff(env: Env, l: YList, x: Item)
    requires ListOk(l) && IsType1(l) && Returns(l) && x.1.Obj? && Distinct(x.1.fields)
    ensures EntryTrip(env, l, x) == Ok(Some(AsBinding(x))) <==> EntryOk(env, l, x)
  {
    hide EntryTrip, KeyTrip, KeyOk, Collect, InnerTripper, InnerFieldOk, Distinct, IsType1, Returns, MapOf, AsConfig,
      KeysOk, InnerShape;
    var fields := x.1.fields;
    assert AsConfig(Obj(fields)) == CObj(MapOf(AsBindings(fields)));
    KeyTripIff(l, x.0);
    if l.inner == [] {
      BareEntryParts(env, l, x);
      EmptyFields(fields);
    } else {
      Type1EntryParts(env, l, x, fields);
      InnerFieldsIff(env, l.inner[0], fields);
    }
  }

  lemma EmptyFields(fields: seq<Item>)
    ensures MapOf<Config>([]) == MapOf(AsBindings(fields)) <==> fields == []
  {
    if fields != [] {
      FieldNameKept(fields, fields[0]);
    }
  }

  /** An entry comes back unchanged exactly when it is in ConfigDB's form. */
  lemma EntryTripIff(env: Env, l: YList, x: Item)
    requires ListOk(l) && DistinctFields(x.1)
    ensures EntryTrip(env, l, x) == Ok(Some(AsBinding(x))) <==> EntryOk(env, l, x)
  {
    hide ListOk, IsType1, ToEntry, PrintedEntry, FromEntry, Returns, KeyOk, KeysOk, FieldOk, InnerFieldOk, MapOf;
    if Returns(l) && x.1.Obj? {
      if IsType1(l) {
        Type1EntryIff(env, l, x);
      } else {
        PlainEntryIff(env, l, x);
      }
    } else if EntryTrip(env, l, x).Ok? && EntryTrip(env, l, x).value.Some? {
      ObjectBack(env, l, x);
    }
  }

  lemma ObjectBack(env: Env, l: YList, x: Item)
    requires EntryTrip(env, l, x).Ok? && EntryTrip(env, l, x).value.Some?
    ensures Returns(l) && EntryTrip(env, l, x).value.value.1.CObj?
  {
    hide ToEntry, PrintedEntry, CreateKey, ReadFields, ReadInner, Returns, IsType1;
  }
}
