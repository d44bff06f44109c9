/** When a table entry survives the trip through its list. */
module YangEntryLaws {
  import opened Texts
  import opened YangSchema
  import opened YangValues
  import opened Bindings
  import opened Dicts
  import opened YangEntries
  import opened YangKeyLaws

  // ----- the key part of an entry -----

  lemma {:induction false} PrintedAppend(l: YList, a: Fields, b: Fields)
    ensures PrintedEntry(l, a + b) ==
            match PrintedEntry(l, a)
            case Err => Err
            case Ok(p) =>
              match PrintedEntry(l, b)
              case Err => Err
              case Ok(q) => Ok(p + q)
  {
    hide PrintedItem;
    if a == [] {
      assert a + b == b;
      if PrintedEntry(l, b).Ok? {
        SeqAssoc(PrintedEntry(l, b).value, [], []);
      }
    } else {
      PrintedAppend(l, a[1..], b);
      assert (a + b)[1..] == a[1..] + b;
      var d := PrintedItem(l, a[0]);
      if d.Ok? && d.value.Some? && PrintedEntry(l, a[1..]).Ok? && PrintedEntry(l, b).Ok? {
        SeqAssoc([(a[0].0, d.value.value)], PrintedEntry(l, a[1..]).value, PrintedEntry(l, b).value);
      }
    }
  }

  function KeyScalars(leaves: seq<Leaf>, keys: seq<string>, parts: seq<string>): (r: Result<seq<Scalar>>)
    requires |keys| == |parts| && forall k :: k in keys ==> ScalarLeaf(leaves, k)
    ensures r.Ok? ==> |r.value| == |keys|
  {
    if keys == [] then Ok([])
    else
      var x :- Printed(BaseOf(leaves, keys[0]), Text(parts[0]));
      var rest :- KeyScalars(leaves, keys[1..], parts[1..]);
      Ok([x] + rest)
  }

  function ScalarItems(keys: seq<string>, xs: seq<Scalar>): (r: Fields)
    requires |keys| == |xs|
    ensures |r| == |keys| && forall i :: 0 <= i < |keys| ==> r[i] == (keys[i], One(xs[i]))
  {
    if keys == [] then [] else [(keys[0], One(xs[0]))] + ScalarItems(keys[1..], xs[1..])
  }

  function KeyStrs(xs: seq<Scalar>): Result<seq<string>> {
    if xs == [] then Ok([])
    else if !Truthy(xs[0]) then Err
    else
      var rest :- KeyStrs(xs[1..]);
      Ok([PyStr(xs[0])] + rest)
  }

  lemma {:induction false} PrintedKeys(l: YList, keys: seq<string>, parts: seq<string>)
    requires |keys| == |parts| && forall k :: k in keys ==> ScalarLeaf(l.leaves, k)
    ensures PrintedEntry(l, KeyItems(keys, parts)) ==
            match KeyScalars(l.leaves, keys, parts)
            case Err => Err
            case Ok(xs) => Ok(ScalarItems(keys, xs))
  {
    hide Printed;
    if keys != [] {
      assert keys[0] in keys;
      PrintedKeys(l, keys[1..], parts[1..]);
      assert KeyItems(keys, parts)[1..] == KeyItems(keys[1..], parts[1..]);
    }
  }

  lemma {:induction false} KeyPartsAreScalars(leaves: seq<Leaf>, keys: seq<string>, parts: seq<string>)
    requires |keys| == |parts| && forall k :: k in keys ==> ScalarLeaf(leaves, k)
    ensures KeyParts(leaves, keys, parts) ==
            match KeyScalars(leaves, keys, StripAll(parts))
            case Err => Err
            case Ok(xs) => KeyStrs(xs)
  {
    hide Printed, Truthy, PyStr, Strip;
    if keys != [] {
      KeyPartsAreScalars(leaves, keys[1..], parts[1..]);
      assert StripAll(parts)[1..] == StripAll(parts[1..]);
    }
  }

  lemma {:induction false} KeyTextsAre(entry: Fields, keys: seq<string>, xs: seq<Scalar>)
    requires |keys| == |xs| && forall i :: 0 <= i < |keys| ==> Get(entry, keys[i]) == Some(One(xs[i]))
    ensures KeyTexts(entry, keys) == KeyStrs(xs)
  {
    hide Get, Truthy, PyStr;
    if keys != [] {
      KeyTextsAre(entry, keys[1..], xs[1..]);
    }
  }

  lemma GetScalarItem(keys: seq<string>, xs: seq<Scalar>, rest: Fields, i: nat)
    requires |keys| == |xs| && i < |keys| && forall j, k :: 0 <= j < k < |keys| ==> keys[j] != keys[k]
    ensures Get(ScalarItems(keys, xs) + rest, keys[i]) == Some(One(xs[i]))
  {
    hide Get, ScalarItems;
    GetAt(ScalarItems(keys, xs), i);
    GetFirst(ScalarItems(keys, xs), rest, keys[i]);
  }

  /** The key put together from an entry's printed key leaves is what the key trip says. */
  lemma CreateKeyIs(l: YList, pkey: string, xs: seq<Scalar>, rest: Fields)
    requires KeysOk(l) && |SplitOn(pkey, '|')| == |l.keys|
    requires KeyScalars(l.leaves, l.keys, StripAll(SplitOn(pkey, '|'))) == Ok(xs)
    ensures CreateKey(ScalarItems(l.keys, xs) + rest, l.keys) == KeyTrip(l, pkey)
  {
    hide KeyScalars, ScalarItems, KeyStrs, KeyTexts, KeyParts, StripBars, Barred, JoinOn, SplitOn, StripAll, Get;
    var entry := ScalarItems(l.keys, xs) + rest;
    forall i | 0 <= i < |l.keys|
      ensures Get(entry, l.keys[i]) == Some(One(xs[i]))
    {
      GetScalarItem(l.keys, xs, rest, i);
    }
    KeyTextsAre(entry, l.keys, xs);
    KeyPartsAreScalars(l.leaves, l.keys, SplitOn(pkey, '|'));
    if KeyTrip(l, pkey).Ok? {
      KeyTextsSplit(l, pkey);
      StripBarsJoin(KeyStrs(xs).value);
    }
  }

  lemma KeyTripFails(l: YList, pkey: string)
    requires KeysOk(l) && |SplitOn(pkey, '|')| == |l.keys|
    requires KeyScalars(l.leaves, l.keys, StripAll(SplitOn(pkey, '|'))).Err?
    ensures KeyTrip(l, pkey).Err?
  {
    hide KeyScalars, KeyParts, SplitOn, StripAll;
    KeyPartsAreScalars(l.leaves, l.keys, SplitOn(pkey, '|'));
  }

  // ----- the fields of an entry -----

  function FieldTrip(env: Env, leaves: seq<Leaf>, x: Item): Result<Option<(string, Config)>> {
    match FindLeaf(leaves, x.0)
    case None => Err
    case Some(leaf) =>
      var c :- ValueTrip(env, leaf, x.1);
      Ok(if c.Some? then Some((x.0, c.value)) else None)
  }

  function FieldTripper(env: Env, leaves: seq<Leaf>): Trip {
    x => FieldTrip(env, leaves, x)
  }

  predicate Converts(env: Env, leaves: seq<Leaf>, f: Item) {
    match FindLeaf(leaves, f.0)
    case None => false
    case Some(leaf) => ToData(env, leaf, f.1).Ok?
  }

  lemma {:induction false} AddFieldsIff(env: Env, leaves: seq<Leaf>, entry: Fields, fields: seq<Item>)
    ensures AddFields(env, leaves, entry, fields).Ok? <==> forall f :: f in fields ==> Converts(env, leaves, f)
    decreases |fields|
  {
    hide ToData, FindLeaf, Put;
    if fields != [] {
      assert fields == [fields[0]] + fields[1..];
      if Converts(env, leaves, fields[0]) {
        AddFieldsIff(env, leaves, AddField(env, leaves, entry, fields[0]).value, fields[1..]);
      }
    }
  }

  predicate Apart<U(==), V(==)>(a: seq<(string, U)>, b: seq<(string, V)>) {
    forall x, y :: x in a && y in b ==> x.0 != y.0
  }

  lemma {:induction false} AddFieldsIs(env: Env, leaves: seq<Leaf>, entry: Fields, fields: seq<Item>)
    requires Distinct(fields) && Apart(entry, fields)
    ensures AddFields(env, leaves, entry, fields) ==
            match DataOf(env, leaves, fields)
            case Err => Err
            case Ok(d) => Ok(entry + d)
    decreases |fields|
  {
    hide ToData, Put, FindLeaf;
    if fields == [] {
      SeqAssoc(entry, [], []);
    } else {
      var x := fields[0];
      assert x in fields;
      match FindLeaf(leaves, x.0)
      case None =>
      case Some(leaf) =>
        if ToData(env, leaf, x.1).Ok? {
          var item := (x.0, ToData(env, leaf, x.1).value);
          PutNew(entry, x.0, item.1);
          GrownApart(entry, item, fields);
          AddFieldsIs(env, leaves, entry + [item], fields[1..]);
          if DataOf(env, leaves, fields[1..]).Ok? {
            SeqAssoc(entry, [item], DataOf(env, leaves, fields[1..]).value);
          }
        }
    }
  }

  lemma GrownApart(entry: Fields, item: (string, Data), fields: seq<Item>)
    requires fields != [] && Distinct(fields) && Apart(entry, fields) && item.0 == fields[0].0
    ensures Distinct(fields[1..]) && Apart(entry + [item], fields[1..])
  {
    forall x, y | x in entry + [item] && y in fields[1..]
      ensures x.0 != y.0
    {
      var j :| 0 <= j < |fields[1..]| && fields[1..][j] == y;
      assert fields[j + 1] == y;
      assert y in fields;
    }
  }

  /** Field by field: sent, printed and read back is the trip of the field. */
  lemma {:induction false} FieldSteps(env: Env, l: YList, fields: seq<Item>)
    requires !IsType1(l) && forall x :: x in fields ==> x.0 !in l.keys
    ensures Collect(fields, FieldTripper(env, l.leaves)) ==
            match DataOf(env, l.leaves, fields)
            case Err => Err
            case Ok(d) =>
              match PrintedEntry(l, d)
              case Err => Err
              case Ok(p) => ReadFields(env, l, p)
  {
    hide ToData, PrintedValue, FromData, FindLeaf, IsType1;
    if fields != [] {
      var x := fields[0];
      assert x in fields;
      FieldSteps(env, l, fields[1..]);
      FieldStep(env, l, x);
    }
  }

  lemma FieldStep(env: Env, l: YList, x: Item)
    requires !IsType1(l)
    ensures match FindLeaf(l.leaves, x.0)
            case None => FieldTripper(env, l.leaves)(x) == Err
            case Some(leaf) =>
              match ToData(env, leaf, x.1)
              case Err => FieldTripper(env, l.leaves)(x) == Err
              case Ok(d) =>
                match PrintedItem(l, (x.0, d))
                case Err => FieldTripper(env, l.leaves)(x) == Err
                case Ok(p) =>
                  FieldTripper(env, l.leaves)(x) ==
                  match p
                  case None => Ok(None)
                  case Some(d') =>
                    match ReadField(env, l.leaves, (x.0, d'))
                    case Err => Err
                    case Ok(b) => Ok(Some(b))
  {
  }

  // ----- a whole entry -----

  function Joined(key: Result<string>, bs: Result<seq<(string, Config)>>): Result<Option<(string, Config)>> {
    var k :- key;
    var b :- bs;
    Ok(Some((k, CObj(MapOf(b)))))
  }

  lemma {:induction false} ReadSkipsKeys(env: Env, l: YList, keys: seq<string>, xs: seq<Scalar>, rest: Fields)
    requires |keys| == |xs| && forall k :: k in keys ==> k in l.keys
    ensures ReadFields(env, l, ScalarItems(keys, xs) + rest) == ReadFields(env, l, rest)
  {
    hide ReadField;
    var items := ScalarItems(keys, xs);
    if keys == [] {
      assert items + rest == rest;
    } else {
      assert keys[0] in keys;
      ReadSkipsKeys(env, l, keys[1..], xs[1..], rest);
      assert (items + rest)[1..] == ScalarItems(keys[1..], xs[1..]) + rest;
    }
  }

  lemma {:induction false} KeyItemNames(keys: seq<string>, parts: seq<string>)
    requires |keys| == |parts|
    ensures forall x :: x in KeyItems(keys, parts) ==> x.0 in keys && x.1.One?
  {
    if keys != [] {
      KeyItemNames(keys[1..], parts[1..]);
    }
  }

  /** A printed entry made of its key leaves and other items. */
  lemma PrintedParts(l: YList, pkey: string, d: Fields)
    requires KeysOk(l) && |SplitOn(pkey, '|')| == |l.keys|
    ensures var parts := StripAll(SplitOn(pkey, '|'));
            PrintedEntry(l, KeyItems(l.keys, parts) + d) ==
            match KeyScalars(l.leaves, l.keys, parts)
            case Err => Err
            case Ok(xs) =>
              match PrintedEntry(l, d)
              case Err => Err
              case Ok(p) => Ok(ScalarItems(l.keys, xs) + p)
  {
    hide KeyItems, KeyScalars, ScalarItems, PrintedEntry, SplitOn, StripAll;
    var parts := StripAll(SplitOn(pkey, '|'));
    PrintedAppend(l, KeyItems(l.keys, parts), d);
    PrintedKeys(l, l.keys, parts);
  }

  /** An ordinary entry: its key and its fields travel independently. */
  lemma PlainEntryParts(env: Env, l: YList, x: Item, fields: seq<Item>)
    requires KeysOk(l) && !IsType1(l) && Returns(l)
    requires FieldsOf(x.1) == Ok(fields) && Distinct(fields) && forall f :: f in fields ==> f.0 !in l.keys
    ensures EntryTrip(env, l, x) == Joined(KeyTrip(l, x.0), Collect(fields, FieldTripper(env, l.leaves)))
  {
    hide KeyItems, KeyScalars, ScalarItems, PrintedEntry, SplitOn, StripAll, KeyTrip, Collect, AddFields, DataOf,
      ReadFields, CreateKey, IsType1, Returns, Distinct, FieldsOf, FieldTripper, MapOf;
    var parts := SplitOn(x.0, '|');
    if |parts| != |l.keys| {
      KeyCount(l, x.0);
    } else {
      var key := KeyItems(l.keys, StripAll(parts));
      KeyItemNames(l.keys, StripAll(parts));
      AddFieldsIs(env, l.leaves, key, fields);
      FieldSteps(env, l, fields);
      if DataOf(env, l.leaves, fields).Ok? {
        var d := DataOf(env, l.leaves, fields).value;
        PrintedParts(l, x.0, d);
        match KeyScalars(l.leaves, l.keys, StripAll(parts))
        case Err => KeyTripFails(l, x.0);
        case Ok(xs) =>
          if PrintedEntry(l, d).Ok? {
            var p := PrintedEntry(l, d).value;
            CreateKeyIs(l, x.0, xs, p);
            ReadSkipsKeys(env, l, l.keys, xs, p);
          }
      }
    }
  }

  lemma KeyCount(l: YList, pkey: string)
    requires KeysOk(l) && |SplitOn(pkey, '|')| != |l.keys|
    ensures KeyTrip(l, pkey).Err?
  {
  }

  // ----- Type 1 entries -----

  predicate InnerShape(inner: InnerList) {
    && |inner.keys| == 1
    && ScalarLeaf(inner.leaves, InnerKey(inner)) && ScalarLeaf(inner.leaves, InnerValue(inner))
    && InnerKey(inner) != InnerValue(inner)
  }

  function InnerTrip(env: Env, inner: InnerList, x: Item): Result<Option<(string, Config)>>
    requires InnerShape(inner)
  {
    var k :- Printed(BaseOf(inner.leaves, InnerKey(inner)), Text(x.0));
    var v :- Printed(BaseOf(inner.leaves, InnerValue(inner)), Text(AsText(env, x.1)));
    Ok(Some((PyStr(k), CStr(PyStr(v)))))
  }

  function InnerTripper(env: Env, inner: InnerList): Trip
    requires InnerShape(inner)
  {
    x => InnerTrip(env, inner, x)
  }

  lemma InnerStep(env: Env, inner: InnerList, x: Item)
    requires InnerShape(inner)
    ensures match PrintedLeaves(inner.leaves, InnerEntry(env, inner, x))
            case Err => InnerTripper(env, inner)(x) == Err
            case Ok(e) =>
              && Get(e, InnerKey(inner)).Some? && Get(e, InnerKey(inner)).value.One?
              && Get(e, InnerValue(inner)).Some? && Get(e, InnerValue(inner)).value.One?
              && InnerTripper(env, inner)(x) == Ok(Some((PyStr(Get(e, InnerKey(inner)).value.scalar),
                                                         CStr(PyStr(Get(e, InnerValue(inner)).value.scalar)))))
  {
    hide Printed, PyStr, FindLeaf, InnerKey, InnerValue;
    var k, v := (InnerKey(inner), One(Text(x.0))), (InnerValue(inner), One(Text(AsText(env, x.1))));
    var e := InnerEntry(env, inner, x);
    PutNew([k], v.0, v.1);
    assert e == [k] + [v];
    assert e[1..] == [v] && e[1..][1..] == [];
    assert PrintedLeaves(inner.leaves, []) == Ok([]);
    assert PrintedLeaf(inner.leaves, k) == PrintedValue(FindLeaf(inner.leaves, k.0).value, k.1);
    assert PrintedLeaf(inner.leaves, v) == PrintedValue(FindLeaf(inner.leaves, v.0).value, v.1);
    var value := Printed(BaseOf(inner.leaves, v.0), v.1.scalar);
    assert PrintedLeaves(inner.leaves, [v]) == if value.Ok? then Ok([(v.0, One(value.value))] + []) else Err;
  }

  lemma {:induction false} InnerSteps(env: Env, inner: InnerList, fields: seq<Item>)
    requires InnerShape(inner)
    ensures Collect(fields, InnerTripper(env, inner)) ==
            match PrintedInner(inner, InnerEntries(env, inner, fields))
            case Err => Err
            case Ok(es) => ReadInner(inner, es)
  {
    hide InnerEntry, PrintedLeaves, Get, InnerTripper, InnerShape, InnerKey, InnerValue, PyStr;
    if fields != [] {
      InnerStep(env, inner, fields[0]);
      InnerSteps(env, inner, fields[1..]);
      assert InnerEntries(env, inner, fields)[1..] == InnerEntries(env, inner, fields[1..]);
    }
  }

  /** A Type 1 entry: its key and its inner fields travel independently, but it needs a field. */
  lemma Type1EntryParts(env: Env, l: YList, x: Item, fields: seq<Item>)
    requires KeysOk(l) && IsType1(l) && Returns(l) && FieldsOf(x.1) == Ok(fields)
    requires l.inner != [] && InnerShape(l.inner[0]) && l.inner[0].name !in l.keys
    ensures EntryTrip(env, l, x) ==
            if fields == [] then Err
            else Joined(KeyTrip(l, x.0), Collect(fields, InnerTripper(env, l.inner[0])))
  {
    hide KeyItems, KeyScalars, ScalarItems, PrintedEntry, SplitOn, StripAll, KeyTrip, Collect, ReadInner,
      PrintedInner, InnerEntries, CreateKey, IsType1, Returns, FieldsOf, InnerTripper, MapOf, Put, Get, InnerShape;
    var inner := l.inner[0];
    var parts := SplitOn(x.0, '|');
    if |parts| != |l.keys| {
      KeyCount(l, x.0);
    } else {
      var key := KeyItems(l.keys, StripAll(parts));
      KeyItemNames(l.keys, StripAll(parts));
      var item := (inner.name, Entries(InnerEntries(env, inner, fields)));
      PutNew(key, item.0, item.1);
      InnerSteps(env, inner, fields);
      PrintedParts(l, x.0, [item]);
      PrintedInnerItem(l, item);
      match KeyScalars(l.leaves, l.keys, StripAll(parts))
      case Err => KeyTripFails(l, x.0);
      case Ok(xs) =>
        if PrintedEntry(l, [item]).Ok? {
          var p := PrintedEntry(l, [item]).value;
          CreateKeyIs(l, x.0, xs, p);
          GetInner(l.keys, xs, p, inner.name);
        }
    }
  }

  lemma PrintedInnerItem(l: YList, item: (string, Data))
    requires InnerOf(l).Some? && item.0 == l.inner[0].name && item.1.Entries?
    ensures PrintedEntry(l, [item]) ==
            match PrintedInner(l.inner[0], item.1.entries)
            case Err => Err
            case Ok(es) => Ok(if es == [] then [] else [(item.0, Entries(es))])
  {
    hide PrintedInner;
    assert [item][1..] == [] && PrintedEntry(l, []) == Ok([]);
    if PrintedInner(l.inner[0], item.1.entries).Ok? {
      SeqAssoc([(item.0, Entries(PrintedInner(l.inner[0], item.1.entries).value))], [], []);
    }
  }

  lemma GetInner(keys: seq<string>, xs: seq<Scalar>, p: Fields, name: string)
    requires |keys| == |xs| && name !in keys
    ensures Get(ScalarItems(keys, xs) + p, name) == if p == [] then None else Get(p, name)
  {
    hide ScalarItems;
    GetFirst(ScalarItems(keys, xs), p, name);
  }

  /** A Type 1 list without an inner list keeps only keys. */
  lemma BareEntryParts(env: Env, l: YList, x: Item)
    requires KeysOk(l) && IsType1(l) && Returns(l) && l.inner == []
    ensures EntryTrip(env, l, x) == Joined(KeyTrip(l, x.0), Ok([]))
  {
    hide KeyItems, KeyScalars, ScalarItems, PrintedEntry, SplitOn, StripAll, KeyTrip, CreateKey, IsType1, Returns;
    var parts := SplitOn(x.0, '|');
    if |parts| != |l.keys| {
      KeyCount(l, x.0);
    } else {
      PrintedKeys(l, l.keys, StripAll(parts));
      match KeyScalars(l.leaves, l.keys, StripAll(parts))
      case Err => KeyTripFails(l, x.0);
      case Ok(xs) =>
        SeqAssoc(ScalarItems(l.keys, xs), [], []);
        CreateKeyIs(l, x.0, xs, []);
    }
  }
}
