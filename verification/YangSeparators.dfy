/**
 How a translation depends on the table name it looks separated leaf-lists up under, which is
 another table's after a failed load.
 */
module YangSeparators {
  import opened Texts
  import opened YangSchema
  import opened YangValues
  import opened Decimals
  import opened Bindings
  import opened Dicts
  import opened YangEntries
  import opened YangEntryTrips
  import opened YangTrees
  import opened YangTreeLaws
  import opened YangTreeTrips
  import opened YangPlacement
  import opened YangTables

  // ----- one leaf-list -----

  predicate SameSeparator(a: string, b: string, leaf: Leaf) {
    leaf.isList ==> Separator(a, leaf.name) == Separator(b, leaf.name)
  }

  lemma ToDataSame(show: Value -> string, a: string, b: string, leaf: Leaf, v: Value)
    requires SameSeparator(a, b, leaf)
    ensures ToData(Env(a, show), leaf, v) == ToData(Env(b, show), leaf, v)
  {
    hide Separator, ConvertAll, Kept, Convert;
  }

  lemma Ones(leaf: Leaf, c: char)
    requires Separates(c)
    ensures Kept(leaf, StripAll(SplitOn(['1', c, '1'], c))) == ["1", "1"]
    ensures ConvertAll(leaf.base, ["1", "1"]).Ok?
  {
    hide ReadInt, SplitOn, Strip, Kept;
    SplitFirst("1", "1", c);
    SplitWhole("1", c);
    assert "1" + [c] + "1" == ['1', c, '1'] && ["1"] + ["1"] == ["1", "1"];
    StripTrimmed("1");
    assert StripAll(["1", "1"]) == ["1", "1"];
    KeptAll(leaf, ["1", "1"]);
    ReadNumeral("1");
    assert ["1", "1"][1..] == ["1"] && ["1"][1..] == [];
  }

  lemma OneStripped(s: string, d: char)
    requires d !in s && Trimmed(s)
    ensures StripAll(SplitOn(s, d)) == [s]
  {
    hide Strip, Trimmed;
    SplitWhole(s, d);
    StripTrimmed(s);
  }

  /** Two digits around the separator of the first name are two elements under it, and one or three under the second. */
  lemma Splits(show: Value -> string, a: string, b: string, leaf: Leaf, c: char)
    requires leaf.isList && Separator(a, leaf.name) == Some(c) && Separator(b, leaf.name) != Some(c)
    ensures var v := Str(['1', c, '1']);
            ToData(Env(a, show), leaf, v).Ok? && ToData(Env(a, show), leaf, v) != ToData(Env(b, show), leaf, v)
  {
    hide Separator, ConvertAll, Kept, StripAll, SplitOn;
    var s := ['1', c, '1'];
    Ones(leaf, c);
    match Separator(b, leaf.name)
    case Some(d) =>
      OneStripped(s, d);
      KeptAll(leaf, [s]);
    case None =>
      KeptAll(leaf, Characters(s));
  }

  /** A text that the two names read differently, at least one of them without an error. */
  lemma Unlike(show: Value -> string, a: string, b: string, leaf: Leaf) returns (s: string)
    requires !SameSeparator(a, b, leaf)
    ensures s != "" && ToData(Env(a, show), leaf, Str(s)) != ToData(Env(b, show), leaf, Str(s))
    ensures ToData(Env(a, show), leaf, Str(s)).Ok? || ToData(Env(b, show), leaf, Str(s)).Ok?
  {
    hide Separator, ToData;
    match Separator(a, leaf.name)
    case Some(c) =>
      s := ['1', c, '1'];
      Splits(show, a, b, leaf, c);
    case None =>
      var c := Separator(b, leaf.name).value;
      s := ['1', c, '1'];
      Splits(show, b, a, leaf, c);
  }

  /** A leaf reads every value alike under two table names exactly when it has the same separator under both. */
  lemma LeafAgreesIff(show: Value -> string, a: string, b: string, leaf: Leaf)
    ensures (forall v :: ToData(Env(a, show), leaf, v) == ToData(Env(b, show), leaf, v)) <==> SameSeparator(a, b, leaf)
  {
    hide SameSeparator, ToData;
    if SameSeparator(a, b, leaf) {
      forall v
        ensures ToData(Env(a, show), leaf, v) == ToData(Env(b, show), leaf, v)
      {
        ToDataSame(show, a, b, leaf, v);
      }
    } else {
      var s := Unlike(show, a, b, leaf);
    }
  }

  // ----- the same separators give the same tree -----

  /** Every leaf that a field can reach has one separator under both names. */
  predicate SameLeaves(a: string, b: string, leaves: seq<Leaf>) {
    forall f :: f in leaves && FindLeaf(leaves, f.name) == Some(f) ==> SameSeparator(a, b, f)
  }

  predicate SameSeparators(a: string, b: string, c: Container) {
    && SameLeaves(a, b, c.leaves)
    && (forall l :: l in ActiveLists(c) && !IsType1(l) ==> SameLeaves(a, b, l.leaves))
    && (forall i :: 0 <= i < |c.containers| ==> SameSeparators(a, b, c.containers[i]))
  }

  lemma FieldSame(show: Value -> string, a: string, b: string, leaves: seq<Leaf>, x: Item)
    requires SameLeaves(a, b, leaves)
    ensures FindLeaf(leaves, x.0).Some? ==>
              var leaf := FindLeaf(leaves, x.0).value; ToData(Env(a, show), leaf, x.1) == ToData(Env(b, show), leaf, x.1)
  {
    hide ToData, FindLeaf, SameSeparator;
    if FindLeaf(leaves, x.0).Some? {
      ToDataSame(show, a, b, FindLeaf(leaves, x.0).value, x.1);
    }
  }

  lemma {:induction false} AddFieldsSame(show: Value -> string, a: string, b: string, leaves: seq<Leaf>, entry: Fields,
                                         fields: seq<Item>)
    requires SameLeaves(a, b, leaves)
    ensures AddFields(Env(a, show), leaves, entry, fields) == AddFields(Env(b, show), leaves, entry, fields)
    decreases |fields|
  {
    hide ToData, FindLeaf, Put, SameLeaves;
    if fields != [] {
      FieldSame(show, a, b, leaves, fields[0]);
      var grown := AddField(Env(a, show), leaves, entry, fields[0]);
      if grown.Ok? {
        AddFieldsSame(show, a, b, leaves, grown.value, fields[1..]);
      }
    }
  }

  lemma {:induction false} DataSame(show: Value -> string, a: string, b: string, leaves: seq<Leaf>, items: seq<Item>)
    requires SameLeaves(a, b, leaves)
    ensures DataOf(Env(a, show), leaves, items) == DataOf(Env(b, show), leaves, items)
  {
    hide ToData, FindLeaf, SameLeaves;
    if items != [] {
      FieldSame(show, a, b, leaves, items[0]);
      DataSame(show, a, b, leaves, items[1..]);
    }
  }

  lemma {:induction false} InnerSame(show: Value -> string, a: string, b: string, inner: InnerList, fields: seq<Item>)
    ensures InnerEntries(Env(a, show), inner, fields) == InnerEntries(Env(b, show), inner, fields)
  {
    hide Put;
    if fields != [] {
      InnerSame(show, a, b, inner, fields[1..]);
    }
  }

  lemma EntrySame(show: Value -> string, a: string, b: string, l: YList, x: Item)
    requires !IsType1(l) ==> SameLeaves(a, b, l.leaves)
    ensures ToEntry(Env(a, show), l, x) == ToEntry(Env(b, show), l, x)
  {
    hide AddFields, InnerEntries, KeyItems, SplitOn, SameLeaves, Put, IsType1;
    var key, fields := ExtractKey(x.0, l.keys), FieldsOf(x.1);
    if key.Ok? && fields.Ok? {
      if IsType1(l) {
        if l.inner != [] {
          InnerSame(show, a, b, l.inner[0], fields.value);
        }
      } else {
        AddFieldsSame(show, a, b, l.leaves, key.value, fields.value);
      }
    }
  }

  lemma {:induction false} EntriesSame(show: Value -> string, a: string, b: string, l: YList, items: seq<Item>)
    requires !IsType1(l) ==> SameLeaves(a, b, l.leaves)
    ensures EntriesOf(Env(a, show), l, items) == EntriesOf(Env(b, show), l, items)
    ensures Passed(Env(a, show), l, items) == Passed(Env(b, show), l, items)
  {
    hide ToEntry, SameLeaves, IsType1;
    if items != [] {
      EntrySame(show, a, b, l, items[0]);
      EntriesSame(show, a, b, l, items[1..]);
    }
  }

  lemma {:induction false} ListsSame(show: Value -> string, a: string, b: string, lists: seq<YList>, items: seq<Item>)
    requires forall l :: l in lists && !IsType1(l) ==> SameLeaves(a, b, l.leaves)
    ensures ListNodes(Env(a, show), lists, items) == ListNodes(Env(b, show), lists, items)
    ensures Unlisted(Env(a, show), lists, items) == Unlisted(Env(b, show), lists, items)
    decreases |lists|
  {
    hide EntriesOf, Passed, SameLeaves, IsType1;
    if lists != [] {
      EntriesSame(show, a, b, lists[0], items);
      ListsSame(show, a, b, lists[1..], Passed(Env(a, show), lists[0], items));
    }
  }

  lemma {:induction false} NodesSame(show: Value -> string, a: string, b: string, c: Container, n: nat, items: seq<Item>)
    requires n <= |c.containers| && forall i :: 0 <= i < |c.containers| ==> SameSeparators(a, b, c.containers[i])
    ensures ContainerNodes(Env(a, show), c, n, items) == ContainerNodes(Env(b, show), c, n, items)
    decreases c, 0, |c.containers| - n
  {
    hide ToTree, Get, Del, SameSeparators;
    if n < |c.containers| {
      var name := c.containers[n].name;
      var v := Get(items, name);
      if v.Some? && v.value.Obj? {
        TreeSame(show, a, b, c.containers[n], v.value.fields);
      }
      NodesSame(show, a, b, c, n + 1, if v.Some? then Del(items, name) else items);
    }
  }

  /** Two table names under which all leaf-lists have the same separators give the same tree. */
  lemma {:induction false} TreeSame(show: Value -> string, a: string, b: string, c: Container, items: seq<Item>)
    requires SameSeparators(a, b, c)
    ensures ToTree(Env(a, show), c, items) == ToTree(Env(b, show), c, items)
    decreases c, 1
  {
    hide ListNodes, Unlisted, ContainerNodes, Uncontained, DataOf, SameLeaves, IsType1, ActiveLists;
    var lists := ActiveLists(c);
    ListsSame(show, a, b, lists, items);
    var left := Unlisted(Env(a, show), lists, items);
    NodesSame(show, a, b, c, 0, left);
    DataSame(show, a, b, c.leaves, Uncontained(c.containers, left));
  }

  // ----- and other separators another one -----

  /**
   A container in which every leaf-list can be reached by some item: its lists have different
   key counts, no list takes the items of leaves and containers, and names hold no bar.
   */
  predicate Reachable(c: Container) {
    && (forall i, j :: 0 <= i < j < |ActiveLists(c)| ==> |ActiveLists(c)[i].keys| != |ActiveLists(c)[j].keys|)
    && (forall l :: l in ActiveLists(c) && |l.keys| == 1 ==> c.containers == [] && !(IsType1(l) && l.inner == []))
    && (forall f :: f in c.leaves ==> '|' !in f.name)
    && (forall i :: 0 <= i < |c.containers| ==> '|' !in c.containers[i].name && Reachable(c.containers[i]))
  }

  /** No list takes an item named like a leaf that holds a text, or one named like a container. */
  lemma {:induction false} NoListTakes(env: Env, lists: seq<YList>, x: Item)
    requires '|' !in x.0 && forall l :: l in lists && |l.keys| == 1 ==> x.1.Str? && x.1.text != "" && !(IsType1(l) && l.inner == [])
    ensures FirstList(env, lists, x).None?
  {
    hide Accepts, IsType1;
    if lists != [] {
      SplitWhole(x.0, '|');
      assert lists[0] in lists;
      AcceptsIff(env, lists[0], x);
      NoListTakes(env, lists[1..], x);
    }
  }

  lemma OneItem(x: Item)
    ensures Distinct([x]) && Get([x], x.0) == Some(x.1)
  {
  }

  /** A table of one item that no list takes. */
  lemma LoneItem(env: Env, c: Container, x: Item)
    requires SchemaOk(c) && FirstList(env, ActiveLists(c), x).None?
    ensures Unlisted(env, ActiveLists(c), [x]) == [x]
    ensures ToTree(env, c, [x]).Ok? <==> Placeable(env, c, x)
  {
    hide SchemaOk, ToTree, FirstList, ActiveLists, Placeable, Unlisted;
    OneItem(x);
    TreeOkIff(env, c, [x]);
    UnlistedAll(env, ActiveLists(c), x);
  }

  lemma {:induction false} UnlistedAll(env: Env, lists: seq<YList>, x: Item)
    requires FirstList(env, lists, x).None?
    ensures Unlisted(env, lists, [x]) == [x]
  {
    hide Accepts;
    if lists != [] {
      assert [x][1..] == [] && Passed(env, lists[0], []) == [];
      UnlistedAll(env, lists[1..], x);
    }
  }

  /** An own leaf-list that the two names read differently. */
  lemma LeafUnlike(show: Value -> string, a: string, b: string, c: Container, leaf: Leaf) returns (items: seq<Item>)
    requires SchemaOk(c) && Reachable(c)
    requires leaf in c.leaves && FindLeaf(c.leaves, leaf.name) == Some(leaf) && !SameSeparator(a, b, leaf)
    ensures Unequal(show, a, b, c, items)
  {
    hide SchemaOk, Reachable, SameSeparator, ToData, ToTree, FindLeaf, FirstList, ActiveLists, FindContainer, Unlisted, Get, ContainerNode;
    var s := Unlike(show, a, b, leaf);
    var x: Item := (leaf.name, Str(s));
    items := [x];
    OneItem(x);
    ReachLeaf(c, leaf, x);
    forall t: string
      ensures FirstList(Env(t, show), ActiveLists(c), x).None?
      ensures Unlisted(Env(t, show), ActiveLists(c), [x]) == [x]
      ensures ToTree(Env(t, show), c, [x]).Ok? <==> ToData(Env(t, show), leaf, Str(s)).Ok?
      ensures ToTree(Env(t, show), c, [x]).Ok? ==>
                var node := Get(ToTree(Env(t, show), c, [x]).value, leaf.name);
                node.Some? && ToData(Env(t, show), leaf, Str(s)) == Ok(node.value)
    {
      NoListTakes(Env(t, show), ActiveLists(c), x);
      LoneItem(Env(t, show), c, x);
      if ToTree(Env(t, show), c, [x]).Ok? {
        TreeExact(Env(t, show), c, [x], leaf.name);
      }
    }
  }

  lemma ReachLeaf(c: Container, leaf: Leaf, x: Item)
    requires SchemaOk(c) && Reachable(c) && leaf in c.leaves && x.0 == leaf.name && x.1.Str? && x.1.text != ""
    ensures '|' !in x.0 && FindContainer(c.containers, x.0).None?
    ensures forall l :: l in ActiveLists(c) && |l.keys| == 1 ==> x.1.Str? && x.1.text != "" && !(IsType1(l) && l.inner == [])
  {
    hide ActiveLists, ListOk, IsType1, FindContainer;
  }

  /** A dictionary that two table names translate differently, at least one of them without an error. */
  predicate Unequal(show: Value -> string, a: string, b: string, c: Container, items: seq<Item>) {
    && items != [] && Distinct(items) && (forall x :: x in items ==> DeepDistinct(x.1))
    && ToTree(Env(a, show), c, items) != ToTree(Env(b, show), c, items)
    && (ToTree(Env(a, show), c, items).Ok? || ToTree(Env(b, show), c, items).Ok?)
  }

  /** A primary key with n empty parts. */
  function Bars(n: nat): string {
    if n <= 1 then "" else "" + ['|'] + Bars(n - 1)
  }

  lemma {:induction false} BarParts(n: nat)
    requires n > 0
    ensures |SplitOn(Bars(n), '|')| == n
  {
    if n > 1 {
      BarParts(n - 1);
      SplitFirst("", Bars(n - 1), '|');
    }
  }

  /** A list entry of one field. */
  lemma OneField(env: Env, l: YList, leaf: Leaf, pkey: string, v: Value)
    requires !IsType1(l) && FindLeaf(l.leaves, leaf.name) == Some(leaf) && |SplitOn(pkey, '|')| == |l.keys|
    ensures var x: Item := (pkey, Obj([(leaf.name, v)]));
            && (Accepts(env, l, x) <==> ToData(env, leaf, v).Ok?)
            && (Accepts(env, l, x) ==> Get(ToEntry(env, l, x).value, leaf.name) == Some(ToData(env, leaf, v).value))
  {
    hide ToData, FindLeaf, Put, SplitOn, KeyItems, IsType1, Get;
    var f: Item := (leaf.name, v);
    var key := ExtractKey(pkey, l.keys).value;
    assert [f][1..] == [] && [f][0] == f;
    if ToData(env, leaf, v).Ok? {
      var grown := Put(key, leaf.name, ToData(env, leaf, v).value);
      assert AddFields(env, l.leaves, grown, []) == Ok(grown);
      assert AddFields(env, l.leaves, key, [f]) == Ok(grown);
      PutGet(key, leaf.name, ToData(env, leaf, v).value, leaf.name);
    } else {
      assert AddFields(env, l.leaves, key, [f]) == Err;
    }
  }

  /** A list alone in accepting an item is the item's list if it accepts it. */
  lemma OnlyList(env: Env, lists: seq<YList>, x: Item, k: nat)
    requires k < |lists| && forall j :: 0 <= j < |lists| && j != k ==> !Accepts(env, lists[j], x)
    ensures ListIndex(env, lists, x) == k <==> Accepts(env, lists[k], x)
    ensures Accepts(env, lists[k], x) ==> FirstList(env, lists, x).Some?
  {
    hide Accepts;
    ListIndexIs(env, lists, x);
    if Accepts(env, lists[k], x) {
      ListIndexFirst(env, lists, x, k);
    }
  }

  /** The node of a list in a table of one item that no other list accepts. */
  lemma LoneEntry(env: Env, c: Container, x: Item, k: nat)
    requires SchemaOk(c) && k < |ActiveLists(c)| && ToTree(env, c, [x]).Ok?
    requires forall j :: 0 <= j < |ActiveLists(c)| && j != k ==> !Accepts(env, ActiveLists(c)[j], x)
    ensures var l := ActiveLists(c)[k];
            Get(ToTree(env, c, [x]).value, l.name) ==
            if Accepts(env, l, x) then Some(Entries([ToEntry(env, l, x).value])) else None
  {
    hide SchemaOk, ToTree, ActiveLists, ToEntry, ListIndex, FirstList, Get;
    var lists := ActiveLists(c);
    OnlyList(env, lists, x, k);
    ListHoldsItsItems(env, c, [x], k);
    assert [x][1..] == [] && Homed(env, lists, k, []) == [] && EntriesOf(env, lists[k], []) == [];
    if Accepts(env, lists[k], x) {
      assert Homed(env, lists, k, [x]) == [x];
      assert EntriesOf(env, lists[k], [x]) == [ToEntry(env, lists[k], x).value];
    }
  }

  /** A leaf-list of a list that the two names read differently. */
  lemma EntryUnlike(show: Value -> string, a: string, b: string, c: Container, k: nat, leaf: Leaf) returns (items: seq<Item>)
    requires SchemaOk(c) && Reachable(c) && k < |ActiveLists(c)| && !IsType1(ActiveLists(c)[k])
    requires FindLeaf(ActiveLists(c)[k].leaves, leaf.name) == Some(leaf) && !SameSeparator(a, b, leaf)
    ensures Unequal(show, a, b, c, items)
  {
    hide SchemaOk, Reachable, SameSeparator, ToData, ToTree, ToEntry, FindLeaf, FirstList, ActiveLists, Get, Accepts, IsType1, SplitOn;
    var l := ActiveLists(c)[k];
    var s := Unlike(show, a, b, leaf);
    var x: Item := (Bars(|l.keys|), Obj([(leaf.name, Str(s))]));
    items := [x];
    OneItem(x);
    OneItem((leaf.name, Str(s)));
    EntryDistinct(x, leaf.name, s);
    ListHasKeys(c, l);
    BarParts(|l.keys|);
    forall t: string
      ensures ToData(Env(t, show), leaf, Str(s)).Ok? ==> ToTree(Env(t, show), c, [x]).Ok?
      ensures ToTree(Env(t, show), c, [x]).Ok? ==>
                match Get(ToTree(Env(t, show), c, [x]).value, l.name)
                case None => ToData(Env(t, show), leaf, Str(s)).Err?
                case Some(d) =>
                  && d.Entries? && |d.entries| == 1 && Get(d.entries[0], leaf.name).Some?
                  && ToData(Env(t, show), leaf, Str(s)) == Ok(Get(d.entries[0], leaf.name).value)
    {
      var env := Env(t, show);
      OneField(env, l, leaf, x.0, Str(s));
      OtherCounts(env, c, k, x);
      OnlyList(env, ActiveLists(c), x, k);
      TreeOkIff(env, c, [x]);
      if ToTree(env, c, [x]).Ok? {
        LoneEntry(env, c, x, k);
      }
    }
  }

  lemma EntryDistinct(x: Item, name: string, s: string)
    requires x.1 == Obj([(name, Str(s))])
    ensures DeepDistinct(x.1)
  {
  }

  lemma ListHasKeys(c: Container, l: YList)
    requires SchemaOk(c) && l in ActiveLists(c)
    ensures l.keys != []
  {
    hide SchemaOk;
    ActiveListOk(c, l);
  }

  /** Lists with other key counts do not accept the item. */
  lemma OtherCounts(env: Env, c: Container, k: nat, x: Item)
    requires Reachable(c) && k < |ActiveLists(c)| && |SplitOn(x.0, '|')| == |ActiveLists(c)[k].keys|
    ensures forall j :: 0 <= j < |ActiveLists(c)| && j != k ==> !Accepts(env, ActiveLists(c)[j], x)
  {
    hide ActiveLists, SplitOn, Accepts, IsType1;
    forall j | 0 <= j < |ActiveLists(c)| && j != k
      ensures !Accepts(env, ActiveLists(c)[j], x)
    {
      AcceptsIff(env, ActiveLists(c)[j], x);
    }
  }

  /** An inner container that the two names translate differently. */
  lemma NodeUnlike(show: Value -> string, a: string, b: string, c: Container, i: nat, w: seq<Item>) returns (items: seq<Item>)
    requires SchemaOk(c) && Reachable(c) && i < |c.containers| && Unequal(show, a, b, c.containers[i], w)
    ensures Unequal(show, a, b, c, items)
  {
    hide SchemaOk, Reachable, ToTree, FirstList, ActiveLists, FindContainer, Unlisted, Get, Distinct, Placeable, DeepDistinct;
    var child := c.containers[i];
    var x: Item := (child.name, Obj(w));
    items := [x];
    OneItem(x);
    NodeDistinct(w);
    ReachNode(c, i, x);
    forall t: string
      ensures ToTree(Env(t, show), c, [x]).Ok? <==> ToTree(Env(t, show), child, w).Ok?
      ensures ToTree(Env(t, show), c, [x]).Ok? ==>
                ContainerNode(Env(t, show), child, Some(Obj(w))) == Ok(Get(ToTree(Env(t, show), c, [x]).value, child.name))
    {
      var env := Env(t, show);
      NoListTakes(env, ActiveLists(c), x);
      LoneItem(env, c, x);
      LoneContainer(env, c, x, child);
      if ToTree(env, c, [x]).Ok? {
        TreeExact(env, c, [x], child.name);
      }
    }
  }

  lemma LoneContainer(env: Env, c: Container, x: Item, child: Container)
    requires FirstList(env, ActiveLists(c), x).None? && FindContainer(c.containers, x.0) == Some(child) && x.1.Obj? && x.1.fields != []
    ensures Placeable(env, c, x) <==> ToTree(env, child, x.1.fields).Ok?
  {
    hide ToTree, FirstList, ActiveLists, FindContainer;
  }

  lemma NodeDistinct(w: seq<Item>)
    requires Distinct(w) && forall x :: x in w ==> DeepDistinct(x.1)
    ensures DeepDistinct(Obj(w))
  {
    assert forall i :: 0 <= i < |w| ==> w[i] in w;
  }

  lemma ReachNode(c: Container, i: nat, x: Item)
    requires SchemaOk(c) && Reachable(c) && i < |c.containers| && x.0 == c.containers[i].name
    ensures '|' !in x.0 && FindContainer(c.containers, x.0) == Some(c.containers[i])
    ensures forall l :: l in ActiveLists(c) ==> |l.keys| != 1
  {
    hide ActiveLists, SchemaOk, IsType1, FindContainer, ContainersOk, KnownLists;
    SchemaKnown(c);
    ContainerAt(c, i);
  }

  /** If some leaf-list has two separators, some dictionary has two translations. */
  lemma {:induction false} TreeUnlike(show: Value -> string, a: string, b: string, c: Container) returns (items: seq<Item>)
    requires SchemaOk(c) && Reachable(c) && !SameSeparators(a, b, c)
    ensures Unequal(show, a, b, c, items)
    decreases c
  {
    hide Unequal, ActiveLists, IsType1, SameSeparator, FindLeaf, ListOk;
    if !SameLeaves(a, b, c.leaves) {
      var f :| f in c.leaves && FindLeaf(c.leaves, f.name) == Some(f) && !SameSeparator(a, b, f);
      items := LeafUnlike(show, a, b, c, f);
    } else if exists l :: l in ActiveLists(c) && !IsType1(l) && !SameLeaves(a, b, l.leaves) {
      var l :| l in ActiveLists(c) && !IsType1(l) && !SameLeaves(a, b, l.leaves);
      var k :| 0 <= k < |ActiveLists(c)| && ActiveLists(c)[k] == l;
      var f :| f in l.leaves && FindLeaf(l.leaves, f.name) == Some(f) && !SameSeparator(a, b, f);
      items := EntryUnlike(show, a, b, c, k, f);
    } else {
      var i :| 0 <= i < |c.containers| && !SameSeparators(a, b, c.containers[i]);
      var w := TreeUnlike(show, a, b, c.containers[i]);
      items := NodeUnlike(show, a, b, c, i, w);
    }
  }

  // ----- loads that start with another table's name -----

  /** The first table of a load is read under its own name or one with the same separators. */
  predicate Harmless(tables: map<string, Table>, path: seq<string>, items: seq<Item>)
    requires forall x :: x in items ==> x.0 in tables
  {
    path == [] || items == [] || SameSeparators(path[0], items[0].0, tables[items[0].0].container)
  }

  /** Such a load gives the data of a load with a clear path. */
  lemma HarmlessStart(show: Value -> string, tables: map<string, Table>, path: seq<string>, items: seq<Item>)
    requires (forall x :: x in items ==> x.0 in tables) && Harmless(tables, path, items)
    ensures ToTablesAfter(show, tables, path, items) == ToTables(show, tables, items)
  {
    hide ToTree, SameSeparators, TopKey;
    ClearStart(show, tables, [], items);
    if path != [] && items != [] && items[0].1.Obj? {
      TreeSame(show, path[0], items[0].0, tables[items[0].0].container, items[0].1.fields);
    }
  }

  /**
   A path left by another table is harmless to every load that starts with a given table
   exactly when all leaf-lists of that table have the same separators under both names.
   */
  lemma HarmlessIff(show: Value -> string, tables: map<string, Table>, path: seq<string>, table: string)
    requires table in tables && SchemaOk(tables[table].container) && Reachable(tables[table].container) && path != []
    ensures SameSeparators(path[0], table, tables[table].container) <==>
            forall items: seq<Item> :: items != [] && items[0].0 == table && (forall x :: x in items ==> x.0 in tables) ==>
              ToTablesAfter(show, tables, path, items) == ToTables(show, tables, items)
  {
    hide ToTables, ToTablesAfter, SchemaOk, Reachable, SameSeparators, Unequal;
    var c := tables[table].container;
    if SameSeparators(path[0], table, c) {
      forall items: seq<Item> | items != [] && items[0].0 == table && (forall x :: x in items ==> x.0 in tables)
        ensures ToTablesAfter(show, tables, path, items) == ToTables(show, tables, items)
      {
        HarmlessStart(show, tables, path, items);
      }
    } else {
      var w := TreeUnlike(show, path[0], table, c);
      TableUnlike(show, tables, path, table, w);
    }
  }

  lemma TableUnlike(show: Value -> string, tables: map<string, Table>, path: seq<string>, table: string, w: seq<Item>)
    requires table in tables && path != [] && Unequal(show, path[0], table, tables[table].container, w)
    ensures var items := [(table, Obj(w))]; ToTablesAfter(show, tables, path, items) != ToTables(show, tables, items)
  {
    hide ToTree, TopKey, ToTables, ToTablesAfter;
    var items := [(table, Obj(w))];
    ClearStart(show, tables, [], items);
    OneTable(show, tables, [], items);
    OneTable(show, tables, path, items);
  }
}
