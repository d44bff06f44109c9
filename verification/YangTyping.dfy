/** What the YANG data of a table looks like: typed values, list entries, and the place of a table. */
module YangTyping {
  import opened Texts
  import opened Decimals
  import opened YangSchema
  import opened YangValues
  import opened Bindings
  import opened Dicts
  import opened YangEntries
  import opened YangEntryLaws
  import opened YangEntryTrips
  import opened YangKeyLaws
  import opened YangTrees
  import opened YangTreeLaws
  import opened YangTreeTrips
  import opened YangPlacement
  import opened YangTables

  // ----- scalars -----

  /** An unsigned integer is the number its text says, or an error; any other value is its text. */
  lemma ScalarTyped(env: Env, leaf: Leaf, s: string)
    requires !leaf.isList
    ensures ToData(env, leaf, Str(s)) ==
            if !leaf.base.Uint? then Ok(One(Text(s)))
            else if IsPyInt(s) then Ok(One(Num(PyInt(s))))
            else Err
  {
    hide ReadInt, IsPyInt, PyInt;
    ReadIntIff(s);
  }

  /** In particular a plain decimal numeral, whatever the width. */
  lemma NumberTyped(env: Env, leaf: Leaf, n: nat)
    requires !leaf.isList && leaf.base.Uint?
    ensures ToData(env, leaf, Str(Decimal(n))) == Ok(One(Num(n)))
  {
    hide ToData, IsPyInt, PyInt;
    ScalarTyped(env, leaf, Decimal(n));
    DecimalReads(n);
  }

  /** A list or dictionary given for a scalar counts as the text Python prints for it. */
  lemma ScalarShown(env: Env, leaf: Leaf, v: Value)
    requires !leaf.isList && !v.Str?
    ensures ToData(env, leaf, v) == ToData(env, leaf, Str(env.show(v)))
  {
  }

  // ----- leaf-lists -----

  lemma {:induction false} ConvertAllTyped(base: Base, ss: seq<string>)
    ensures match ConvertAll(base, ss)
            case Err => base.Uint? && exists s :: s in ss && !IsPyInt(s)
            case Ok(xs) =>
              forall i :: 0 <= i < |ss| ==>
                if base.Uint? then IsPyInt(ss[i]) && xs[i] == Num(PyInt(ss[i])) else xs[i] == Text(ss[i])
  {
    hide ReadInt, IsPyInt, PyInt;
    if ss != [] {
      ReadIntIff(ss[0]);
      ConvertAllTyped(base, ss[1..]);
      assert ss[0] in ss && forall s :: s in ss[1..] ==> s in ss;
      assert forall i :: 0 < i < |ss| ==> ss[i] == ss[1..][i-1];
    }
  }

  /** A list is typed element by element; the empty text is an element only where the schema has a default. */
  lemma ElementsTyped(env: Env, leaf: Leaf, items: seq<string>)
    requires leaf.isList && (if leaf.hasDefault then items != [] else "" !in items)
    ensures match ToData(env, leaf, Lst(items))
            case Err => leaf.base.Uint? && exists s :: s in items && !IsPyInt(s)
            case Ok(d) =>
              && d.Many? && |d.scalars| == |items|
              && forall i :: 0 <= i < |items| ==>
                   if leaf.base.Uint? then IsPyInt(items[i]) && d.scalars[i] == Num(PyInt(items[i]))
                   else d.scalars[i] == Text(items[i])
  {
    hide ConvertAll, Kept, IsPyInt, PyInt;
    KeptAll(leaf, items);
    ConvertAllTyped(leaf.base, items);
  }

  lemma {:induction false} KeptWithout(leaf: Leaf, a: seq<string>, b: seq<string>)
    requires !leaf.hasDefault
    ensures Kept(leaf, a + [""] + b) == Kept(leaf, a + b)
  {
    var all := a + [""] + b;
    if a == [] {
      assert all == [""] + b && a + b == b && all[1..] == b;
    } else {
      KeptWithout(leaf, a[1..], b);
      assert all[1..] == a[1..] + [""] + b && (a + b)[1..] == a[1..] + b;
    }
  }

  /** Without a default, empty texts in a list leave no trace. */
  lemma EmptyElement(env: Env, leaf: Leaf, a: seq<string>, b: seq<string>)
    requires leaf.isList && !leaf.hasDefault
    ensures ToData(env, leaf, Lst(a + [""] + b)) == ToData(env, leaf, Lst(a + b))
  {
    hide ConvertAll, Kept;
    KeptWithout(leaf, a, b);
  }

  /** An empty list is refused exactly where the schema has a default. */
  lemma EmptyList(env: Env, leaf: Leaf)
    requires leaf.isList
    ensures ToData(env, leaf, Lst([])) == if leaf.hasDefault then Err else Ok(Many([]))
  {
  }

  /** The fields, by table, that ConfigDB keeps as one text although the schema has a list, and what separates the elements. */
  const SEPARATED: map<(string, string), char> := map[
    ("MIRROR_SESSION", "src_ip") := ',', ("NTP", "src_intf") := ';',
    ("BGP_ALLOWED_PREFIXES", "prefixes_v4") := ',', ("BGP_ALLOWED_PREFIXES", "prefixes_v6") := ',',
    ("BUFFER_PORT_EGRESS_PROFILE_LIST", "profile_list") := ',', ("BUFFER_PORT_INGRESS_PROFILE_LIST", "profile_list") := ',',
    ("PORT", "adv_speeds") := ',', ("PORT", "adv_interface_types") := ',']

  lemma SeparatorIs(table: string, field: string)
    ensures Separator(table, field) == if (table, field) in SEPARATED then Some(SEPARATED[(table, field)]) else None
  {
  }

  /** A text for a leaf-list without a separator counts as the list of its characters. */
  lemma TextByCharacter(env: Env, leaf: Leaf, s: string)
    requires leaf.isList && (env.table, leaf.name) !in SEPARATED
    ensures ToData(env, leaf, Str(s)) == ToData(env, leaf, Lst(seq(|s|, i requires 0 <= i < |s| => [s[i]])))
  {
    hide ConvertAll, Kept, Separator;
    SeparatorIs(env.table, leaf.name);
    assert Characters(s) == seq(|s|, i requires 0 <= i < |s| => [s[i]]);
  }

  /** A text for a separated leaf-list counts as the list of its pieces without their outer blanks. */
  lemma TextByPiece(env: Env, leaf: Leaf, pieces: seq<string>, c: char)
    requires leaf.isList && (env.table, leaf.name) in SEPARATED && c == SEPARATED[(env.table, leaf.name)]
    requires pieces != [] && forall p :: p in pieces ==> c !in p
    ensures ToData(env, leaf, Str(JoinOn(pieces, c))) == ToData(env, leaf, Lst(StripAll(pieces)))
  {
    hide ConvertAll, Kept, Separator, SplitOn, JoinOn, Strip;
    SeparatorIs(env.table, leaf.name);
    SplitOfJoin(pieces, c);
  }

  /** A dictionary for a leaf-list counts as the list of its names. */
  lemma DictByName(env: Env, leaf: Leaf, fields: seq<Item>)
    requires leaf.isList
    ensures ToData(env, leaf, Obj(fields)) == ToData(env, leaf, Lst(Names(fields)))
  {
    hide ConvertAll, Kept;
  }

  // ----- entries -----

  lemma {:induction false} AddFieldsGet(env: Env, leaves: seq<Leaf>, entry: Fields, fields: seq<Item>, n: string)
    requires Distinct(fields) && AddFields(env, leaves, entry, fields).Ok?
    ensures match Get(fields, n)
            case None => Get(AddFields(env, leaves, entry, fields).value, n) == Get(entry, n)
            case Some(v) =>
              && FindLeaf(leaves, n).Some? && ToData(env, FindLeaf(leaves, n).value, v).Ok?
              && Get(AddFields(env, leaves, entry, fields).value, n) == Some(ToData(env, FindLeaf(leaves, n).value, v).value)
    decreases |fields|
  {
    hide ToData, FindLeaf, Put;
    if fields != [] {
      var grown := AddField(env, leaves, entry, fields[0]).value;
      AddFieldsGet(env, leaves, grown, fields[1..], n);
      PutGet(entry, fields[0].0, ToData(env, FindLeaf(leaves, fields[0].0).value, fields[0].1).value, n);
      if n == fields[0].0 {
        assert Get(fields[1..], n) == None;
      }
    }
  }

  lemma {:induction false} KeyItemsGet(keys: seq<string>, parts: seq<string>, i: nat)
    requires |keys| == |parts| && i < |keys| && forall a, b :: 0 <= a < b < |keys| ==> keys[a] != keys[b]
    ensures Get(KeyItems(keys, parts), keys[i]) == Some(One(Text(parts[i])))
  {
    var items := KeyItems(keys, parts);
    assert items[0] == (keys[0], One(Text(parts[0]))) && items[1..] == KeyItems(keys[1..], parts[1..]);
    if i > 0 {
      KeyItemsGet(keys[1..], parts[1..], i - 1);
    }
  }

  lemma {:induction false} KeyItemsOther(keys: seq<string>, parts: seq<string>, n: string)
    requires |keys| == |parts| && n !in keys
    ensures Get(KeyItems(keys, parts), n) == None
  {
    if keys != [] {
      var items := KeyItems(keys, parts);
      assert items[0].0 == keys[0] && items[1..] == KeyItems(keys[1..], parts[1..]);
      KeyItemsOther(keys[1..], parts[1..], n);
    }
  }

  /**
   An entry holds each field's value in its type, the stripped parts of the primary key as
   texts under the other keys, in order, and nothing else.
   */
  lemma PlainEntryHolds(env: Env, l: YList, x: Item, n: string)
    requires KeysOk(l) && !IsType1(l) && Accepts(env, l, x) && DistinctFields(x.1)
    ensures var fields := if x.1.Obj? then x.1.fields else [];
            var held := Get(ToEntry(env, l, x).value, n);
            && |SplitOn(x.0, '|')| == |l.keys|
            && match Get(fields, n)
               case Some(v) =>
                 FindLeaf(l.leaves, n).Some? && held.Some? && ToData(env, FindLeaf(l.leaves, n).value, v) == Ok(held.value)
               case None =>
                 && (forall i :: 0 <= i < |l.keys| && l.keys[i] == n ==> held == Some(One(Text(Strip(SplitOn(x.0, '|')[i])))))
                 && (n !in l.keys ==> held == None)
  {
    hide ToData, FindLeaf, Put, SplitOn, KeyItems, AddFields, IsType1, Strip, Distinct;
    var parts := StripAll(SplitOn(x.0, '|'));
    var fields := if x.1.Obj? then x.1.fields else [];
    NoFieldsDistinct();
    AddFieldsGet(env, l.leaves, KeyItems(l.keys, parts), fields, n);
    if n in l.keys {
      var i :| 0 <= i < |l.keys| && l.keys[i] == n;
      KeyItemsGet(l.keys, parts, i);
    } else {
      KeyItemsOther(l.keys, parts, n);
    }
  }

  lemma NoFieldsDistinct()
    ensures Distinct<Value>([])
  {
  }

  lemma {:induction false} InnerEntriesAt(env: Env, inner: InnerList, fields: seq<Item>, i: nat)
    requires i < |fields|
    ensures InnerEntries(env, inner, fields)[i] == InnerEntry(env, inner, fields[i])
  {
    hide InnerEntry;
    if i > 0 {
      InnerEntriesAt(env, inner, fields[1..], i - 1);
    }
  }

  /**
   A Type 1 entry holds one inner entry per field, in order: the field's name under the inner
   key and its text under the last other leaf of the inner list.
   */
  lemma Type1EntryHolds(env: Env, l: YList, x: Item)
    requires ListOk(l) && IsType1(l) && l.inner != [] && Accepts(env, l, x)
    ensures var inner, fields := l.inner[0], if x.1.Obj? then x.1.fields else [];
            var held := Get(ToEntry(env, l, x).value, inner.name);
            && held.Some? && held.value.Entries? && |held.value.entries| == |fields|
            && (forall i :: 0 <= i < |fields| ==>
                  && |held.value.entries[i]| == 2
                  && Get(held.value.entries[i], inner.keys[0]) == Some(One(Text(fields[i].0)))
                  && Get(held.value.entries[i], InnerValue(inner)) == Some(One(Text(AsText(env, fields[i].1)))))
            && |SplitOn(x.0, '|')| == |l.keys|
            && forall i :: 0 <= i < |l.keys| ==>
                 Get(ToEntry(env, l, x).value, l.keys[i]) == Some(One(Text(Strip(SplitOn(x.0, '|')[i]))))
  {
    hide SplitOn, KeyItems, IsType1, Strip, Put, InnerEntries, FindLeaf, InnerEntry;
    var inner, fields := l.inner[0], if x.1.Obj? then x.1.fields else [];
    var parts := StripAll(SplitOn(x.0, '|'));
    var es := InnerEntries(env, inner, fields);
    PutGet(KeyItems(l.keys, parts), inner.name, Entries(es), inner.name);
    forall i | 0 <= i < |fields|
      ensures |es[i]| == 2
      ensures Get(es[i], inner.keys[0]) == Some(One(Text(fields[i].0)))
      ensures Get(es[i], InnerValue(inner)) == Some(One(Text(AsText(env, fields[i].1))))
    {
      InnerEntriesAt(env, inner, fields, i);
      InnerEntryHolds(env, inner, fields[i]);
    }
    forall i | 0 <= i < |l.keys|
      ensures Get(ToEntry(env, l, x).value, l.keys[i]) == Some(One(Text(Strip(SplitOn(x.0, '|')[i]))))
    {
      KeyItemsGet(l.keys, parts, i);
      PutGet(KeyItems(l.keys, parts), inner.name, Entries(es), l.keys[i]);
    }
  }

  lemma InnerEntryHolds(env: Env, inner: InnerList, f: Item)
    requires InnerShape(inner)
    ensures inner.keys != [] && |InnerEntry(env, inner, f)| == 2
    ensures Get(InnerEntry(env, inner, f), inner.keys[0]) == Some(One(Text(f.0)))
    ensures Get(InnerEntry(env, inner, f), InnerValue(inner)) == Some(One(Text(AsText(env, f.1))))
  {
    hide LastOther, FindLeaf;
    var first: Fields := [(InnerKey(inner), One(Text(f.0)))];
    PutNew(first, InnerValue(inner), One(Text(AsText(env, f.1))));
  }

  /** The value leaf of an inner list is the last of its leaves that is not the key. */
  lemma {:induction false} InnerValueIs(leaves: seq<Leaf>, key: string, i: nat)
    requires i < |leaves| && leaves[i].name != key && forall j :: i < j < |leaves| ==> leaves[j].name == key
    ensures LastOther(leaves, key) == leaves[i].name
  {
    if i < |leaves| - 1 {
      InnerValueIs(leaves[..|leaves|-1], key, i);
    }
  }

  // ----- inner containers -----

  /**
   Under the name of an inner container a table that has items outside lists holds a node: an
   empty one if no item or an empty value is given for it, else the data of the dictionary
   given, if there is any.
   */
  lemma InnerContainerHolds(env: Env, c: Container, items: seq<Item>, i: nat)
    requires SchemaOk(c) && ToTree(env, c, items).Ok? && i < |c.containers|
    ensures var child := c.containers[i];
            var left := Unlisted(env, ActiveLists(c), items);
            var node := Get(ToTree(env, c, items).value, child.name);
            if left == [] then node == None
            else
              match Get(left, child.name)
              case None => node == Some(Node([]))
              case Some(v) =>
                if v == Obj([]) || v == Str("") || v == Lst([]) then node == Some(Node([]))
                else
                  && v.Obj? && ToTree(env, child, v.fields).Ok?
                  && var fields := ToTree(env, child, v.fields).value; node == if fields == [] then None else Some(Node(fields))
  {
    hide SchemaOk, ToTree, Unlisted, ActiveLists, Get, FindContainer, ContainersOk, KnownLists;
    SchemaKnown(c);
    ContainerAt(c, i);
    TreeExact(env, c, items, c.containers[i].name);
  }

  // ----- lists that take part -----

  /** A single list under another name than the container's with "_LIST" takes nothing. */
  lemma OddListIgnored(env: Env, c: Container, items: seq<Item>)
    requires SchemaOk(c) && |c.lists| == 1 && c.lists[0].name != c.name + "_LIST" && ToTree(env, c, items).Ok?
    ensures Get(ToTree(env, c, items).value, c.lists[0].name) == None
    ensures Unlisted(env, ActiveLists(c), items) == items
  {
    hide SchemaOk, ToTree, ListNodes, Parted, ListNamed, ContainerNamed, LeafNamed, Get, Built;
    var ln, cn, dn := TreeParts(env, c, items);
    BuiltParted(env, c, items, ln, cn, dn);
    NoListNodes(env, c, items, ln, cn, dn);
    OddName(c);
    PartGet(c, ln, cn, dn, c.lists[0].name);
  }

  lemma OddName(c: Container)
    requires |c.lists| == 1
    ensures ListNamed(c, c.lists[0].name)
  {
    assert c.lists[0] in c.lists;
  }

  lemma NoListNodes(env: Env, c: Container, items: seq<Item>, ln: Fields, cn: Fields, dn: Fields)
    requires Built(env, c, items, ln, cn, dn) && ActiveLists(c) == []
    ensures ln == [] && forall n :: Get(ln, n) == None
  {
    hide ContainerNodes, DataOf;
  }

  /** Any other list takes every item it is the first to accept. */
  lemma ListTakes(env: Env, c: Container, items: seq<Item>, k: nat, x: Item)
    requires SchemaOk(c) && Distinct(items) && ToTree(env, c, items).Ok? && x in items
    requires k < |c.lists| && (|c.lists| == 1 ==> c.lists[0].name == c.name + "_LIST")
    requires Accepts(env, c.lists[k], x) && forall j :: 0 <= j < k ==> !Accepts(env, c.lists[j], x)
    ensures var node := Get(ToTree(env, c, items).value, c.lists[k].name);
            node.Some? && node.value.Entries? && ToEntry(env, c.lists[k], x).value in node.value.entries
  {
    hide SchemaOk, Distinct, ToTree, ToEntry, Accepts, FirstList;
    assert ActiveLists(c) == c.lists;
    FirstAccepting(env, c.lists, k, x);
    EveryItemPlaced(env, c, items, x);
  }

  lemma {:induction false} FirstAccepting(env: Env, lists: seq<YList>, k: nat, x: Item)
    requires k < |lists| && Accepts(env, lists[k], x) && forall j :: 0 <= j < k ==> !Accepts(env, lists[j], x)
    ensures FirstList(env, lists, x) == Some(lists[k])
  {
    hide Accepts;
    if k > 0 {
      assert !Accepts(env, lists[0], x);
      FirstAccepting(env, lists[1..], k - 1, x);
    }
  }

  // ----- lists that are translated back -----

  lemma {:induction false} HoldsIff(s: string, sub: string)
    ensures Holds(s, sub) <==> exists i :: 0 <= i <= |s| && sub <= s[i..]
    decreases |s|
  {
    if sub <= s {
      assert s[0..] == s;
    } else if s != "" {
      HoldsIff(s[1..], sub);
      if Holds(s, sub) {
        var i :| 0 <= i <= |s[1..]| && sub <= s[1..][i..];
        assert s[1..][i..] == s[i+1..];
      }
      if exists i :: 0 <= i <= |s| && sub <= s[i..] {
        var i :| 0 <= i <= |s| && sub <= s[i..];
        assert s[0..] == s;
        assert s[1..][i-1..] == s[i..];
      }
    }
  }

  /** A list is translated back exactly when its name holds "_LIST" somewhere. */
  lemma ReturnsIff(l: YList)
    ensures Returns(l) <==> exists a, b :: l.name == a + "_LIST" + b
  {
    HoldsIff(l.name, "_LIST");
    if Returns(l) {
      var i :| 0 <= i <= |l.name| && "_LIST" <= l.name[i..];
      assert l.name == l.name[..i] + "_LIST" + l.name[i..][5..];
    }
    if a, b :| l.name == a + "_LIST" + b {
      assert l.name[|a|..] == "_LIST" + b;
    }
  }

  // ----- tables -----

  /** Each table is stored under its module and top-level container, in the order of the ConfigDB. */
  lemma {:induction false} TablesExact(show: Value -> string, tables: map<string, Table>, items: seq<Item>, i: nat)
    requires (forall x :: x in items ==> x.0 in tables) && ToTables(show, tables, items).Ok? && i < |items|
    ensures var top, t := ToTables(show, tables, items).value, tables[items[i].0];
            && |top| == |items| && items[i].1.Obj?
            && top[i].0 == (t.mod + ":" + t.top, t.top + ":" + t.container.name)
            && ToTree(Env(items[i].0, show), t.container, items[i].1.fields) == Ok(top[i].1)
  {
    hide ToTree;
    TablesCount(show, tables, items);
    if i > 0 {
      TablesExact(show, tables, items[1..], i - 1);
    }
  }

  lemma {:induction false} TablesCount(show: Value -> string, tables: map<string, Table>, items: seq<Item>)
    requires (forall x :: x in items ==> x.0 in tables) && ToTables(show, tables, items).Ok?
    ensures |ToTables(show, tables, items).value| == |items|
  {
    hide ToTree, TopKey;
    if items != [] {
      TablesCount(show, tables, items[1..]);
    }
  }
}
