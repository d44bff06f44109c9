/** Where the items of a table end up when its translation succeeds. */
module YangPlacement {
  import opened Texts
  import opened YangSchema
  import opened YangValues
  import opened Bindings
  import opened Dicts
  import opened YangEntries
  import opened YangEntryLaws
  import opened YangTrees
  import opened YangTreeLaws
  import opened YangTreeTrips

  // ----- what a list accepts -----

  /**
   An item a list accepts: its key has as many parts as the list has keys, and its fields are
   leaves whose values convert. A Type 1 list asks nothing of the fields, and one without an
   inner list does not even look at them.
   */
  predicate Fits(env: Env, l: YList, x: Item) {
    && |SplitOn(x.0, '|')| == |l.keys|
    && ((IsType1(l) && l.inner == []) || x.1.Obj? || x.1 == Str("") || x.1 == Lst([]))
    && (!IsType1(l) && x.1.Obj? ==> forall f :: f in x.1.fields ==> Converts(env, l.leaves, f))
  }

  lemma AcceptsIff(env: Env, l: YList, x: Item)
    ensures Accepts(env, l, x) <==> Fits(env, l, x)
  {
    hide ToData, FindLeaf, Put, SplitOn, KeyItems, AddFields, IsType1, Converts;
    var key := ExtractKey(x.0, l.keys);
    var fields := FieldsOf(x.1);
    if key.Ok? && fields.Ok? && !IsType1(l) {
      AddFieldsIff(env, l.leaves, key.value, fields.value);
    }
  }

  // ----- lists -----

  /** The items, in order, for which the k-th list is the first to accept them. */
  function Homed(env: Env, lists: seq<YList>, k: nat, items: seq<Item>): seq<Item> {
    if items == [] then []
    else if ListIndex(env, lists, items[0]) == k then [items[0]] + Homed(env, lists, k, items[1..])
    else Homed(env, lists, k, items[1..])
  }

  function NodeOf(entries: seq<Fields>): Option<Data> {
    if entries == [] then None else Some(Entries(entries))
  }

  lemma {:induction false} HomedFirst(env: Env, lists: seq<YList>, items: seq<Item>)
    requires lists != []
    ensures EntriesOf(env, lists[0], items) == EntriesOf(env, lists[0], Homed(env, lists, 0, items))
    ensures |EntriesOf(env, lists[0], items)| == |Homed(env, lists, 0, items)|
  {
    hide ToEntry;
    if items != [] {
      HomedFirst(env, lists, items[1..]);
      var homed := Homed(env, lists, 0, items);
      if ListIndex(env, lists, items[0]) == 0 {
        assert homed[0] == items[0] && homed[1..] == Homed(env, lists, 0, items[1..]);
      }
    }
  }

  lemma {:induction false} HomedLater(env: Env, lists: seq<YList>, k: nat, items: seq<Item>)
    requires 0 < k < |lists|
    ensures Homed(env, lists, k, items) == Homed(env, lists[1..], k - 1, Passed(env, lists[0], items))
  {
    hide Accepts;
    if items != [] {
      HomedLater(env, lists, k, items[1..]);
      if !Accepts(env, lists[0], items[0]) {
        var passed := Passed(env, lists[0], items);
        assert passed[0] == items[0] && passed[1..] == Passed(env, lists[0], items[1..]);
      }
    }
  }

  lemma {:induction false} ListNodeExact(env: Env, c: Container, lists: seq<YList>, k: nat, items: seq<Item>)
    requires KnownLists(c, lists) && k < |lists|
    ensures var homed := Homed(env, lists, k, items);
            && |EntriesOf(env, lists[k], homed)| == |homed|
            && Get(ListNodes(env, lists, items), lists[k].name) == NodeOf(EntriesOf(env, lists[k], homed))
    decreases |lists|
  {
    hide EntriesOf, Passed, FindList, Homed;
    var left := Passed(env, lists[0], items);
    var rest := ListNodes(env, lists[1..], left);
    KnownRest(c, lists);
    if k == 0 {
      HomedFirst(env, lists, items);
      ListNodeNames(env, lists[1..], left);
      GetAbsent(rest, lists[0].name);
    } else {
      HomedLater(env, lists, k, items);
      ListNodeExact(env, c, lists[1..], k - 1, left);
      assert ListNames(lists[1..])[k-1] == lists[k].name;
      if EntriesOf(env, lists[0], items) != [] {
        var nodes := ListNodes(env, lists, items);
        assert nodes[1..] == rest && nodes[0].0 == lists[0].name;
      }
    }
  }

  // ----- the three parts of a tree -----

  /** The parts a tree is made of: list nodes, container nodes and leaves. */
  predicate Built(env: Env, c: Container, items: seq<Item>, ln: Fields, cn: Fields, dn: Fields) {
    var left := Unlisted(env, ActiveLists(c), items);
    && ln == ListNodes(env, ActiveLists(c), items)
    && (if left == [] then cn == [] else ContainerNodes(env, c, 0, left) == Ok(cn))
    && DataOf(env, c.leaves, Uncontained(c.containers, left)) == Ok(dn)
  }

  lemma TreeParts(env: Env, c: Container, items: seq<Item>) returns (ln: Fields, cn: Fields, dn: Fields)
    requires ToTree(env, c, items).Ok?
    ensures Built(env, c, items, ln, cn, dn) && ToTree(env, c, items) == Ok(ln + cn + dn)
  {
    hide ListNodes, ContainerNodes, DataOf, Unlisted, Uncontained;
    var left := Unlisted(env, ActiveLists(c), items);
    ln := ListNodes(env, ActiveLists(c), items);
    cn := if left == [] then [] else ContainerNodes(env, c, 0, left).value;
    dn := DataOf(env, c.leaves, Uncontained(c.containers, left)).value;
  }

  lemma BuiltParted(env: Env, c: Container, items: seq<Item>, ln: Fields, cn: Fields, dn: Fields)
    requires SchemaOk(c) && Built(env, c, items, ln, cn, dn)
    ensures Parted(c, ln, cn, dn)
  {
    hide SchemaOk, ListNodes, ContainerNodes, DataOf, Unlisted, Uncontained, FindLeaf, ListNamed;
    var left := Unlisted(env, ActiveLists(c), items);
    ListNodeNames(env, ActiveLists(c), items);
    if left != [] {
      ContainerNodeNames(env, c, 0, left);
    }
    DataNames(env, c.leaves, Uncontained(c.containers, left));
    forall f | f in ln
      ensures ListNamed(c, f.0)
    {
      ActiveNameKnown(c, f.0);
    }
  }

  lemma ActiveNameKnown(c: Container, n: string)
    requires n in ListNames(ActiveLists(c))
    ensures ListNamed(c, n)
  {
    hide ListNamed;
    ListNameKnown(c, n);
  }

  /** A name is looked up in the part of its kind. */
  lemma PartGet(c: Container, ln: Fields, cn: Fields, dn: Fields, n: string)
    requires SchemaOk(c) && Parted(c, ln, cn, dn)
    ensures ListNamed(c, n) ==> Get(ln + cn + dn, n) == Get(ln, n)
    ensures ContainerNamed(c, n) ==> Get(ln + cn + dn, n) == Get(cn, n)
    ensures LeafNamed(c, n) ==> Get(ln + cn + dn, n) == Get(dn, n)
    ensures !ListNamed(c, n) && !ContainerNamed(c, n) && !LeafNamed(c, n) ==> Get(ln + cn + dn, n) == None
  {
    hide SchemaOk, ListNamed, ContainerNamed, LeafNamed, Get;
    SiblingsApart(c, n);
    GetFirst(ln + cn, dn, n);
    GetFirst(ln, cn, n);
  }

  /**
   A list of a translated table holds one entry for each item that it is the first list to
   accept, in the order of the table, and nothing else.
   */
  lemma ListHoldsItsItems(env: Env, c: Container, items: seq<Item>, k: nat)
    requires SchemaOk(c) && ToTree(env, c, items).Ok? && k < |ActiveLists(c)|
    ensures var l := ActiveLists(c)[k];
            var homed := Homed(env, ActiveLists(c), k, items);
            && |EntriesOf(env, l, homed)| == |homed|
            && Get(ToTree(env, c, items).value, l.name) == NodeOf(EntriesOf(env, l, homed))
  {
    hide SchemaOk, ToTree, ListNodes, ContainerNodes, DataOf, Homed, EntriesOf, Get, KnownLists, ContainersOk, Unlisted,
      Uncontained, Parted, ListNamed, ContainerNamed, LeafNamed;
    var lists := ActiveLists(c);
    SchemaKnown(c);
    ListNodeExact(env, c, lists, k, items);
    var ln, cn, dn := TreeParts(env, c, items);
    BuiltParted(env, c, items, ln, cn, dn);
    assert ListNames(lists)[k] == lists[k].name;
    ActiveNameKnown(c, lists[k].name);
    PartGet(c, ln, cn, dn, lists[k].name);
  }

  // ----- containers and leaves -----

  lemma {:induction false} GetDel<V>(items: seq<(string, V)>, name: string, n: string)
    requires n != name
    ensures Get(Del(items, name), n) == Get(items, n)
  {
    if items != [] {
      GetDel(items[1..], name, n);
    }
  }

  lemma {:induction false} UncontainedGet(cs: seq<Container>, items: seq<Item>, n: string)
    requires forall i :: 0 <= i < |cs| ==> cs[i].name != n
    ensures Get(Uncontained(cs, items), n) == Get(items, n)
    decreases |cs|
  {
    hide Get, Del;
    if cs != [] {
      GetDel(items, cs[0].name, n);
      UncontainedGet(cs[1..], if Get(items, cs[0].name).Some? then Del(items, cs[0].name) else items, n);
    }
  }

  /** The node of each container comes from the item with its name. */
  lemma {:induction false} ContainerNodeExact(env: Env, c: Container, n: nat, items: seq<Item>, k: nat)
    requires ContainersOk(c) && n <= k < |c.containers| && ContainerNodes(env, c, n, items).Ok?
    ensures var name := c.containers[k].name;
            ContainerNode(env, c.containers[k], Get(items, name)) == Ok(Get(ContainerNodes(env, c, n, items).value, name))
    decreases k - n
  {
    hide ContainerNode, Del, FindContainer;
    var child, name := c.containers[n], c.containers[n].name;
    var node := ContainerNode(env, child, Get(items, name)).value;
    var left := if Get(items, name).Some? then Del(items, name) else items;
    var rest := ContainerNodes(env, c, n + 1, left).value;
    var nodes := ContainerNodes(env, c, n, items).value;
    ContainerNodeNames(env, c, n + 1, left);
    if n == k {
      forall f | f in rest
        ensures f.0 != name
      {
        var i :| n + 1 <= i < |c.containers| && c.containers[i].name == f.0;
      }
    } else {
      GetDel(items, name, c.containers[k].name);
      ContainerNodeExact(env, c, n + 1, left, k);
      if node.Some? {
        assert nodes[1..] == rest && nodes[0].0 == name;
      }
    }
  }

  /** Each leaf holds the converted value of the item with its name. */
  lemma {:induction false} DataExact(env: Env, leaves: seq<Leaf>, items: seq<Item>, n: string)
    requires DataOf(env, leaves, items).Ok?
    ensures match Get(items, n)
            case None => Get(DataOf(env, leaves, items).value, n) == None
            case Some(v) =>
              && FindLeaf(leaves, n).Some? && ToData(env, FindLeaf(leaves, n).value, v).Ok?
              && Get(DataOf(env, leaves, items).value, n) == Some(ToData(env, FindLeaf(leaves, n).value, v).value)
  {
    hide ToData, FindLeaf;
    if items != [] {
      DataExact(env, leaves, items[1..], n);
      var d := DataOf(env, leaves, items).value;
      assert d[1..] == DataOf(env, leaves, items[1..]).value;
    }
  }

  /**
   What a translated table holds under each name that is not a list's: under a container's
   name the node of the item no list took, under a leaf's name its converted value, and
   nothing under any other name.
   */
  lemma TreeExact(env: Env, c: Container, items: seq<Item>, n: string)
    requires SchemaOk(c) && ToTree(env, c, items).Ok?
    ensures var left := Unlisted(env, ActiveLists(c), items);
            var node := Get(ToTree(env, c, items).value, n);
            && (FindContainer(c.containers, n).Some? ==>
                  if left == [] then node == None
                  else ContainerNode(env, FindContainer(c.containers, n).value, Get(left, n)) == Ok(node))
            && (FindLeaf(c.leaves, n).Some? ==>
                  if Get(left, n).None? then node == None
                  else node.Some? && ToData(env, FindLeaf(c.leaves, n).value, Get(left, n).value) == Ok(node.value))
            && (node.Some? ==> ListNamed(c, n) || FindContainer(c.containers, n).Some? || FindLeaf(c.leaves, n).Some?)
  {
    hide SchemaOk, ToTree, ListNodes, ContainerNodes, DataOf, Get, Unlisted, Uncontained, Parted, ListNamed,
      ContainerNode, ToData, FindLeaf, FindContainer, ContainersOk, KnownLists, NamedFrom, ActiveLists;
    var left := Unlisted(env, ActiveLists(c), items);
    var ln, cn, dn := TreeParts(env, c, items);
    BuiltParted(env, c, items, ln, cn, dn);
    PartGet(c, ln, cn, dn, n);
    SchemaKnown(c);
    SiblingsApart(c, n);
    ContainerFound(c, n);
    if ContainerNamed(c, n) {
      var k :| 0 <= k < |c.containers| && c.containers[k].name == n;
      ContainerAt(c, k);
      if left != [] {
        ContainerNodeExact(env, c, 0, left, k);
      }
    } else if LeafNamed(c, n) {
      UncontainedGet(c.containers, left, n);
      DataExact(env, c.leaves, Uncontained(c.containers, left), n);
    }
  }

  lemma ContainerAt(c: Container, k: nat)
    requires ContainersOk(c) && k < |c.containers|
    ensures FindContainer(c.containers, c.containers[k].name) == Some(c.containers[k])
  {
    hide FindContainer;
  }

  lemma ContainerFound(c: Container, n: string)
    requires SchemaOk(c)
    ensures FindContainer(c.containers, n).Some? <==> ContainerNamed(c, n)
  {
    hide SchemaOk, FindContainer, ContainersOk, KnownLists;
    SchemaKnown(c);
    if ContainerNamed(c, n) {
      var k :| 0 <= k < |c.containers| && c.containers[k].name == n;
      ContainerAt(c, k);
    }
    if FindContainer(c.containers, n).Some? {
      var k :| 0 <= k < |c.containers| && c.containers[k] == FindContainer(c.containers, n).value;
    }
  }

  // ----- no name twice -----

  lemma {:induction false} ListNodesDistinct(env: Env, c: Container, lists: seq<YList>, items: seq<Item>)
    requires KnownLists(c, lists)
    ensures Distinct(ListNodes(env, lists, items))
    decreases |lists|
  {
    hide EntriesOf, Passed, FindList;
    if lists != [] {
      var left := Passed(env, lists[0], items);
      KnownRest(c, lists);
      ListNodesDistinct(env, c, lists[1..], left);
      ListNodeNames(env, lists[1..], left);
    }
  }

  lemma {:induction false} ContainerNodesDistinct(env: Env, c: Container, n: nat, items: seq<Item>)
    requires ContainersOk(c) && n <= |c.containers| && ContainerNodes(env, c, n, items).Ok?
    ensures Distinct(ContainerNodes(env, c, n, items).value)
    decreases |c.containers| - n
  {
    hide ContainerNode, Del, Get, FindContainer;
    if n < |c.containers| {
      var name := c.containers[n].name;
      var left := if Get(items, name).Some? then Del(items, name) else items;
      ContainerNodesDistinct(env, c, n + 1, left);
      ContainerNodeNames(env, c, n + 1, left);
      forall f | f in ContainerNodes(env, c, n + 1, left).value
        ensures f.0 != name
      {
        var i :| n + 1 <= i < |c.containers| && c.containers[i].name == f.0;
      }
    }
  }

  lemma {:induction false} DataDistinct(env: Env, leaves: seq<Leaf>, items: seq<Item>)
    requires Distinct(items) && DataOf(env, leaves, items).Ok?
    ensures Distinct(DataOf(env, leaves, items).value)
    ensures Names(DataOf(env, leaves, items).value) == Names(items)
  {
    hide ToData, FindLeaf;
    if items != [] {
      DataDistinct(env, leaves, items[1..]);
      var d, rest := DataOf(env, leaves, items).value, DataOf(env, leaves, items[1..]).value;
      assert d[1..] == rest && d[0].0 == items[0].0;
      forall j | 0 < j < |d|
        ensures d[j].0 == items[j].0
      {
        assert rest[j-1].0 == Names(rest)[j-1] == Names(items[1..])[j-1] == items[1..][j-1].0;
      }
    }
  }

  /** A translated table holds every name at most once. */
  lemma TreeDistinct(env: Env, c: Container, items: seq<Item>)
    requires SchemaOk(c) && Distinct(items) && ToTree(env, c, items).Ok?
    ensures Distinct(ToTree(env, c, items).value)
  {
    hide SchemaOk, Distinct, ToTree, ListNodes, ContainerNodes, DataOf, Unlisted, Uncontained, ListNamed, ContainerNamed, LeafNamed,
      ContainersOk, KnownLists, ActiveLists;
    var left := Unlisted(env, ActiveLists(c), items);
    var ln, cn, dn := TreeParts(env, c, items);
    SchemaKnown(c);
    ListNodesDistinct(env, c, ActiveLists(c), items);
    NothingDistinct();
    if left != [] {
      ContainerNodesDistinct(env, c, 0, left);
    }
    ListedDistinct(env, ActiveLists(c), items);
    ContainedDistinct(c, 0, left);
    assert c.containers[0..] == c.containers;
    DataDistinct(env, c.leaves, Uncontained(c.containers, left));
    BuiltParted(env, c, items, ln, cn, dn);
    KindsApart(c, ln, cn, dn);
    DistinctAppend(ln, cn);
    DistinctAppend(ln + cn, dn);
  }

  lemma NothingDistinct()
    ensures Distinct<Data>([])
  {
  }

  lemma KindsApart(c: Container, ln: Fields, cn: Fields, dn: Fields)
    requires SchemaOk(c) && Parted(c, ln, cn, dn)
    ensures forall x, y :: x in ln && y in cn ==> x.0 != y.0
    ensures forall x, y :: x in ln + cn && y in dn ==> x.0 != y.0
  {
    hide SchemaOk, ListNamed, ContainerNamed, LeafNamed;
    forall x | x in ln + cn
      ensures x in ln ==> !ContainerNamed(c, x.0)
      ensures !LeafNamed(c, x.0)
    {
      SiblingsApart(c, x.0);
    }
  }

  // ----- the place of an item -----

  lemma {:induction false} EntryPlaced(env: Env, l: YList, items: seq<Item>, x: Item)
    requires x in items && Accepts(env, l, x)
    ensures ToEntry(env, l, x).value in EntriesOf(env, l, items)
  {
    hide ToEntry;
    if items[0] != x {
      EntryPlaced(env, l, items[1..], x);
    }
  }

  lemma {:induction false} HomedHas(env: Env, lists: seq<YList>, k: nat, items: seq<Item>, x: Item)
    ensures x in Homed(env, lists, k, items) <==> x in items && ListIndex(env, lists, x) == k
  {
    hide ListIndex;
    if items != [] {
      HomedHas(env, lists, k, items[1..], x);
      assert items == [items[0]] + items[1..];
    }
  }

  /** Where an item of a table ends up. */
  predicate Placed(env: Env, c: Container, x: Item, tree: Fields) {
    match FirstList(env, ActiveLists(c), x)
    case Some(l) =>
      var node := Get(tree, l.name);
      node.Some? && node.value.Entries? && ToEntry(env, l, x).value in node.value.entries
    case None =>
      match FindContainer(c.containers, x.0)
      case Some(child) => ContainerNode(env, child, Some(x.1)) == Ok(Get(tree, x.0))
      case None =>
        match FindLeaf(c.leaves, x.0)
        case Some(leaf) => Get(tree, x.0).Some? && ToData(env, leaf, x.1) == Ok(Get(tree, x.0).value)
        case None => false
  }

  /**
   Every item of a translated table is in the tree: as an entry of the first list that accepts
   it, else as the node of the container with its name, else as the value of the leaf with
   its name.
   */
  lemma EveryItemPlaced(env: Env, c: Container, items: seq<Item>, x: Item)
    requires SchemaOk(c) && Distinct(items) && ToTree(env, c, items).Ok? && x in items
    ensures Placed(env, c, x, ToTree(env, c, items).value)
  {
    hide SchemaOk, Distinct, ToTree, ToEntry, ContainerNode, ToData, Get, Unlisted, ContainersOk, KnownLists, ListNamed, FirstList,
      FindContainer, FindLeaf, ActiveLists, Homed, EntriesOf;
    var lists := ActiveLists(c);
    var left := Unlisted(env, lists, items);
    SchemaKnown(c);
    ListedExact(env, lists, items, x);
    match FirstList(env, lists, x)
    case Some(l) =>
      var k := ListIndex(env, lists, x);
      ListIndexIs(env, lists, x);
      ListHoldsItsItems(env, c, items, k);
      HomedHas(env, lists, k, items, x);
      EntryPlaced(env, l, Homed(env, lists, k, items), x);
    case None =>
      ListedDistinct(env, lists, items);
      var i :| 0 <= i < |left| && left[i] == x;
      GetAt(left, i);
      TreeExact(env, c, items, x.0);
      UnlistedFits(env, c, items, x);
  }

  /** An item no list takes is named like a container or a leaf. */
  lemma UnlistedFits(env: Env, c: Container, items: seq<Item>, x: Item)
    requires SchemaOk(c) && Distinct(items) && ToTree(env, c, items).Ok? && x in Unlisted(env, ActiveLists(c), items)
    ensures FindContainer(c.containers, x.0).Some? || FindLeaf(c.leaves, x.0).Some?
  {
    hide SchemaOk, Distinct, ListNodes, ContainerNodes, DataOf, KnownLists, ContainersOk, Unlisted, Uncontained, NamedFrom,
      FindContainer, FindLeaf, ActiveLists;
    var left := Unlisted(env, ActiveLists(c), items);
    SchemaKnown(c);
    ListedDistinct(env, ActiveLists(c), items);
    ContainedExact(c, 0, left, x);
    FindContainerExact(c, x.0);
    assert c.containers[0..] == c.containers;
    if x in Uncontained(c.containers, left) {
      LeafOrFail(env, c.leaves, Uncontained(c.containers, left), x);
    }
  }

  lemma {:induction false} LeafOrFail(env: Env, leaves: seq<Leaf>, items: seq<Item>, x: Item)
    requires DataOf(env, leaves, items).Ok? && x in items
    ensures FindLeaf(leaves, x.0).Some?
  {
    hide FindLeaf, ToData;
    if items[0] != x {
      LeafOrFail(env, leaves, items[1..], x);
    }
  }

  // ----- when a table is translated -----

  lemma {:induction false} DataOkIff(env: Env, leaves: seq<Leaf>, items: seq<Item>)
    ensures DataOf(env, leaves, items).Ok? <==> forall x :: x in items ==> Converts(env, leaves, x)
  {
    hide ToData, FindLeaf;
    if items != [] {
      DataOkIff(env, leaves, items[1..]);
      assert items[0] in items && forall x :: x in items <==> x == items[0] || x in items[1..];
    }
  }

  lemma {:induction false} NodesOkIff(env: Env, c: Container, n: nat, items: seq<Item>)
    requires ContainersOk(c) && n <= |c.containers|
    ensures ContainerNodes(env, c, n, items).Ok? <==>
            forall k :: n <= k < |c.containers| ==> ContainerNode(env, c.containers[k], Get(items, c.containers[k].name)).Ok?
    decreases |c.containers| - n
  {
    hide ContainerNode, Del, FindContainer, Get;
    if n < |c.containers| {
      var name := c.containers[n].name;
      var left := if Get(items, name).Some? then Del(items, name) else items;
      forall k | n + 1 <= k < |c.containers|
        ensures Get(left, c.containers[k].name) == Get(items, c.containers[k].name)
      {
        GetDel(items, name, c.containers[k].name);
      }
      NodesOkIff(env, c, n + 1, left);
    }
  }

  /** An item that some list accepts, or else a container or a leaf. */
  predicate Placeable(env: Env, c: Container, x: Item) {
    || FirstList(env, ActiveLists(c), x).Some?
    || match FindContainer(c.containers, x.0)
       case Some(child) => ContainerNode(env, child, Some(x.1)).Ok?
       case None => Converts(env, c.leaves, x)
  }

  /** A table is translated exactly when each of its items can be placed. */
  lemma TreeOkIff(env: Env, c: Container, items: seq<Item>)
    requires SchemaOk(c) && Distinct(items)
    ensures ToTree(env, c, items).Ok? <==> forall x :: x in items ==> Placeable(env, c, x)
  {
    hide SchemaOk, Distinct, ListNodes, ContainerNodes, ContainerNode, DataOf, Get, Unlisted, ContainersOk, KnownLists, FirstList,
      FindContainer, Converts, ActiveLists, NamedFrom, Uncontained;
    var left := Unlisted(env, ActiveLists(c), items);
    var rest := Uncontained(c.containers, left);
    SchemaKnown(c);
    ListedDistinct(env, ActiveLists(c), items);
    assert c.containers[0..] == c.containers;
    forall x
      ensures x in left <==> x in items && FirstList(env, ActiveLists(c), x).None?
      ensures x in rest <==> x in left && FindContainer(c.containers, x.0).None?
    {
      ListedExact(env, ActiveLists(c), items, x);
      ContainedExact(c, 0, left, x);
      FindContainerExact(c, x.0);
    }
    DataOkIff(env, c.leaves, rest);
    NodesOkIff(env, c, 0, left);
    NodesByItems(env, c, left);
    if left == [] {
      NothingLeft(c.containers);
    }
  }

  /** Containers without an item are never in the way. */
  lemma NodesByItems(env: Env, c: Container, left: seq<Item>)
    requires ContainersOk(c) && Distinct(left)
    ensures (forall k :: 0 <= k < |c.containers| ==> ContainerNode(env, c.containers[k], Get(left, c.containers[k].name)).Ok?) <==>
            (forall x :: x in left && FindContainer(c.containers, x.0).Some? ==>
               ContainerNode(env, FindContainer(c.containers, x.0).value, Some(x.1)).Ok?)
  {
    hide FindContainer, Get, Distinct, ToTree;
    forall k | 0 <= k < |c.containers|
      ensures ContainerNode(env, c.containers[k], None).Ok?
      ensures FindContainer(c.containers, c.containers[k].name) == Some(c.containers[k])
    {
      ContainerAt(c, k);
    }
    if forall k :: 0 <= k < |c.containers| ==> ContainerNode(env, c.containers[k], Get(left, c.containers[k].name)).Ok? {
      forall x | x in left && FindContainer(c.containers, x.0).Some?
        ensures ContainerNode(env, FindContainer(c.containers, x.0).value, Some(x.1)).Ok?
      {
        var k :| 0 <= k < |c.containers| && c.containers[k] == FindContainer(c.containers, x.0).value;
        var i :| 0 <= i < |left| && left[i] == x;
        GetAt(left, i);
      }
    }
  }
}
