/** The trip of a table is the trips of its items, collected in the order of the schema. */
module YangTreeLaws {
  import opened Texts
  import opened YangSchema
  import opened YangValues
  import opened Bindings
  import opened Dicts
  import opened YangEntries
  import opened YangEntryLaws
  import opened YangEntryTrips
  import opened YangTrees

  type Outcome = Result<seq<(string, Config)>>

  function Then(a: Outcome, b: Outcome): Outcome {
    var p :- a;
    var q :- b;
    Ok(p + q)
  }

  // ----- schemas -----

  /** Children of a container have different names, and lists are of the supported class. */
  predicate SchemaOk(c: Container) {
    && DistinctListNames(c.lists) && (forall l :: l in c.lists ==> ListOk(l))
    && (forall i, j :: 0 <= i < j < |c.containers| ==> c.containers[i].name != c.containers[j].name)
    && (forall l, child :: l in c.lists && child in c.containers ==> l.name != child.name)
    && (forall l, f :: l in c.lists && f in c.leaves ==> l.name != f.name)
    && (forall child, f :: child in c.containers && f in c.leaves ==> child.name != f.name)
    && (forall i :: 0 <= i < |c.containers| ==> SchemaOk(c.containers[i]))
  }

  // ----- one list -----

  function EntryTripper(env: Env, l: YList): Trip {
    x => EntryTrip(env, l, x)
  }

  /** Entry by entry: sent, printed and read back is the trip of the entry. */
  lemma {:induction false} EntrySteps(env: Env, l: YList, items: seq<Item>)
    ensures Collect(Taken(env, l, items), EntryTripper(env, l)) ==
            match PrintedEntries(l, EntriesOf(env, l, items))
            case Err => Err
            case Ok(es) => if Returns(l) then EntryBindings(env, l, es) else Ok([])
  {
    hide ToEntry, PrintedEntry, FromEntry, Returns;
    if items != [] {
      EntrySteps(env, l, items[1..]);
      var x := items[0];
      if Accepts(env, l, x) {
        var taken := Taken(env, l, items);
        var entries := EntriesOf(env, l, items);
        assert taken[0] == x && taken[1..] == Taken(env, l, items[1..]);
        assert entries[0] == ToEntry(env, l, x).value && entries[1..] == EntriesOf(env, l, items[1..]);
      }
    }
  }

  // ----- all lists -----

  function ListsTrip(env: Env, lists: seq<YList>, items: seq<Item>): Outcome {
    if lists == [] then Ok([])
    else
      Then(Collect(Taken(env, lists[0], items), EntryTripper(env, lists[0])),
           ListsTrip(env, lists[1..], Passed(env, lists[0], items)))
  }

  lemma {:induction false} PrintedTreeAppend(c: Container, a: Fields, b: Fields)
    ensures PrintedTree(c, a + b) ==
            match PrintedTree(c, a)
            case Err => Err
            case Ok(p) =>
              match PrintedTree(c, b)
              case Err => Err
              case Ok(q) => Ok(p + q)
  {
    hide PrintedNode;
    if a == [] {
      assert a + b == b;
      if PrintedTree(c, b).Ok? {
        SeqAssoc(PrintedTree(c, b).value, [], []);
      }
    } else {
      PrintedTreeAppend(c, a[1..], b);
      assert (a + b)[1..] == a[1..] + b;
      var d := PrintedNode(c, a[0]);
      if d.Ok? && d.value.Some? && PrintedTree(c, a[1..]).Ok? && PrintedTree(c, b).Ok? {
        SeqAssoc([(a[0].0, d.value.value)], PrintedTree(c, a[1..]).value, PrintedTree(c, b).value);
      }
    }
  }

  /** Two data trees hold the same under these names. */
  predicate Agree(p: Fields, q: Fields, names: seq<string>) {
    forall n :: n in names ==> Get(p, n) == Get(q, n)
  }

  function ListNames(lists: seq<YList>): (r: seq<string>)
    ensures |r| == |lists| && forall i :: 0 <= i < |lists| ==> r[i] == lists[i].name
  {
    seq(|lists|, i requires 0 <= i < |lists| => lists[i].name)
  }

  predicate KnownLists(c: Container, lists: seq<YList>) {
    DistinctListNames(lists) && forall l :: l in lists ==> FindList(c.lists, l.name) == Some(l)
  }

  lemma {:induction false} ListNodeNames(env: Env, lists: seq<YList>, items: seq<Item>)
    ensures forall f :: f in ListNodes(env, lists, items) ==> f.0 in ListNames(lists) && f.1.Entries?
  {
    hide EntriesOf, Passed;
    if lists != [] {
      ListNodeNames(env, lists[1..], Passed(env, lists[0], items));
      assert ListNames(lists) == [lists[0].name] + ListNames(lists[1..]);
    }
  }

  lemma {:induction false} PrintedTreeNames(c: Container, fields: Fields)
    requires PrintedTree(c, fields).Ok?
    ensures forall f :: f in PrintedTree(c, fields).value ==> exists g :: g in fields && g.0 == f.0
  {
    hide PrintedNode;
    if fields != [] {
      PrintedTreeNames(c, fields[1..]);
      forall f | f in PrintedTree(c, fields).value
        ensures exists g :: g in fields && g.0 == f.0
      {
        if f in PrintedTree(c, fields[1..]).value {
          var g :| g in fields[1..] && g.0 == f.0;
          assert g in fields;
        } else {
          assert fields[0] in fields;
        }
      }
    }
  }

  lemma {:induction false} GetAbsent(items: Fields, name: string)
    requires forall f :: f in items ==> f.0 != name
    ensures Get(items, name) == None
  {
  }

  /** The node of the first list, printed. */
  lemma ListNodePrinted(env: Env, c: Container, l: YList, items: seq<Item>, rest: Fields)
    requires FindList(c.lists, l.name) == Some(l) && EntriesOf(env, l, items) != []
    ensures var entries := EntriesOf(env, l, items);
            PrintedTree(c, [(l.name, Entries(entries))] + rest) ==
            match PrintedEntries(l, entries)
            case Err => Err
            case Ok(es) =>
              match PrintedTree(c, rest)
              case Err => Err
              case Ok(q) => Ok([(l.name, Entries(es))] + q)
  {
    hide EntriesOf, PrintedEntries;
    var node := (l.name, Entries(EntriesOf(env, l, items)));
    assert ([node] + rest)[1..] == rest;
  }

  lemma {:induction false} ListsSteps(env: Env, c: Container, lists: seq<YList>, items: seq<Item>, p: Fields)
    requires KnownLists(c, lists)
    requires var q := PrintedTree(c, ListNodes(env, lists, items)); q.Ok? && Agree(p, q.value, ListNames(lists))
    ensures ListBindings(env, lists, p) == ListsTrip(env, lists, items)
    decreases |lists|
  {
    hide EntriesOf, PrintedEntries, PrintedTree, Taken, Passed, Collect, EntryTripper, EntryBindings, Returns, Get, FindList;
    if lists != [] {
      var l := lists[0];
      var left := Passed(env, l, items);
      var rest := ListNodes(env, lists[1..], left);
      EntrySteps(env, l, items);
      KnownRest(c, lists);
      if EntriesOf(env, l, items) == [] {
        NoEntries(env, l);
        FirstAbsent(env, c, lists, left);
        AgreeRest(p, PrintedTree(c, rest).value, lists);
      } else {
        ListNodePrinted(env, c, l, items, rest);
        var es := PrintedEntries(l, EntriesOf(env, l, items)).value;
        var q := PrintedTree(c, rest).value;
        var node := (l.name, Entries(es));
        FirstPresent(p, node, q, lists);
      }
      ListsSteps(env, c, lists[1..], left, p);
    }
  }

  lemma NoEntries(env: Env, l: YList)
    ensures PrintedEntries(l, []) == Ok([]) && EntryBindings(env, l, []) == Ok([])
  {
  }

  lemma KnownRest(c: Container, lists: seq<YList>)
    requires KnownLists(c, lists) && lists != []
    ensures KnownLists(c, lists[1..]) && FindList(c.lists, lists[0].name) == Some(lists[0])
    ensures forall n :: n in ListNames(lists[1..]) ==> n != lists[0].name
  {
    hide FindList;
    assert lists[0] in lists;
  }

  lemma FirstAbsent(env: Env, c: Container, lists: seq<YList>, left: seq<Item>)
    requires KnownLists(c, lists) && lists != [] && PrintedTree(c, ListNodes(env, lists[1..], left)).Ok?
    ensures Get(PrintedTree(c, ListNodes(env, lists[1..], left)).value, lists[0].name) == None
  {
    hide PrintedTree, ListNodes, FindList;
    var rest := ListNodes(env, lists[1..], left);
    KnownRest(c, lists);
    ListNodeNames(env, lists[1..], left);
    PrintedTreeNames(c, rest);
    GetAbsent(PrintedTree(c, rest).value, lists[0].name);
  }

  lemma AgreeRest(p: Fields, q: Fields, lists: seq<YList>)
    requires lists != [] && Agree(p, q, ListNames(lists))
    ensures Get(p, lists[0].name) == Get(q, lists[0].name)
    ensures Agree(p, q, ListNames(lists[1..]))
  {
    hide Get;
    assert ListNames(lists) == [lists[0].name] + ListNames(lists[1..]);
  }

  lemma FirstPresent(p: Fields, node: (string, Data), q: Fields, lists: seq<YList>)
    requires lists != [] && node.0 == lists[0].name && Agree(p, [node] + q, ListNames(lists))
    requires forall n :: n in ListNames(lists[1..]) ==> n != node.0
    ensures Get(p, lists[0].name) == Some(node.1)
    ensures Agree(p, q, ListNames(lists[1..]))
  {
    AgreeRest(p, [node] + q, lists);
    assert ([node] + q)[1..] == q;
  }

  /** If printing the lists fails, so does the trip of one of their entries. */
  lemma {:induction false} ListsFail(env: Env, c: Container, lists: seq<YList>, items: seq<Item>)
    requires KnownLists(c, lists) && PrintedTree(c, ListNodes(env, lists, items)).Err?
    ensures ListsTrip(env, lists, items).Err?
    decreases |lists|
  {
    hide EntriesOf, PrintedEntries, PrintedTree, Taken, Passed, Collect, EntryTripper, EntryBindings, Returns, FindList;
    if lists == [] {
      EmptyPrinted(c);
    } else {
      var l := lists[0];
      var left := Passed(env, l, items);
      EntrySteps(env, l, items);
      KnownRest(c, lists);
      if EntriesOf(env, l, items) != [] {
        ListNodePrinted(env, c, l, items, ListNodes(env, lists[1..], left));
      }
      if PrintedTree(c, ListNodes(env, lists[1..], left)).Err? {
        ListsFail(env, c, lists[1..], left);
      }
    }
  }

  lemma EmptyPrinted(c: Container)
    ensures PrintedTree(c, []) == Ok([])
  {
  }

  // ----- containers in a container -----

  function ContainerTrip(env: Env, child: Container, x: Item): Result<Option<(string, Config)>> {
    if IsEmpty(x.1) then Ok(None)
    else if !x.1.Obj? then Err
    else
      var y :- ToTree(env, child, x.1.fields);
      var p :- PrintedTree(child, y);
      if p == [] then Ok(None)
      else
        var bs :- TreeBindings(env, child, p);
        Ok(Some((x.0, CObj(MapOf(bs)))))
  }

  function ContainerTripper(env: Env, child: Container): Trip {
    x => ContainerTrip(env, child, x)
  }

  function ContainersTrip(env: Env, c: Container, n: nat, items: seq<Item>): Outcome
    requires n <= |c.containers|
    decreases |c.containers| - n
  {
    if n == |c.containers| then Ok([])
    else
      var child := c.containers[n];
      match Get(items, child.name)
      case None => ContainersTrip(env, c, n + 1, items)
      case Some(v) =>
        Then(Collect([(child.name, v)], ContainerTripper(env, child)),
             ContainersTrip(env, c, n + 1, Del(items, child.name)))
  }

  predicate KnownContainers(c: Container) {
    forall i :: 0 <= i < |c.containers| ==> FindContainer(c.containers, c.containers[i].name) == Some(c.containers[i])
  }

  lemma CollectOne(x: Item, trip: Trip)
    ensures Collect([x], trip) ==
            match trip(x)
            case Err => Err
            case Ok(None) => Ok([])
            case Ok(Some(b)) => Ok([b])
  {
    assert [x][1..] == [] && Collect([], trip) == Ok([]);
    if trip(x).Ok? && trip(x).value.Some? {
      SeqAssoc([trip(x).value.value], [], []);
    }
  }

  /** One container: its node, printed and read back, is the trip of its item. */
  lemma ContainerStep(env: Env, c: Container, child: Container, v: Option<Value>)
    requires FindContainer(c.containers, child.name) == Some(child)
    ensures var one: Outcome :=
              if v.None? then Ok([]) else Collect([(child.name, v.value)], ContainerTripper(env, child));
            match ContainerNode(env, child, v)
            case Err => one.Err?
            case Ok(None) => one == Ok([])
            case Ok(Some(d)) =>
              match PrintedNode(c, (child.name, d))
              case Err => one.Err?
              case Ok(d') => one == ContainerBinding(env, child, d')
  {
    hide ToTree, PrintedTree, TreeBindings, MapOf, FindContainer, Collect;
    EmptyPrinted(child);
    if v.Some? {
      CollectOne((child.name, v.value), ContainerTripper(env, child));
    }
  }

  predicate AgreeFrom(c: Container, n: nat, p: Fields, q: Fields) {
    forall i :: n <= i < |c.containers| ==> Get(p, c.containers[i].name) == Get(q, c.containers[i].name)
  }

  lemma {:induction false} ContainerNodeNames(env: Env, c: Container, n: nat, items: seq<Item>)
    requires n <= |c.containers| && ContainerNodes(env, c, n, items).Ok?
    ensures forall f :: f in ContainerNodes(env, c, n, items).value ==>
              f.1.Node? && exists i :: n <= i < |c.containers| && c.containers[i].name == f.0
    decreases |c.containers| - n
  {
    hide ToTree, Del, Get;
    if n < |c.containers| {
      var name := c.containers[n].name;
      ContainerNodeNames(env, c, n + 1, if Get(items, name).Some? then Del(items, name) else items);
    }
  }

  lemma NodePrinted(c: Container, f: (string, Data), rest: Fields)
    ensures PrintedTree(c, [f] + rest) ==
            match PrintedNode(c, f)
            case Err => Err
            case Ok(d) =>
              match PrintedTree(c, rest)
              case Err => Err
              case Ok(q) => Ok(if d.Some? then [(f.0, d.value)] + q else q)
  {
    hide PrintedNode;
    assert ([f] + rest)[1..] == rest;
  }

  /** A later container's name is not among the nodes of the containers after it. */
  lemma NodeAbsent(env: Env, c: Container, n: nat, items: seq<Item>)
    requires n < |c.containers| && KnownContainers(c) && ContainerNodes(env, c, n + 1, items).Ok?
    requires forall i, j :: 0 <= i < j < |c.containers| ==> c.containers[i].name != c.containers[j].name
    requires PrintedTree(c, ContainerNodes(env, c, n + 1, items).value).Ok?
    ensures Get(PrintedTree(c, ContainerNodes(env, c, n + 1, items).value).value, c.containers[n].name) == None
  {
    hide PrintedTree, ContainerNodes, FindContainer;
    var rest := ContainerNodes(env, c, n + 1, items).value;
    ContainerNodeNames(env, c, n + 1, items);
    PrintedTreeNames(c, rest);
    forall f | f in PrintedTree(c, rest).value
      ensures f.0 != c.containers[n].name
    {
      var g :| g in rest && g.0 == f.0;
    }
    GetAbsent(PrintedTree(c, rest).value, c.containers[n].name);
  }

  predicate ContainersOk(c: Container) {
    && KnownContainers(c)
    && forall i, j :: 0 <= i < j < |c.containers| ==> c.containers[i].name != c.containers[j].name
  }

  lemma AgreeNode(c: Container, n: nat, p: Fields, f: (string, Data), q: Fields)
    requires n < |c.containers| && f.0 == c.containers[n].name && AgreeFrom(c, n, p, [f] + q)
    requires forall i, j :: 0 <= i < j < |c.containers| ==> c.containers[i].name != c.containers[j].name
    ensures Get(p, f.0) == Some(f.1) && AgreeFrom(c, n + 1, p, q)
  {
    assert ([f] + q)[1..] == q;
  }

  lemma {:induction false} ContainersSteps(env: Env, c: Container, n: nat, items: seq<Item>, p: Fields)
    requires n <= |c.containers| && ContainersOk(c) && ContainerNodes(env, c, n, items).Ok?
    requires var q := PrintedTree(c, ContainerNodes(env, c, n, items).value); q.Ok? && AgreeFrom(c, n, p, q.value)
    ensures ContainerBindings(env, c, n, p) == ContainersTrip(env, c, n, items)
    decreases |c.containers| - n
  {
    hide ContainerNode, PrintedNode, PrintedTree, ContainerBinding, Collect, ContainerTripper, Del, Get, FindContainer;
    if n < |c.containers| {
      var child := c.containers[n];
      var v := Get(items, child.name);
      var left := if v.Some? then Del(items, child.name) else items;
      ContainerStep(env, c, child, v);
      var rest := ContainerNodes(env, c, n + 1, left).value;
      var node := ContainerNode(env, child, v).value;
      if node.Some? {
        NodePrinted(c, (child.name, node.value), rest);
      }
      NodeAbsent(env, c, n, left);
      var q := PrintedTree(c, rest).value;
      if node.Some? && PrintedNode(c, (child.name, node.value)).value.Some? {
        AgreeNode(c, n, p, (child.name, PrintedNode(c, (child.name, node.value)).value.value), q);
      } else {
        NoContainer(env, child);
      }
      ContainersSteps(env, c, n + 1, left, p);
      if ContainersTrip(env, c, n + 1, left).Ok? {
        SeqAssoc(ContainersTrip(env, c, n + 1, left).value, [], []);
      }
    }
  }

  lemma NoContainer(env: Env, child: Container)
    ensures ContainerBinding(env, child, None) == Ok([])
  {
  }

  /** If building or printing the containers fails, so does the trip of one of their items. */
  lemma {:induction false} ContainersFail(env: Env, c: Container, n: nat, items: seq<Item>)
    requires n <= |c.containers| && ContainersOk(c)
    requires ContainerNodes(env, c, n, items).Err? || PrintedTree(c, ContainerNodes(env, c, n, items).value).Err?
    ensures ContainersTrip(env, c, n, items).Err?
    decreases |c.containers| - n
  {
    hide ContainerNode, PrintedNode, PrintedTree, ContainerBinding, Collect, ContainerTripper, Del, Get, FindContainer;
    EmptyPrinted(c);
    if n < |c.containers| {
      var child := c.containers[n];
      var v := Get(items, child.name);
      var left := if v.Some? then Del(items, child.name) else items;
      ContainerStep(env, c, child, v);
      if ContainerNode(env, child, v).Ok? && ContainerNodes(env, c, n + 1, left).Ok? {
        var node := ContainerNode(env, child, v).value;
        if node.Some? {
          NodePrinted(c, (child.name, node.value), ContainerNodes(env, c, n + 1, left).value);
        }
      }
      if ContainersTrip(env, c, n + 1, left).Ok? && ContainerNode(env, child, v).Ok? {
        if ContainerNodes(env, c, n + 1, left).Err? || PrintedTree(c, ContainerNodes(env, c, n + 1, left).value).Err? {
          ContainersFail(env, c, n + 1, left);
        }
      }
    }
  }

  lemma {:induction false} NoContainers(env: Env, c: Container, n: nat)
    requires n <= |c.containers|
    ensures ContainersTrip(env, c, n, []) == Ok([])
    decreases |c.containers| - n
  {
    if n < |c.containers| {
      NoContainers(env, c, n + 1);
    }
  }

  lemma {:induction false} AbsentContainers(env: Env, c: Container, n: nat, p: Fields)
    requires n <= |c.containers| && forall i :: 0 <= i < |c.containers| ==> Get(p, c.containers[i].name) == None
    ensures ContainerBindings(env, c, n, p) == Ok([])
    decreases |c.containers| - n
  {
    hide Get, ContainerBinding;
    if n < |c.containers| {
      NoContainer(env, c.containers[n]);
      AbsentContainers(env, c, n + 1, p);
      SeqAssoc<(string, Config)>([], [], []);
    }
  }

  // ----- leaves in a container -----

  lemma LeafStep(env: Env, c: Container, x: Item)
    ensures match FindLeaf(c.leaves, x.0)
            case None => FieldTripper(env, c.leaves)(x) == Err
            case Some(leaf) =>
              match ToData(env, leaf, x.1)
              case Err => FieldTripper(env, c.leaves)(x) == Err
              case Ok(d) =>
                && (d.One? || d.Many?)
                && match PrintedNode(c, (x.0, d))
                   case Err => FieldTripper(env, c.leaves)(x) == Err
                   case Ok(p) =>
                     FieldTripper(env, c.leaves)(x) ==
                     match p
                     case None => Ok(None)
                     case Some(d') =>
                       match ReadField(env, c.leaves, (x.0, d'))
                       case Err => Err
                       case Ok(b) => Ok(Some(b))
  {
    hide ConvertAll, Kept, ListItems, Convert, PrintedAll, Printed, FromData;
  }

  lemma {:induction false} LeafSteps(env: Env, c: Container, items: seq<Item>)
    ensures Collect(items, FieldTripper(env, c.leaves)) ==
            match DataOf(env, c.leaves, items)
            case Err => Err
            case Ok(d) =>
              match PrintedTree(c, d)
              case Err => Err
              case Ok(p) => LeafBindings(env, c.leaves, p)
  {
    hide ToData, PrintedNode, FromData, FindLeaf, FieldTripper;
    if items != [] {
      LeafSteps(env, c, items[1..]);
      LeafStep(env, c, items[0]);
    }
  }

  lemma {:induction false} LeafSkip(env: Env, leaves: seq<Leaf>, a: Fields, b: Fields)
    requires forall f :: f in a ==> FindLeaf(leaves, f.0).None?
    ensures LeafBindings(env, leaves, a + b) == LeafBindings(env, leaves, b)
  {
    hide ReadField, FindLeaf;
    if a == [] {
      assert a + b == b;
    } else {
      assert a[0] in a;
      LeafSkip(env, leaves, a[1..], b);
      assert (a + b)[1..] == a[1..] + b;
    }
  }

  lemma {:induction false} DataNames(env: Env, leaves: seq<Leaf>, items: seq<Item>)
    requires DataOf(env, leaves, items).Ok?
    ensures forall f :: f in DataOf(env, leaves, items).value ==> FindLeaf(leaves, f.0).Some?
  {
    hide ToData, FindLeaf;
    if items != [] {
      DataNames(env, leaves, items[1..]);
    }
  }

  // ----- the three parts together -----

  function PartsTrip(env: Env, c: Container, items: seq<Item>): Outcome {
    var lists := ActiveLists(c);
    var left := Unlisted(env, lists, items);
    Then(Then(ListsTrip(env, lists, items), ContainersTrip(env, c, 0, left)),
         Collect(Uncontained(c.containers, left), FieldTripper(env, c.leaves)))
  }

  predicate ListNamed(c: Container, name: string) { exists l :: l in c.lists && l.name == name }
  predicate ContainerNamed(c: Container, name: string) { exists i :: 0 <= i < |c.containers| && c.containers[i].name == name }
  predicate LeafNamed(c: Container, name: string) { FindLeaf(c.leaves, name).Some? }

  lemma SiblingsApart(c: Container, name: string)
    requires SchemaOk(c)
    ensures ListNamed(c, name) ==> !ContainerNamed(c, name) && !LeafNamed(c, name)
    ensures ContainerNamed(c, name) ==> !LeafNamed(c, name)
  {
    hide ListOk;
    if ContainerNamed(c, name) {
      var i :| 0 <= i < |c.containers| && c.containers[i].name == name;
      assert c.containers[i] in c.containers;
    }
  }

  /** A printed tree in its three parts. */
  predicate Parted(c: Container, lq: Fields, cq: Fields, dq: Fields) {
    && (forall f :: f in lq ==> ListNamed(c, f.0))
    && (forall f :: f in cq ==> ContainerNamed(c, f.0))
    && (forall f :: f in dq ==> LeafNamed(c, f.0))
  }

  lemma PartedAgree(env: Env, c: Container, lq: Fields, cq: Fields, dq: Fields)
    requires SchemaOk(c) && Parted(c, lq, cq, dq)
    ensures Agree(lq + cq + dq, lq, ListNames(c.lists)) && AgreeFrom(c, 0, lq + cq + dq, cq)
    ensures LeafBindings(env, c.leaves, lq + cq + dq) == LeafBindings(env, c.leaves, dq)
  {
    hide SchemaOk, LeafBindings, Get, ListNamed, ContainerNamed, LeafNamed;
    var p := lq + cq + dq;
    forall n | n in ListNames(c.lists)
      ensures Get(p, n) == Get(lq, n)
    {
      ListNameKnown(c, n);
      SiblingsApart(c, n);
      GetFirst(lq + cq, dq, n);
      GetFirst(lq, cq, n);
    }
    forall i | 0 <= i < |c.containers|
      ensures Get(p, c.containers[i].name) == Get(cq, c.containers[i].name)
    {
      var n := c.containers[i].name;
      ContainerNameKnown(c, i);
      SiblingsApart(c, n);
      GetFirst(lq + cq, dq, n);
      GetFirst(lq, cq, n);
    }
    forall f | f in lq + cq
      ensures FindLeaf(c.leaves, f.0).None?
    {
      SiblingsApart(c, f.0);
      NotLeafNamed(c, f.0);
    }
    LeafSkip(env, c.leaves, lq + cq, dq);
  }

  lemma NotLeafNamed(c: Container, n: string)
    ensures !LeafNamed(c, n) <==> FindLeaf(c.leaves, n).None?
  {
  }

  lemma ListNameKnown(c: Container, n: string)
    requires n in ListNames(c.lists)
    ensures ListNamed(c, n)
  {
    var i :| 0 <= i < |c.lists| && c.lists[i].name == n;
    assert c.lists[i] in c.lists;
  }

  lemma ContainerNameKnown(c: Container, i: nat)
    requires i < |c.containers|
    ensures ContainerNamed(c, c.containers[i].name)
  {
  }

  lemma {:induction false} FindContainerAt(cs: seq<Container>, i: nat)
    requires i < |cs| && forall j, k :: 0 <= j < k < |cs| ==> cs[j].name != cs[k].name
    ensures FindContainer(cs, cs[i].name) == Some(cs[i])
  {
    if i > 0 {
      FindContainerAt(cs[1..], i - 1);
    }
  }

  lemma SchemaKnown(c: Container)
    requires SchemaOk(c)
    ensures KnownLists(c, c.lists) && KnownLists(c, ActiveLists(c)) && ContainersOk(c)
  {
    hide ListOk, FindContainer, FindList;
    forall l | l in c.lists
      ensures FindList(c.lists, l.name) == Some(l)
    {
      FindListExact(c.lists, l);
    }
    forall i | 0 <= i < |c.containers|
      ensures FindContainer(c.containers, c.containers[i].name) == Some(c.containers[i])
    {
      FindContainerAt(c.containers, i);
    }
  }

  lemma InactiveList(env: Env, c: Container, lq: Fields, p: Fields)
    requires ActiveLists(c) != c.lists && (forall f :: f !in lq) && Agree(p, lq, ListNames(c.lists))
    ensures ListBindings(env, c.lists, p) == Ok([])
  {
    hide EntryBindings;
    assert c.lists[0].name in ListNames(c.lists) by { assert ListNames(c.lists)[0] == c.lists[0].name; }
    GetAbsent(lq, c.lists[0].name);
    assert c.lists[1..] == [];
    SeqAssoc<(string, Config)>([], [], []);
  }

  lemma ActiveListsSteps(env: Env, c: Container, items: seq<Item>, lq: Fields, p: Fields)
    requires SchemaOk(c) && PrintedTree(c, ListNodes(env, ActiveLists(c), items)) == Ok(lq)
    requires Agree(p, lq, ListNames(c.lists))
    ensures ListBindings(env, c.lists, p) == ListsTrip(env, ActiveLists(c), items)
  {
    hide SchemaOk, PrintedTree, ListBindings, KnownLists, Agree;
    SchemaKnown(c);
    if ActiveLists(c) == c.lists {
      ListsSteps(env, c, c.lists, items, p);
    } else {
      EmptyPrinted(c);
      InactiveList(env, c, lq, p);
    }
  }

  lemma ListPartNamed(env: Env, c: Container, items: seq<Item>, lq: Fields)
    requires PrintedTree(c, ListNodes(env, ActiveLists(c), items)) == Ok(lq)
    ensures forall f :: f in lq ==> ListNamed(c, f.0)
  {
    hide PrintedTree, ListNodes, ListNamed;
    ListNodeNames(env, ActiveLists(c), items);
    PrintedTreeNames(c, ListNodes(env, ActiveLists(c), items));
    forall f | f in lq
      ensures ListNamed(c, f.0)
    {
      var g :| g in ListNodes(env, ActiveLists(c), items) && g.0 == f.0;
      ListNameKnown(c, f.0);
    }
  }

  lemma ContainerPartNamed(env: Env, c: Container, items: seq<Item>, cq: Fields)
    requires ContainerNodes(env, c, 0, items).Ok? && PrintedTree(c, ContainerNodes(env, c, 0, items).value) == Ok(cq)
    ensures forall f :: f in cq ==> ContainerNamed(c, f.0)
  {
    hide PrintedTree, ContainerNodes;
    ContainerNodeNames(env, c, 0, items);
    PrintedTreeNames(c, ContainerNodes(env, c, 0, items).value);
  }

  lemma LeafPartNamed(env: Env, c: Container, items: seq<Item>, dq: Fields)
    requires DataOf(env, c.leaves, items).Ok? && PrintedTree(c, DataOf(env, c.leaves, items).value) == Ok(dq)
    ensures forall f :: f in dq ==> LeafNamed(c, f.0)
  {
    hide PrintedTree, DataOf, FindLeaf;
    DataNames(env, c.leaves, items);
    PrintedTreeNames(c, DataOf(env, c.leaves, items).value);
  }

  /** What a container's parts become, once built. */
  lemma BuiltParts(env: Env, c: Container, items: seq<Item>, cn: Fields, dn: Fields)
    requires SchemaOk(c)
    requires var left := Unlisted(env, ActiveLists(c), items);
             && (if left == [] then Ok([]) else ContainerNodes(env, c, 0, left)) == Ok(cn)
             && DataOf(env, c.leaves, Uncontained(c.containers, left)) == Ok(dn)
    ensures (match PrintedTree(c, ListNodes(env, ActiveLists(c), items) + cn + dn)
             case Err => Err
             case Ok(p) => TreeBindings(env, c, p)) == PartsTrip(env, c, items)
  {
    hide SchemaOk, PrintedTree, ListNodes, ContainerNodes, DataOf, Unlisted, Uncontained, ListsTrip, ContainersTrip, Collect,
      FieldTripper, ListBindings, ContainerBindings, LeafBindings, ActiveLists, KnownLists, ContainersOk, Agree, AgreeFrom;
    var left := Unlisted(env, ActiveLists(c), items);
    var rest := Uncontained(c.containers, left);
    var ln := ListNodes(env, ActiveLists(c), items);
    SchemaKnown(c);
    PrintedTreeAppend(c, ln + cn, dn);
    PrintedTreeAppend(c, ln, cn);
    LeafSteps(env, c, rest);
    if PrintedTree(c, ln).Err? {
      ListsFail(env, c, ActiveLists(c), items);
    } else if PrintedTree(c, cn).Err? {
      EmptyPrinted(c);
      ContainersFail(env, c, 0, left);
    } else if PrintedTree(c, dn).Ok? {
      PartsBack(env, c, items, left, cn, PrintedTree(c, ln).value, PrintedTree(c, cn).value, PrintedTree(c, dn).value);
    }
  }

  lemma PartsBack(env: Env, c: Container, items: seq<Item>, left: seq<Item>, cn: Fields,
                      lq: Fields, cq: Fields, dq: Fields)
    requires SchemaOk(c) && left == Unlisted(env, ActiveLists(c), items)
    requires (if left == [] then Ok([]) else ContainerNodes(env, c, 0, left)) == Ok(cn) && PrintedTree(c, cn) == Ok(cq)
    requires PrintedTree(c, ListNodes(env, ActiveLists(c), items)) == Ok(lq)
    requires DataOf(env, c.leaves, Uncontained(c.containers, left)).Ok?
    requires PrintedTree(c, DataOf(env, c.leaves, Uncontained(c.containers, left)).value) == Ok(dq)
    ensures ListBindings(env, c.lists, lq + cq + dq) == ListsTrip(env, ActiveLists(c), items)
    ensures ContainerBindings(env, c, 0, lq + cq + dq) == ContainersTrip(env, c, 0, left)
    ensures LeafBindings(env, c.leaves, lq + cq + dq) == LeafBindings(env, c.leaves, dq)
  {
    hide SchemaOk, PrintedTree, ListNodes, ContainerNodes, DataOf, Unlisted, Uncontained, ListsTrip, ContainersTrip,
      ListBindings, ContainerBindings, LeafBindings, ActiveLists, KnownLists, ContainersOk, Agree,
      ListNamed, ContainerNamed, LeafNamed, Get;
    var p := lq + cq + dq;
    SchemaKnown(c);
    ListPartNamed(env, c, items, lq);
    LeafPartNamed(env, c, Uncontained(c.containers, left), dq);
    EmptyPrinted(c);
    if left != [] {
      ContainerPartNamed(env, c, left, cq);
    }
    PartedAgree(env, c, lq, cq, dq);
    ActiveListsSteps(env, c, items, lq, p);
    if left == [] {
      NoContainers(env, c, 0);
      forall i | 0 <= i < |c.containers|
        ensures Get(p, c.containers[i].name) == None
      {
        GetAbsent(cq, c.containers[i].name);
      }
      AbsentContainers(env, c, 0, p);
    } else {
      ContainersSteps(env, c, 0, left, p);
    }
  }

  /** The trip of a table is the trips of what its lists, containers and leaves took. */
  lemma TreeSteps(env: Env, c: Container, items: seq<Item>)
    requires SchemaOk(c)
    ensures TreeTrip(env, c, items) == PartsTrip(env, c, items)
  {
    hide SchemaOk, PrintedTree, ListNodes, ContainerNodes, DataOf, Unlisted, Uncontained, ListsTrip, ContainersTrip, Collect,
      FieldTripper, TreeBindings, ActiveLists, KnownLists, ContainersOk;
    var left := Unlisted(env, ActiveLists(c), items);
    var rest := Uncontained(c.containers, left);
    var cn := if left == [] then Ok([]) else ContainerNodes(env, c, 0, left);
    SchemaKnown(c);
    LeafSteps(env, c, rest);
    if cn.Err? {
      ContainersFail(env, c, 0, left);
    } else if DataOf(env, c.leaves, rest).Ok? {
      BuiltParts(env, c, items, cn.value, DataOf(env, c.leaves, rest).value);
    }
  }
}
