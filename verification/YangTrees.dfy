/**
 Whole tables: distributing a table's items over the lists, containers and leaves of its
 schema, printing the data tree, and collecting the items again.
 */
module YangTrees {
  import opened Texts
  import opened YangSchema
  import opened YangValues
  import opened Bindings
  import opened Dicts
  import opened YangEntries

  // ----- into the data tree -----

  predicate Accepts(env: Env, l: YList, x: Item) {
    ToEntry(env, l, x).Ok?
  }

  /** The items a list takes, in order. */
  function Taken(env: Env, l: YList, items: seq<Item>): seq<Item> {
    if items == [] then []
    else if Accepts(env, l, items[0]) then [items[0]] + Taken(env, l, items[1..])
    else Taken(env, l, items[1..])
  }

  /** The items a list passes over. */
  function Passed(env: Env, l: YList, items: seq<Item>): seq<Item> {
    if items == [] then []
    else if Accepts(env, l, items[0]) then Passed(env, l, items[1..])
    else [items[0]] + Passed(env, l, items[1..])
  }

  function EntriesOf(env: Env, l: YList, items: seq<Item>): seq<Fields> {
    if items == [] then []
    else
      match ToEntry(env, l, items[0])
      case Ok(e) => [e] + EntriesOf(env, l, items[1..])
      case Err => EntriesOf(env, l, items[1..])
  }

  /** A single list takes part only under the conventional name. */
  function ActiveLists(c: Container): seq<YList> {
    if |c.lists| == 1 && c.lists[0].name != c.name + "_LIST" then [] else c.lists
  }

  function ListNodes(env: Env, lists: seq<YList>, items: seq<Item>): Fields {
    if lists == [] then []
    else
      var entries := EntriesOf(env, lists[0], items);
      var rest := ListNodes(env, lists[1..], Passed(env, lists[0], items));
      if entries == [] then rest else [(lists[0].name, Entries(entries))] + rest
  }

  function Unlisted(env: Env, lists: seq<YList>, items: seq<Item>): seq<Item> {
    if lists == [] then items else Unlisted(env, lists[1..], Passed(env, lists[0], items))
  }

  predicate IsEmpty(v: Value) {
    v == Obj([]) || v == Str("") || v == Lst([])
  }

  function Del<V>(items: seq<(string, V)>, name: string): seq<(string, V)> {
    if items == [] then []
    else if items[0].0 == name then items[1..]
    else [items[0]] + Del(items[1..], name)
  }

  /** The items left when each container has taken the one with its name. */
  function Uncontained(cs: seq<Container>, items: seq<Item>): seq<Item> {
    if cs == [] then items
    else Uncontained(cs[1..], if Get(items, cs[0].name).Some? then Del(items, cs[0].name) else items)
  }

  lemma {:induction false} NothingLeft(cs: seq<Container>)
    ensures Uncontained(cs, []) == []
  {
    if cs != [] {
      NothingLeft(cs[1..]);
    }
  }

  /** The node of an inner container: empty when the table has nothing for it, absent when nothing came of it. */
  function ContainerNode(env: Env, child: Container, v: Option<Value>): Result<Option<Data>>
    decreases child, 2
  {
    if v.None? || IsEmpty(v.value) then Ok(Some(Node([])))
    else if !v.value.Obj? then Err
    else
      var fields :- ToTree(env, child, v.value.fields);
      Ok(if fields == [] then None else Some(Node(fields)))
  }

  function ContainerNodes(env: Env, c: Container, n: nat, items: seq<Item>): Result<Fields>
    requires n <= |c.containers|
    decreases c, 0, |c.containers| - n
  {
    if n == |c.containers| then Ok([])
    else
      var name := c.containers[n].name;
      var node :- ContainerNode(env, c.containers[n], Get(items, name));
      var rest :- ContainerNodes(env, c, n + 1, if Get(items, name).Some? then Del(items, name) else items);
      Ok(if node.Some? then [(name, node.value)] + rest else rest)
  }

  /** A container's data from a dictionary; an item nothing takes is an error. */
  function ToTree(env: Env, c: Container, items: seq<Item>): Result<Fields>
    decreases c, 1
  {
    var lists := ActiveLists(c);
    var left := Unlisted(env, lists, items);
    var containers :- if left == [] then Ok([]) else ContainerNodes(env, c, 0, left);
    var leaves :- DataOf(env, c.leaves, Uncontained(c.containers, left));
    Ok(ListNodes(env, lists, items) + containers + leaves)
  }

  // ----- through the data tree -----

  function PrintedEntries(l: YList, entries: seq<Fields>): (r: Result<seq<Fields>>)
    ensures r.Ok? ==> |r.value| == |entries|
  {
    if entries == [] then Ok([])
    else
      var first :- PrintedEntry(l, entries[0]);
      var rest :- PrintedEntries(l, entries[1..]);
      Ok([first] + rest)
  }

  /** Empty lists and containers leave no trace. */
  function PrintedNode(c: Container, f: (string, Data)): Result<Option<Data>>
    decreases c, 0
  {
    match f.1
    case Entries(entries) =>
      (match FindList(c.lists, f.0)
       case None => Err
       case Some(l) =>
         var es :- PrintedEntries(l, entries);
         Ok(if es == [] then None else Some(Entries(es))))
    case Node(fields) =>
      (match FindContainer(c.containers, f.0)
       case None => Err
       case Some(child) =>
         var fs :- PrintedTree(child, fields);
         Ok(if fs == [] then None else Some(Node(fs))))
    case _ => PrintedLeaf(c.leaves, f)
  }

  function PrintedTree(c: Container, fields: Fields): Result<Fields>
    decreases c, 1, |fields|
  {
    if fields == [] then Ok([])
    else
      var d :- PrintedNode(c, fields[0]);
      var rest :- PrintedTree(c, fields[1..]);
      Ok(if d.Some? then [(fields[0].0, d.value)] + rest else rest)
  }

  // ----- back to ConfigDB -----

  function EntryBindings(env: Env, l: YList, entries: seq<Fields>): Result<seq<(string, Config)>> {
    if entries == [] then Ok([])
    else
      var first :- FromEntry(env, l, entries[0]);
      var rest :- EntryBindings(env, l, entries[1..]);
      Ok([first] + rest)
  }

  function ListBinding(env: Env, l: YList, d: Option<Data>): Result<seq<(string, Config)>> {
    if d.None? then Ok([])
    else if !d.value.Entries? then Err
    else if Returns(l) then EntryBindings(env, l, d.value.entries)
    else Ok([])
  }

  function ListBindings(env: Env, lists: seq<YList>, fields: Fields): Result<seq<(string, Config)>> {
    if lists == [] then Ok([])
    else
      var first :- ListBinding(env, lists[0], Get(fields, lists[0].name));
      var rest :- ListBindings(env, lists[1..], fields);
      Ok(first + rest)
  }

  function ContainerBinding(env: Env, child: Container, d: Option<Data>): Result<seq<(string, Config)>>
    decreases child, 2
  {
    if d.None? || d.value == Node([]) then Ok([])
    else if !d.value.Node? then Err
    else
      var bs :- TreeBindings(env, child, d.value.fields);
      Ok([(child.name, CObj(MapOf(bs)))])
  }

  function ContainerBindings(env: Env, c: Container, n: nat, fields: Fields): Result<seq<(string, Config)>>
    requires n <= |c.containers|
    decreases c, 0, |c.containers| - n
  {
    if n == |c.containers| then Ok([])
    else
      var first :- ContainerBinding(env, c.containers[n], Get(fields, c.containers[n].name));
      var rest :- ContainerBindings(env, c, n + 1, fields);
      Ok(first + rest)
  }

  function LeafBindings(env: Env, leaves: seq<Leaf>, fields: Fields): Result<seq<(string, Config)>> {
    if fields == [] then Ok([])
    else if FindLeaf(leaves, fields[0].0).None? then LeafBindings(env, leaves, fields[1..])
    else
      var first :- ReadField(env, leaves, fields[0]);
      var rest :- LeafBindings(env, leaves, fields[1..]);
      Ok([first] + rest)
  }

  /** The assignments that rebuild a dictionary: lists first, then containers, then leaves. */
  function TreeBindings(env: Env, c: Container, fields: Fields): Result<seq<(string, Config)>>
    decreases c, 1
  {
    var lists :- ListBindings(env, c.lists, fields);
    var containers :- ContainerBindings(env, c, 0, fields);
    var leaves :- LeafBindings(env, c.leaves, fields);
    Ok(lists + containers + leaves)
  }

  // ----- there and back -----

  function TreeTrip(env: Env, c: Container, items: seq<Item>): Result<seq<(string, Config)>> {
    var y :- ToTree(env, c, items);
    var p :- PrintedTree(c, y);
    TreeBindings(env, c, p)
  }
}
