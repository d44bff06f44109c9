/** All tables of a ConfigDB, each under its module and top-level container. */
module YangTables {
  import opened Texts
  import opened YangSchema
  import opened YangValues
  import opened Bindings
  import opened Dicts
  import opened YangEntries
  import opened YangTrees
  import opened YangTreeLaws
  import opened YangTreeTrips

  /** The two-level dictionary of table data: one item per module and container. */
  type Top = seq<((string, string), Fields)>

  function Environment(show: Value -> string, table: string): Env {
    Env(table, show)
  }

  /** Tables the schema knows, and those it does not. */
  function Known(tables: map<string, Table>, items: seq<Item>): (r: seq<Item>)
    ensures forall x :: x in r ==> x.0 in tables
  {
    if items == [] then []
    else if items[0].0 in tables then [items[0]] + Known(tables, items[1..])
    else Known(tables, items[1..])
  }

  function Unknown(tables: map<string, Table>, items: seq<Item>): seq<Item> {
    if items == [] then []
    else if items[0].0 in tables then Unknown(tables, items[1..])
    else [items[0]] + Unknown(tables, items[1..])
  }

  /** Cropping divides a ConfigDB: every table goes to one side, by whether the schema knows it. */
  lemma {:induction false} CropExact(tables: map<string, Table>, items: seq<Item>, x: Item)
    ensures x in Known(tables, items) <==> x in items && x.0 in tables
    ensures x in Unknown(tables, items) <==> x in items && x.0 !in tables
    ensures |Known(tables, items)| + |Unknown(tables, items)| == |items|
  {
    if items != [] {
      CropExact(tables, items[1..], x);
      assert items == [items[0]] + items[1..];
    }
  }

  lemma {:induction false} KnownDistinct(tables: map<string, Table>, items: seq<Item>)
    requires Distinct(items)
    ensures Distinct(Known(tables, items))
  {
    if items != [] {
      KnownDistinct(tables, items[1..]);
      forall x | x in Known(tables, items[1..])
        ensures x.0 != items[0].0
      {
        CropExact(tables, items[1..], x);
      }
    }
  }

  // ----- there and back -----

  function TopKey(t: Table): (string, string) {
    (t.mod + ":" + t.top, t.top + ":" + t.container.name)
  }

  function ToTables(show: Value -> string, tables: map<string, Table>, items: seq<Item>): Result<Top>
    requires forall x :: x in items ==> x.0 in tables
  {
    if items == [] then Ok([])
    else
      var x := items[0];
      if !x.1.Obj? then Err
      else
        var t := tables[x.0];
        var y :- ToTree(Environment(show, x.0), t.container, x.1.fields);
        var rest :- ToTables(show, tables, items[1..]);
        Ok([(TopKey(t), y)] + rest)
  }

  /** The table a container key names, with or without a prefix. */
  function TableName(key: string): Result<string> {
    var names := SplitOn(key, ':');
    if |names| > 2 then Err else Ok(names[|names|-1])
  }

  function PrintedTables(tables: map<string, Table>, top: Top): Result<Top> {
    if top == [] then Ok([])
    else
      var name :- TableName(top[0].0.1);
      if name !in tables then Err
      else
        var p :- PrintedTree(tables[name].container, top[0].1);
        var rest :- PrintedTables(tables, top[1..]);
        Ok(if p == [] then rest else [(top[0].0, p)] + rest)
  }

  function FromTables(show: Value -> string, tables: map<string, Table>, top: Top): Result<seq<(string, Config)>> {
    if top == [] then Ok([])
    else
      var name :- TableName(top[0].0.1);
      if name !in tables then Err
      else
        var bs :- TreeBindings(Environment(show, name), tables[name].container, top[0].1);
        var rest :- FromTables(show, tables, top[1..]);
        Ok([(name, CObj(MapOf(bs)))] + rest)
  }

  // ----- what an earlier failure leaves behind -----

  /** The table name looked up for separated leaf-lists: the first of the path, which a failed run does not clear. */
  function Start(path: seq<string>, table: string): string {
    (path + [table])[0]
  }

  /** Translation beginning with a path left from an earlier run; the path is cleared after the first table. */
  function ToTablesAfter(show: Value -> string, tables: map<string, Table>, path: seq<string>, items: seq<Item>): Result<Top>
    requires forall x :: x in items ==> x.0 in tables
    decreases |items|
  {
    if items == [] then Ok([])
    else
      var x := items[0];
      if !x.1.Obj? then Err
      else
        var t := tables[x.0];
        var y :- ToTree(Environment(show, Start(path, x.0)), t.container, x.1.fields);
        var rest :- ToTablesAfter(show, tables, [], items[1..]);
        Ok([(TopKey(t), y)] + rest)
  }

  function FromTablesAfter(show: Value -> string, tables: map<string, Table>, path: seq<string>, top: Top): Result<seq<(string, Config)>>
    decreases |top|
  {
    if top == [] then Ok([])
    else
      var name :- TableName(top[0].0.1);
      if name !in tables then Err
      else
        var bs :- TreeBindings(Environment(show, Start(path, name)), tables[name].container, top[0].1);
        var rest :- FromTablesAfter(show, tables, [], top[1..]);
        Ok([(name, CObj(MapOf(bs)))] + rest)
  }

  /** The tables translated before the first that fails. */
  function Translated(show: Value -> string, tables: map<string, Table>, path: seq<string>, items: seq<Item>): Top
    requires forall x :: x in items ==> x.0 in tables
    decreases |items|
  {
    if items == [] || TableFails(show, tables, path, items[0]) then []
    else
      [TableNode(show, tables, path, items[0])] + Translated(show, tables, [], items[1..])
  }

  function TableNode(show: Value -> string, tables: map<string, Table>, path: seq<string>, x: Item): ((string, string), Fields)
    requires x.0 in tables && !TableFails(show, tables, path, x)
  {
    (TopKey(tables[x.0]), ToTree(Environment(show, Start(path, x.0)), tables[x.0].container, x.1.fields).value)
  }

  predicate TableFails(show: Value -> string, tables: map<string, Table>, path: seq<string>, x: Item)
    requires x.0 in tables
  {
    !x.1.Obj? || ToTree(Environment(show, Start(path, x.0)), tables[x.0].container, x.1.fields).Err?
  }

  /** The first name of the path after a translation that failed. */
  function LeftBy(show: Value -> string, tables: map<string, Table>, path: seq<string>, items: seq<Item>): string
    requires forall x :: x in items ==> x.0 in tables
    requires ToTablesAfter(show, tables, path, items).Err?
    decreases |items|
  {
    if TableFails(show, tables, path, items[0]) then Start(path, items[0].0)
    else LeftBy(show, tables, [], items[1..])
  }

  /** The first table of a translation either fails it or is followed by the rest. */
  lemma FirstTable(show: Value -> string, tables: map<string, Table>, path: seq<string>, items: seq<Item>)
    requires items != [] && forall x :: x in items ==> x.0 in tables
    ensures TableFails(show, tables, path, items[0]) ==>
              && ToTablesAfter(show, tables, path, items).Err? && Translated(show, tables, path, items) == []
              && LeftBy(show, tables, path, items) == Start(path, items[0].0)
    ensures !TableFails(show, tables, path, items[0]) ==>
              var rest := items[1..];
              && (ToTablesAfter(show, tables, path, items).Ok? <==> ToTablesAfter(show, tables, [], rest).Ok?)
              && Translated(show, tables, path, items) == [TableNode(show, tables, path, items[0])] + Translated(show, tables, [], rest)
              && (ToTablesAfter(show, tables, [], rest).Err? ==>
                    LeftBy(show, tables, path, items) == LeftBy(show, tables, [], rest))
  {
    hide ToTree, TopKey;
  }

  lemma NoTable(show: Value -> string, tables: map<string, Table>, path: seq<string>)
    ensures ToTablesAfter(show, tables, path, []) == Ok([]) && Translated(show, tables, path, []) == []
  {
  }

  lemma {:induction false} TranslatedAll(show: Value -> string, tables: map<string, Table>, path: seq<string>, items: seq<Item>)
    requires forall x :: x in items ==> x.0 in tables
    ensures ToTablesAfter(show, tables, path, items).Ok? ==>
              ToTablesAfter(show, tables, path, items).value == Translated(show, tables, path, items)
    decreases |items|
  {
    hide ToTree, TopKey;
    if items != [] {
      TranslatedAll(show, tables, [], items[1..]);
    }
  }

  /** A run that starts with a clear path, or one left by the same table, translates each table under its own name. */
  lemma {:induction false} ClearStart(show: Value -> string, tables: map<string, Table>, path: seq<string>, items: seq<Item>)
    requires forall x :: x in items ==> x.0 in tables
    requires path == [] || items == [] || path[0] == items[0].0
    ensures ToTablesAfter(show, tables, path, items) == ToTables(show, tables, items)
    decreases |items|
  {
    hide ToTree;
    if items != [] {
      ClearStart(show, tables, [], items[1..]);
    }
  }

  lemma {:induction false} ClearReturn(show: Value -> string, tables: map<string, Table>, top: Top)
    ensures FromTablesAfter(show, tables, [], top) == FromTables(show, tables, top)
  {
    hide TreeBindings, MapOf;
    if top != [] {
      ClearReturn(show, tables, top[1..]);
    }
  }

  const SPEEDS := Leaf("adv_speeds", Plain, true, false)
  const SPEEDY := Table("m", "t", Container("X", [], [], [SPEEDS]))
  const PORTS := Table("m", "t", Container("PORT", [], [], []))
  const TWO_TABLES := map["X" := SPEEDY, "PORT" := PORTS]
  const SPEED_ITEMS: seq<Item> := [("X", Obj([("adv_speeds", Str(","))]))]

  function SpeedTop(xs: seq<Scalar>): Top {
    [(TopKey(SPEEDY), [("adv_speeds", Many(xs))])]
  }

  /** After a failure in table PORT the same load of table X gives different data: its string is then split at commas. */
  lemma StaleStartMatters(show: Value -> string, path: seq<string>)
    requires path != [] && path[0] == "PORT"
    ensures ToTablesAfter(show, TWO_TABLES, [], SPEED_ITEMS) == Ok(SpeedTop([Text(",")]))
    ensures ToTablesAfter(show, TWO_TABLES, path, SPEED_ITEMS) == Ok(SpeedTop([]))
  {
    hide ToTree, TopKey;
    var x: Item := ("adv_speeds", Str(","));
    StalePort(show);
    StaleOther(show);
    LeafTree(Env("X", show), SPEEDY.container, SPEEDS, x);
    LeafTree(Env("PORT", show), SPEEDY.container, SPEEDS, x);
    OneTable(show, TWO_TABLES, [], SPEED_ITEMS);
    OneTable(show, TWO_TABLES, path, SPEED_ITEMS);
  }

  lemma SpeedsPrinted()
    ensures PrintedTables(TWO_TABLES, SpeedTop([Text(",")])) == Ok(SpeedTop([Text(",")]))
    ensures PrintedTables(TWO_TABLES, SpeedTop([])) == Ok([])
  {
    var c := SPEEDY.container;
    SplitFirst("t", "X", ':');
    SplitWhole("X", ':');
    assert TopKey(SPEEDY).1 == "t" + [':'] + "X" && TableName(TopKey(SPEEDY).1) == Ok("X");
    SeqAssoc([Text(",")], [], []);
    assert [Text(",")][1..] == [] && PrintedAll(Plain, []) == Ok([]);
    assert PrintedAll(Plain, [Text(",")]) == Ok([Text(",")]);
    assert FindLeaf(c.leaves, "adv_speeds") == Some(SPEEDS);
    var full: (string, Data), none: (string, Data) := ("adv_speeds", Many([Text(",")])), ("adv_speeds", Many([]));
    assert PrintedNode(c, full) == Ok(Some(full.1)) && PrintedNode(c, none) == Ok(None);
    assert [full][1..] == [] && [none][1..] == [] && PrintedTree(c, []) == Ok([]);
    SeqAssoc([full], [], []);
    assert PrintedTree(c, [full]) == Ok([full]) && PrintedTree(c, [none]) == Ok([]);
    SpeedRest([Text(",")]);
    SpeedRest([]);
    SeqAssoc(SpeedTop([Text(",")]), [], []);
  }

  lemma SpeedRest(xs: seq<Scalar>)
    ensures SpeedTop(xs)[1..] == [] && PrintedTables(TWO_TABLES, []) == Ok([])
  {
  }

  lemma OneTable(show: Value -> string, tables: map<string, Table>, path: seq<string>, items: seq<Item>)
    requires |items| == 1 && items[0].0 in tables && items[0].1.Obj? && (forall x :: x in items ==> x.0 in tables)
    ensures ToTablesAfter(show, tables, path, items) ==
            match ToTree(Environment(show, Start(path, items[0].0)), tables[items[0].0].container, items[0].1.fields)
            case Err => Err
            case Ok(y) => Ok([(TopKey(tables[items[0].0]), y)])
  {
    hide ToTree, TopKey;
    assert items[1..] == [] && ToTablesAfter(show, tables, [], []) == Ok([]);
    var r := ToTree(Environment(show, Start(path, items[0].0)), tables[items[0].0].container, items[0].1.fields);
    if r.Ok? {
      SeqAssoc([(TopKey(tables[items[0].0]), r.value)], [], []);
    }
  }

  lemma StalePort(show: Value -> string)
    ensures ToData(Env("PORT", show), SPEEDS, Str(",")) == Ok(Many([]))
  {
    var ps := SplitOn(",", ',');
    SplitFirst("", "", ',');
    SplitWhole("", ',');
    assert "," == "" + [','] + "";
    assert ps == ["", ""];
    assert StripAll(ps) == ["", ""];
    assert Kept(SPEEDS, ["", ""]) == [] by {
      assert ["", ""][1..] == [""] && [""][1..] == [];
    }
    assert ConvertAll(Plain, []) == Ok([]);
  }

  lemma StaleOther(show: Value -> string)
    ensures ToData(Env("X", show), SPEEDS, Str(",")) == Ok(Many([Text(",")]))
  {
    assert Characters(",") == [","];
    assert Kept(SPEEDS, [","]) == [","] by {
      assert [","][1..] == [];
    }
    assert ConvertAll(Plain, [","]) == Ok([Text(",")]) by {
      assert [","][1..] == [] && ConvertAll(Plain, []) == Ok([]);
      SeqAssoc([Text(",")], [], []);
    }
  }

  lemma LeafTree(env: Env, c: Container, leaf: Leaf, x: Item)
    requires c.lists == [] && c.containers == [] && c.leaves == [leaf] && leaf.name == x.0
    ensures ToTree(env, c, [x]) ==
            match ToData(env, leaf, x.1)
            case Err => Err
            case Ok(d) => Ok([(x.0, d)])
  {
    hide ToData;
    assert ActiveLists(c) == [] && Unlisted(env, [], [x]) == [x] && ListNodes(env, [], [x]) == [];
    assert ContainerNodes(env, c, 0, [x]) == Ok([]) && Uncontained([], [x]) == [x];
    OneLeaf(env, leaf, x);
    if ToData(env, leaf, x.1).Ok? {
      SeqAssoc([(x.0, ToData(env, leaf, x.1).value)], [], []);
    }
  }

  lemma OneLeaf(env: Env, leaf: Leaf, x: Item)
    requires leaf.name == x.0
    ensures DataOf(env, [leaf], [x]) ==
            match ToData(env, leaf, x.1)
            case Err => Err
            case Ok(d) => Ok([(x.0, d)])
  {
    hide ToData;
    assert [x][1..] == [] && DataOf(env, [leaf], []) == Ok([]);
    assert FindLeaf([leaf], x.0) == Some(leaf);
    if ToData(env, leaf, x.1).Ok? {
      SeqAssoc([(x.0, ToData(env, leaf, x.1).value)], [], []);
    }
  }

  // ----- the whole ConfigDB -----

  /** A whole ConfigDB into the data tree and back. */
  function TablesTrip(show: Value -> string, tables: map<string, Table>, items: seq<Item>): Result<seq<(string, Config)>>
    requires forall x :: x in items ==> x.0 in tables
  {
    var y :- ToTables(show, tables, items);
    var p :- PrintedTables(tables, y);
    FromTables(show, tables, p)
  }

  // ----- the round trip -----

  /** Tables are named by their containers, and names hold no colon. */
  predicate TablesOk(tables: map<string, Table>) {
    forall t :: t in tables ==>
      && SchemaOk(tables[t].container) && tables[t].container.name == t
      && ':' !in t && ':' !in tables[t].top
  }

  function TableTrip(show: Value -> string, tables: map<string, Table>, x: Item): Result<Option<(string, Config)>> {
    if x.0 !in tables || !x.1.Obj? then Err
    else ContainerTrip(Environment(show, x.0), tables[x.0].container, x)
  }

  function TableTripper(show: Value -> string, tables: map<string, Table>): Trip {
    x => TableTrip(show, tables, x)
  }

  lemma NameOfKey(tables: map<string, Table>, t: string)
    requires TablesOk(tables) && t in tables
    ensures TableName(TopKey(tables[t]).1) == Ok(t)
  {
    hide SchemaOk;
    var top := tables[t].top;
    SplitFirst(top, t, ':');
    SplitWhole(t, ':');
    assert top + ":" + t == top + [':'] + t;
  }

  lemma TableStep(show: Value -> string, tables: map<string, Table>, x: Item)
    requires TablesOk(tables) && x.0 in tables && x.1.Obj?
    ensures var env := Environment(show, x.0);
            var c := tables[x.0].container;
            match ToTree(env, c, x.1.fields)
            case Err => TableTrip(show, tables, x) == Err
            case Ok(y) =>
              match PrintedTree(c, y)
              case Err => TableTrip(show, tables, x) == Err
              case Ok(p) =>
                TableTrip(show, tables, x) ==
                if p == [] then Ok(None)
                else
                  match TreeBindings(env, c, p)
                  case Err => Err
                  case Ok(bs) => Ok(Some((x.0, CObj(MapOf(bs)))))
  {
    hide ToTree, PrintedTree, TreeBindings, SchemaOk, MapOf;
    if x.1 == Obj([]) {
      EmptyTable(Environment(show, x.0), tables[x.0].container);
    }
  }

  /** An empty table leaves no trace. */
  lemma EmptyTable(env: Env, c: Container)
    ensures ToTree(env, c, []).Ok? && PrintedTree(c, ToTree(env, c, []).value) == Ok([])
  {
    hide ContainerNodes;
    EmptyLists(env, ActiveLists(c));
    NothingLeft(c.containers);
  }

  lemma {:induction false} EmptyLists(env: Env, lists: seq<YList>)
    ensures ListNodes(env, lists, []) == [] && Unlisted(env, lists, []) == []
  {
    if lists != [] {
      EmptyLists(env, lists[1..]);
    }
  }

  lemma {:induction false} TablesSteps(show: Value -> string, tables: map<string, Table>, items: seq<Item>)
    requires TablesOk(tables) && forall x :: x in items ==> x.0 in tables
    ensures TablesTrip(show, tables, items) == Collect(items, TableTripper(show, tables))
  {
    hide ToTree, PrintedTree, TreeBindings, TableTrip, TablesOk, TableName, MapOf, TopKey;
    if items != [] {
      var x := items[0];
      assert x in items;
      TablesSteps(show, tables, items[1..]);
      NameOfKey(tables, x.0);
      if x.1.Obj? {
        TableStep(show, tables, x);
      } else {
        NotATable(show, tables, x);
      }
    }
  }

  lemma NotATable(show: Value -> string, tables: map<string, Table>, x: Item)
    requires !x.1.Obj?
    ensures TableTrip(show, tables, x) == Err
  {
  }

  predicate TableWellTyped(show: Value -> string, tables: map<string, Table>, x: Item)
    requires TablesOk(tables) && x.0 in tables
  {
    x.1.Obj? && x.1.fields != [] && WellTyped(Environment(show, x.0), tables[x.0].container, x.1.fields)
  }

  lemma TableTripIff(show: Value -> string, tables: map<string, Table>, x: Item)
    requires TablesOk(tables) && x.0 in tables && DeepDistinct(x.1)
    ensures TableTripper(show, tables)(x) == Ok(Some(AsBinding(x))) <==> TableWellTyped(show, tables, x)
  {
    hide SchemaOk, ContainerTrip, WellTyped, DeepDistinct, Returned, AsConfig;
    if x.1.Obj? {
      var env, c := Environment(show, x.0), tables[x.0].container;
      ReturnedIff(env, c, x.1.fields);
      ContainerItemIff(env, c, x);
    }
  }

  lemma TableKeepsName(show: Value -> string, tables: map<string, Table>, x: Item)
    ensures var r := TableTripper(show, tables)(x); r.Ok? && r.value.Some? ==> r.value.value.0 == x.0
  {
    hide ToTree, PrintedTree, TreeBindings, MapOf;
  }

  /**
   Loading a ConfigDB into the data tree and reading it back returns exactly the tables
   that were loaded if and only if every table is non-empty and well typed.
   */
  lemma TablesTripIff(show: Value -> string, tables: map<string, Table>, items: seq<Item>)
    requires TablesOk(tables) && (forall x :: x in items ==> x.0 in tables)
    requires Distinct(items) && forall x :: x in items ==> DeepDistinct(x.1)
    ensures (TablesTrip(show, tables, items).Ok? &&
             MapOf(TablesTrip(show, tables, items).value) == MapOf(AsBindings(items))) <==>
            forall x :: x in items ==> TableWellTyped(show, tables, x)
  {
    hide TablesOk, Distinct, DeepDistinct, TablesTrip, Collect, MapOf, AsBindings, TableTrip, TableTripper, TableWellTyped, AsConfig;
    var trip := TableTripper(show, tables);
    TablesSteps(show, tables, items);
    forall x | x in items
      ensures trip(x).Ok? && trip(x).value.Some? ==> trip(x).value.value.0 == x.0
      ensures trip(x) == Ok(Some(AsBinding(x))) <==> TableWellTyped(show, tables, x)
    {
      TableKeepsName(show, tables, x);
      TableTripIff(show, tables, x);
    }
    SameNamesIff(items, trip);
  }
}
