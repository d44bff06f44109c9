/** The xpaths of ConfigDB paths, written out as texts. */
module ConfigDbXpaths {
  import opened Texts
  import opened XpathTokens
  import opened YangSchema
  import opened ConfigDbPaths
  import opened ConfigDbPathLaws

  // ----- the first tokens of every xpath -----

  /** Whatever the path, the xpath starts at the module's top-level container and the table. */
  lemma XpathStarts(tables: map<string, Table>, path: string, schemaXpath: bool)
    requires TablesWellFormed(tables) && PathAddress(tables, path)
    ensures var toks := JsonPointers.Parse(path).value;
            var t := tables[toks[0]];
            var x := ToXpath(tables, path, schemaXpath);
            && x.Ok? && Split(x.value).Ok?
            && [t.mod + ":" + t.top, toks[0]] <= Split(x.value).value
  {
    hide IsName, WellFormed, Pieces, Slashed, TokensFromContainer, Address, Bases, Closed, Join, PathFromContainer, Clean;
    var toks := JsonPointers.Parse(path).value;
    var t := tables[toks[0]];
    var m := t.mod + ":" + t.top;
    ContainerTripIff(t.container, toks);
    SchemaForm(t.container, toks);
    var xs := TokensFromContainer(t.container, toks, schemaXpath).value;
    NameClosed(m);
    NameClosed(toks[0]);
    JoinIsSlashed([m] + xs);
    NotJustSlash(m, xs);
    FirstToken(t.container, toks, schemaXpath);
    assert xs == [toks[0]] + xs[1..];
    StartsWith(m, toks[0], xs[1..]);
  }

  lemma StartsWith(m: string, t: string, rest: seq<string>)
    requires Closed(m) && Closed(t)
    ensures Pieces(Slashed([m] + ([t] + rest))) == [m] + ([t] + Pieces(Slashed(rest)))
    ensures [m, t] <= [m] + ([t] + Pieces(Slashed(rest)))
  {
    hide Closed, Pieces, Slashed;
    SplitsOff(t, rest);
    SplitsOff(m, [t] + rest);
  }

  lemma FirstToken(c: Container, toks: seq<string>, schemaXpath: bool)
    requires toks != [] && TokensFromContainer(c, toks, schemaXpath).Ok?
    ensures TokensFromContainer(c, toks, schemaXpath).value != []
    ensures TokensFromContainer(c, toks, schemaXpath).value[0] == toks[0]
  {
    hide TokensFromList, ListModel;
  }

  // ----- where a path leads -----

  /** Following the names from one container to the next leads from `c` to `d`; lists on the way would take the names. */
  ghost predicate Leads(c: Container, names: seq<string>, d: Container) {
    if names == [] then c == d
    else c.lists == [] && exists i :: FirstNamed(c.containers, names[0], i) && Leads(c.containers[i], names[1..], d)
  }

  predicate FirstNamed(cs: seq<Container>, name: string, i: int) {
    0 <= i < |cs| && cs[i].name == name && forall j :: 0 <= j < i ==> cs[j].name != name
  }

  /** The list that takes keys of n values: the only one, or else the first with n keys. */
  ghost predicate TakesKeys(d: Container, l: YList, n: nat) {
    || d.lists == [l]
    || (|d.lists| > 1 && exists i :: FirstCounted(d.lists, n, i) && d.lists[i] == l)
  }

  predicate FirstCounted(lists: seq<YList>, n: nat, i: int) {
    0 <= i < |lists| && |lists[i].keys| == n && forall j :: 0 <= j < i ==> |lists[j].keys| != n
  }

  lemma {:induction false} FindFirstNamed(cs: seq<Container>, name: string, i: nat)
    requires FirstNamed(cs, name, i)
    ensures FindContainer(cs, name) == Some(cs[i])
  {
    if i > 0 {
      assert cs[0].name != name;
      FindFirstNamed(cs[1..], name, i - 1);
    }
  }

  lemma {:induction false} FindFirstCounted(lists: seq<YList>, n: nat, i: nat)
    requires FirstCounted(lists, n, i)
    ensures FirstWithKeyCount(lists, n) == Some(lists[i])
  {
    if i > 0 {
      assert |lists[0].keys| != n;
      FindFirstCounted(lists[1..], n, i - 1);
    }
  }

  lemma TakesModel(d: Container, l: YList, key: string)
    requires TakesKeys(d, l, |SplitOn(key, '|')|)
    ensures ListModel(d, key) == Ok(Some(l))
  {
    hide SplitOn, FirstWithKeyCount;
    if |d.lists| > 1 {
      var i :| FirstCounted(d.lists, |SplitOn(key, '|')|, i) && d.lists[i] == l;
      FindFirstCounted(d.lists, |SplitOn(key, '|')|, i);
    }
  }

  /** Tokens in front of those of a conversion. */
  function Behind(ts: seq<string>, r: Result<seq<string>>): Result<seq<string>> {
    var xs :- r;
    Ok(ts + xs)
  }

  /** The tokens below a container, whatever it is called. */
  function Below(d: Container, rest: seq<string>, schemaXpath: bool): Result<seq<string>> {
    var xs :- TokensFromContainer(d, [""] + rest, schemaXpath);
    Ok(xs[1..])
  }

  lemma BelowAny(d: Container, first: string, rest: seq<string>, schemaXpath: bool)
    ensures TokensFromContainer(d, [first] + rest, schemaXpath) == Behind([first], Below(d, rest, schemaXpath))
  {
    hide TokensFromList, LeafToken, FindContainer, ListModel;
    var a, b := [first] + rest, [""] + rest;
    assert a[1..] == rest && b[1..] == rest && a[0] == first && b[0] == "";
    if rest != [] {
      assert a[1] == rest[0] && b[1] == rest[0];
    }
    var x, y := TokensFromContainer(d, a, schemaXpath), TokensFromContainer(d, b, schemaXpath);
    assert x.Ok? <==> y.Ok?;
    if y.Ok? {
      assert x.value == [first] + x.value[1..] && y.value == [""] + y.value[1..];
      assert x.value[1..] == y.value[1..];
    }
  }

  lemma ThroughChild(c: Container, i: nat, first: string, rest: seq<string>, schemaXpath: bool)
    requires c.lists == [] && rest != [] && FirstNamed(c.containers, rest[0], i)
    ensures TokensFromContainer(c, [first] + rest, schemaXpath) ==
            Behind([first], TokensFromContainer(c.containers[i], rest, schemaXpath))
  {
    hide TokensFromList, LeafToken, FindContainer;
    FindFirstNamed(c.containers, rest[0], i);
    var all := [first] + rest;
    assert all[1..] == rest && all[1] == rest[0] && all[0] == first;
  }

  /** Container names are tokens as they are. */
  lemma {:induction false} LeadsTokens(c: Container, first: string, names: seq<string>, d: Container, rest: seq<string>, schemaXpath: bool)
    requires Leads(c, names, d) && rest != []
    ensures TokensFromContainer(c, [first] + (names + rest), schemaXpath) == Behind([first] + names, Below(d, rest, schemaXpath))
    decreases |names|
  {
    hide TokensFromContainer, Below;
    if names == [] {
      BelowAny(d, first, rest, schemaXpath);
      assert names + rest == rest && [first] + names == [first];
    } else {
      var i :| FirstNamed(c.containers, names[0], i) && Leads(c.containers[i], names[1..], d);
      FirstName(names, rest);
      ThroughChild(c, i, first, names + rest, schemaXpath);
      LeadsTokens(c.containers[i], names[0], names[1..], d, rest, schemaXpath);
      if Below(d, rest, schemaXpath).Ok? {
        assert names == [names[0]] + names[1..];
        SeqAssoc([first], names, Below(d, rest, schemaXpath).value);
      }
    }
  }

  lemma FirstName(names: seq<string>, rest: seq<string>)
    requires names != []
    ensures names + rest == [names[0]] + (names[1..] + rest) && (names + rest)[0] == names[0]
  {
  }

  // ----- texts -----

  /** One predicate for each key in the order of the schema, around the stripped value. */
  function KeyTexts(keys: seq<string>, values: seq<string>): (r: seq<string>)
    requires |keys| == |values|
  {
    seq(|keys|, i requires 0 <= i < |keys| => "[" + keys[i] + "='" + Strip(values[i]) + "']")
  }

  lemma {:induction false} PredicatesText(keys: seq<string>, values: seq<string>)
    requires |keys| == |values|
    ensures Predicates(keys, StripAll(values)) == Concat(KeyTexts(keys, values))
  {
    hide Strip;
    if keys != [] {
      PredicatesText(keys[1..], values[1..]);
      assert StripAll(values)[1..] == StripAll(values[1..]);
      assert KeyTexts(keys, values)[1..] == KeyTexts(keys[1..], values[1..]);
    }
  }

  predicate IsField(leaves: seq<Leaf>, name: string) {
    exists f :: f in leaves && f.name == name
  }

  lemma FieldIff(leaves: seq<Leaf>, name: string)
    ensures LeafToken(leaves, name) == if IsField(leaves, name) then Ok(name) else Err
  {
    if IsField(leaves, name) {
      var f :| f in leaves && f.name == name;
      assert if f.isList then HasLeafList(leaves, name) else HasLeaf(leaves, name);
    }
  }

  lemma PathTokens(toks: seq<string>)
    requires toks != [] && toks[0] != ""
    ensures JsonPointers.Format(toks) != "" && JsonPointers.Format(toks) != "/"
    ensures PathSplit(JsonPointers.Format(toks)) == Ok(toks)
  {
    JsonPointers.ParseFormat(toks);
    if JsonPointers.Format(toks) == "/" {
      JsonPointers.ParseFormat([""]);
      RootFormat();
    }
  }

  lemma RootFormat()
    ensures JsonPointers.Format([""]) == "/"
  {
    assert [""][1..] == [] && JsonPointers.Format([]) == "";
  }

  lemma {:induction false} SlashedAppend(a: seq<string>, b: seq<string>)
    ensures Slashed(a + b) == Slashed(a) + Slashed(b)
  {
    if a == [] {
      assert a + b == b;
    } else {
      SlashedAppend(a[1..], b);
      assert (a + b)[1..] == a[1..] + b;
      SeqAssoc("/" + a[0], Slashed(a[1..]), Slashed(b));
    }
  }

  /** The text of an xpath whose tokens below the module are known. */
  lemma XpathText(tables: map<string, Table>, toks: seq<string>, schemaXpath: bool, xs: seq<string>)
    requires toks != [] && toks[0] != "" && toks[0] in tables
    requires TokensFromContainer(tables[toks[0]].container, toks, schemaXpath) == Ok(xs)
    ensures var t := tables[toks[0]];
            ToXpath(tables, JsonPointers.Format(toks), schemaXpath) == Ok("/" + t.mod + ":" + t.top + Slashed(xs))
  {
    hide TokensFromContainer, Slashed, JsonPointers.Parse, JsonPointers.Format;
    var t := tables[toks[0]];
    var m := t.mod + ":" + t.top;
    PathTokens(toks);
    JoinIsSlashed([m] + xs);
    SlashedCons(m, xs);
    assert "/" + m + Slashed(xs) == "/" + t.mod + ":" + t.top + Slashed(xs);
  }

  // ----- entries -----

  /** A path to an entry, or to a field of it. */
  function EntryPath(table: string, names: seq<string>, values: seq<string>, fields: seq<string>): string {
    JsonPointers.Format([table] + (names + ([JoinOn(values, '|')] + fields)))
  }

  /** The schema has the list, and the values fit into a key. */
  ghost predicate EntryOf(tables: map<string, Table>, table: string, names: seq<string>, d: Container, l: YList, values: seq<string>) {
    && table in tables && table != "" && Leads(tables[table].container, names, d)
    && values != [] && (forall v :: v in values ==> '|' !in v)
    && TakesKeys(d, l, |values|)
  }

  lemma ListTokens(d: Container, l: YList, values: seq<string>, fields: seq<string>, schemaXpath: bool)
    requires values != [] && (forall v :: v in values ==> '|' !in v) && TakesKeys(d, l, |values|)
    ensures var toks := [JoinOn(values, '|')] + fields;
            && SplitOn(JoinOn(values, '|'), '|') == values
            && Below(d, toks, schemaXpath) == TokensFromList(l, toks, schemaXpath)
  {
    hide SplitOn, JoinOn, TokensFromList, ListModel, TakesKeys;
    var key := JoinOn(values, '|');
    SplitOfJoin(values, '|');
    TakesModel(d, l, key);
    var all := [""] + ([key] + fields);
    assert all[1] == key && all[1..] == [key] + fields && all[0] == "";
  }

  lemma WholePath(tables: map<string, Table>, table: string, names: seq<string>, d: Container, rest: seq<string>, schemaXpath: bool)
    requires table in tables && table != "" && Leads(tables[table].container, names, d) && rest != []
    ensures var t := tables[table];
            ToXpath(tables, JsonPointers.Format([table] + (names + rest)), schemaXpath) ==
            match Below(d, rest, schemaXpath)
            case Err => Err
            case Ok(xs) => Ok("/" + t.mod + ":" + t.top + Slashed([table] + names) + Slashed(xs))
  {
    hide TokensFromContainer, Below, Slashed, Leads, JsonPointers.Format, JsonPointers.Parse;
    var t := tables[table];
    LeadsTokens(t.container, table, names, d, rest, schemaXpath);
    var all := [table] + (names + rest);
    assert all[0] == table;
    match Below(d, rest, schemaXpath)
    case Err =>
      PathTokens(all);
    case Ok(xs) =>
      XpathText(tables, all, schemaXpath, [table] + names + xs);
      SlashedAppend([table] + names, xs);
      SeqAssoc("/" + t.mod + ":" + t.top, Slashed([table] + names), Slashed(xs));
  }

  lemma EntryTokens(tables: map<string, Table>, table: string, names: seq<string>, d: Container, l: YList,
                    values: seq<string>, fields: seq<string>, schemaXpath: bool)
    requires EntryOf(tables, table, names, d, l, values)
    ensures var toks := [JoinOn(values, '|')] + fields;
            var t := tables[table];
            && SplitOn(JoinOn(values, '|'), '|') == values
            && ToXpath(tables, EntryPath(table, names, values, fields), schemaXpath) ==
               match TokensFromList(l, toks, schemaXpath)
               case Err => Err
               case Ok(xs) => Ok("/" + t.mod + ":" + t.top + Slashed([table] + names) + Slashed(xs))
  {
    hide SplitOn, JoinOn, TokensFromList, Slashed, Leads, TakesKeys, JsonPointers.Format, ToXpath, Below;
    ListTokens(d, l, values, fields, schemaXpath);
    WholePath(tables, table, names, d, [JoinOn(values, '|')] + fields, schemaXpath);
  }

  function ItemText(l: YList, values: seq<string>, schemaXpath: bool): string
    requires |values| == |l.keys|
  {
    l.name + if schemaXpath then "" else Concat(KeyTexts(l.keys, values))
  }

  lemma ItemIsText(l: YList, key: string, values: seq<string>, schemaXpath: bool)
    requires SplitOn(key, '|') == values && |values| == |l.keys|
    ensures ItemToken(l, key, schemaXpath) == Ok(ItemText(l, values, schemaXpath))
  {
    hide SplitOn, Predicates;
    PredicatesText(l.keys, values);
    assert l.name + "" == l.name;
  }

  /** The xpath of an entry: module and top-level container, table, containers, list, and one predicate per key. */
  lemma EntryXpath(tables: map<string, Table>, table: string, names: seq<string>, d: Container, l: YList,
                   values: seq<string>, schemaXpath: bool)
    requires EntryOf(tables, table, names, d, l, values) && |values| == |l.keys|
    ensures var t := tables[table];
            ToXpath(tables, EntryPath(table, names, values, []), schemaXpath) ==
            Ok("/" + t.mod + ":" + t.top + Slashed([table] + names) + ("/" + ItemText(l, values, schemaXpath)))
  {
    hide SplitOn, JoinOn, Slashed, Leads, TakesKeys, Predicates, ToXpath, EntryPath, ItemText, ItemToken;
    EntryTokens(tables, table, names, d, l, values, [], schemaXpath);
    var key := JoinOn(values, '|');
    ItemIsText(l, key, values, schemaXpath);
    assert [key] + [] == [key];
    SlashedOne(ItemText(l, values, schemaXpath));
  }

  lemma SlashedOne(t: string)
    ensures Slashed([t]) == "/" + t
  {
    assert [t][1..] == [];
  }

  lemma SlashedTwo(t: string, u: string)
    ensures Slashed([t, u]) == "/" + t + ("/" + u)
  {
    assert [t, u][1..] == [u];
    SlashedOne(u);
  }

  /** The text of a field below its entry: the name of the leaf, or the inner list with the field as the value of its key. */
  function FieldText(l: YList, field: string, schemaXpath: bool): Result<string>
    requires InnerOf(l).None? || l.inner[0].keys != []
  {
    if InnerOf(l).Some? then
      Ok(l.inner[0].name + if schemaXpath then "" else "[" + l.inner[0].keys[0] + "='" + field + "']")
    else if IsField(l.leaves, field) then Ok(field)
    else Err
  }

  lemma FieldTokens(l: YList, key: string, values: seq<string>, field: string, schemaXpath: bool)
    requires SplitOn(key, '|') == values && |values| == |l.keys| && (InnerOf(l).None? || l.inner[0].keys != [])
    ensures TokensFromList(l, [key] + [field], schemaXpath) ==
            match FieldText(l, field, schemaXpath)
            case Err => Err
            case Ok(u) => Ok([ItemText(l, values, schemaXpath), u])
  {
    hide SplitOn, ItemText, ItemToken, IsField, LeafToken;
    ItemIsText(l, key, values, schemaXpath);
    FieldIff(l.leaves, field);
    assert ([key] + [field])[0] == key && ([key] + [field])[1] == field;
    if InnerOf(l).Some? {
      assert l.inner[0].name + "" == l.inner[0].name;
    }
  }

  /** The xpath of a field: that of its entry and the field below it, or an error when the list has no such field. */
  lemma FieldXpath(tables: map<string, Table>, table: string, names: seq<string>, d: Container, l: YList,
                   values: seq<string>, field: string, schemaXpath: bool)
    requires EntryOf(tables, table, names, d, l, values) && |values| == |l.keys|
    requires InnerOf(l).None? || l.inner[0].keys != []
    ensures var t := tables[table];
            ToXpath(tables, EntryPath(table, names, values, [field]), schemaXpath) ==
            match FieldText(l, field, schemaXpath)
            case Err => Err
            case Ok(u) =>
              Ok("/" + t.mod + ":" + t.top + Slashed([table] + names) + ("/" + ItemText(l, values, schemaXpath) + ("/" + u)))
  {
    hide SplitOn, JoinOn, Slashed, Leads, TakesKeys, ToXpath, EntryPath, FieldText, ItemText, TokensFromList;
    EntryTokens(tables, table, names, d, l, values, [field], schemaXpath);
    FieldTokens(l, JoinOn(values, '|'), values, field, schemaXpath);
    match FieldText(l, field, schemaXpath)
    case Err =>
    case Ok(u) => SlashedTwo(ItemText(l, values, schemaXpath), u);
  }

  /** A key with another number of values than the list has keys has no data xpath. */
  lemma EntryRefused(tables: map<string, Table>, table: string, names: seq<string>, d: Container, l: YList,
                     values: seq<string>, fields: seq<string>)
    requires EntryOf(tables, table, names, d, l, values) && |values| != |l.keys|
    ensures ToXpath(tables, EntryPath(table, names, values, fields), false) == Err
  {
    hide SplitOn, JoinOn, Slashed, Leads, TakesKeys, ToXpath, EntryPath;
    EntryTokens(tables, table, names, d, l, values, fields, false);
    assert ([JoinOn(values, '|')] + fields)[0] == JoinOn(values, '|');
  }

  // ----- leaves of containers -----

  /** A leaf of a container without lists, reached through containers. */
  lemma LeafXpath(tables: map<string, Table>, table: string, names: seq<string>, d: Container, field: string, schemaXpath: bool)
    requires table in tables && table != "" && Leads(tables[table].container, names, d)
    requires d.lists == [] && (forall i :: 0 <= i < |d.containers| ==> d.containers[i].name != field)
    ensures var t := tables[table];
            ToXpath(tables, JsonPointers.Format([table] + (names + [field])), schemaXpath) ==
            if IsField(d.leaves, field)
            then Ok("/" + t.mod + ":" + t.top + Slashed([table] + names) + ("/" + field))
            else Err
  {
    hide Slashed, Leads, JsonPointers.Format, ToXpath, IsField, Below;
    WholePath(tables, table, names, d, [field], schemaXpath);
    LeafBelow(d, field, schemaXpath);
    SlashedOne(field);
  }

  lemma LeafBelow(d: Container, field: string, schemaXpath: bool)
    requires d.lists == [] && forall i :: 0 <= i < |d.containers| ==> d.containers[i].name != field
    ensures Below(d, [field], schemaXpath) == if IsField(d.leaves, field) then Ok([field]) else Err
  {
    hide IsField, LeafToken, FindContainer;
    FieldIff(d.leaves, field);
    NoContainerNamed(d.containers, field);
    var all := [""] + [field];
    assert all[1] == field && all[0] == "";
  }

  lemma {:induction false} NoContainerNamed(cs: seq<Container>, name: string)
    requires forall i :: 0 <= i < |cs| ==> cs[i].name != name
    ensures FindContainer(cs, name) == None
  {
    if cs != [] {
      NoContainerNamed(cs[1..], name);
    }
  }

  // ----- reading xpaths that were written by hand -----

  lemma {:induction false} ValuesAt(ks: seq<string>, vs: seq<string>, dict: map<string, string>, i: nat)
    requires |ks| == |vs| && i < |ks| && Values(ks, dict) == Ok(vs)
    ensures ks[i] in dict && dict[ks[i]] == vs[i]
  {
    if i > 0 {
      ValuesAt(ks[1..], vs[1..], dict, i - 1);
    }
  }

  lemma {:induction false} ValuesAre(ks: seq<string>, vs: seq<string>, dict: map<string, string>)
    requires |ks| == |vs| && forall i :: 0 <= i < |ks| ==> ks[i] in dict && dict[ks[i]] == vs[i]
    ensures Values(ks, dict) == Ok(vs)
  {
    if ks != [] {
      ValuesAre(ks[1..], vs[1..], dict);
      assert vs == [vs[0]] + vs[1..];
    }
  }

  lemma {:induction false} ValuesFail(ks: seq<string>, dict: map<string, string>, k: string)
    requires k in ks && k !in dict
    ensures Values(ks, dict) == Err
  {
    if ks[0] != k {
      ValuesFail(ks[1..], dict, k);
    }
  }

  /** The predicates of a list entry: names and quote-free values, no name twice. */
  predicate EntryPredicates(ks: seq<string>, vs: seq<string>) {
    && |ks| == |vs| > 0 && (forall k :: k in ks ==> IsName(k)) && (forall v :: v in vs ==> '\'' !in v)
    && forall i, j :: 0 <= i < j < |ks| ==> ks[i] != ks[j]
  }

  lemma EntryDict(l: YList, ks: seq<string>, vs: seq<string>)
    requires IsName(l.name) && EntryPredicates(ks, vs)
    ensures var dict := KeysToDict(l.name + Predicates(ks, vs));
            && dict != map[] && |dict| == |ks| && (forall k :: k in dict <==> k in ks)
            && forall i :: 0 <= i < |ks| ==> ks[i] in dict && dict[ks[i]] == vs[i]
  {
    hide Predicates, IsName, FindAll, Values;
    PredicatesOpen(ks, vs);
    BaseOfPrinted(l.name, Predicates(ks, vs));
    FindPrinted(ks, vs);
    ConfigDbPathLaws.DistinctKeys(ks);
    DictOfZip(ks, vs);
    DictOfZipKeys(ks, vs);
    var dict := KeysToDict(l.name + Predicates(ks, vs));
    assert ks[0] in ks;
    forall i | 0 <= i < |ks|
      ensures ks[i] in dict && dict[ks[i]] == vs[i]
    {
      ValuesAt(ks, vs, dict, i);
    }
  }

  /** The predicates of an entry may stand in any order; the key has the values in the order of the schema. */
  lemma KeysInAnyOrder(l: YList, ks: seq<string>, vs: seq<string>, ws: seq<string>)
    requires IsName(l.name) && EntryPredicates(ks, vs) && |ks| == |l.keys| == |ws|
    requires forall j :: 0 <= j < |ws| ==> exists i :: 0 <= i < |ks| && ks[i] == l.keys[j] && vs[i] == ws[j]
    ensures PathFromList(l, [l.name + Predicates(ks, vs)]) == Ok([JoinOn(ws, '|')])
  {
    hide Predicates, IsName, Values, KeysToDict, JoinOn;
    EntryDict(l, ks, vs);
    ValuesAre(l.keys, ws, KeysToDict(l.name + Predicates(ks, vs)));
  }

  /** Too few or too many predicates, or none for some key, are an error. */
  lemma WrongKeys(l: YList, ks: seq<string>, vs: seq<string>, rest: seq<string>)
    requires IsName(l.name) && EntryPredicates(ks, vs)
    requires |ks| != |l.keys| || exists k :: k in l.keys && k !in ks
    ensures PathFromList(l, [l.name + Predicates(ks, vs)] + rest) == Err
  {
    hide Predicates, IsName, Values, KeysToDict, JoinOn;
    EntryDict(l, ks, vs);
    var xs := [l.name + Predicates(ks, vs)] + rest;
    assert xs[0] == l.name + Predicates(ks, vs);
    if |ks| == |l.keys| {
      var k :| k in l.keys && k !in ks;
      ValuesFail(l.keys, KeysToDict(xs[0]), k);
    }
  }

  /** The name of a field is read back, and nothing else that is a name. */
  lemma FieldBack(leaves: seq<Leaf>, name: string)
    requires IsName(name)
    ensures PathFromLeaf(leaves, name) == if IsField(leaves, name) then Ok([name]) else Err
  {
    NameBase(name);
    if IsField(leaves, name) {
      var f :| f in leaves && f.name == name;
      assert if f.isList then HasLeafList(leaves, name) else HasLeaf(leaves, name);
    }
  }

  /** An element of a leaf-list leads to the leaf-list; a scalar leaf has no elements. */
  lemma ElementBack(leaves: seq<Leaf>, name: string, tail: string)
    requires IsName(name) && tail != "" && tail[0] == '[' && forall f :: f in leaves ==> IsName(f.name)
    ensures PathFromLeaf(leaves, name + tail) == if HasLeafList(leaves, name) then Ok([name]) else Err
  {
    hide IsName, BaseName;
    BaseOfPrinted(name, tail);
    Bracketed(name, tail);
  }

  // ----- steps with predicates -----

  /** A predicate that compares a child with a literal in single or double quotes. */
  datatype Test = Test(child: string, quote: char, literal: string)

  function TestText(t: Test): string {
    "[" + t.child + "=" + [t.quote] + t.literal + [t.quote] + "]"
  }

  /** The literal may hold anything but its own quote: slashes, brackets and the other quote. */
  predicate TestOk(t: Test) {
    && (forall c :: c in t.child ==> c !in "]'\"")
    && (t.quote == '\'' || t.quote == '"') && t.quote !in t.literal
  }

  datatype PathStep = PathStep(name: string, tests: seq<Test>)

  function StepText(s: PathStep): string {
    s.name + Concat(seq(|s.tests|, i requires 0 <= i < |s.tests| => TestText(s.tests[i])))
  }

  predicate StepOk(s: PathStep) {
    '/' !in s.name && '[' !in s.name && forall t :: t in s.tests ==> TestOk(t)
  }

  lemma TestRuns(t: Test)
    requires TestOk(t)
    ensures Runs(Top, TestText(t), Top)
  {
    hide Runs;
    var q := t.quote;
    RunsChar(Top, '[', Pred);
    RunsStill(Pred, t.child);
    RunsConcat(Top, "[", Pred, t.child, Pred);
    RunsChar(Pred, '=', Pred);
    RunsConcat(Top, "[" + t.child, Pred, "=", Pred);
    RunsChar(Pred, q, Quote(q));
    RunsConcat(Top, "[" + t.child + "=", Pred, [q], Quote(q));
    RunsStill(Quote(q), t.literal);
    RunsConcat(Top, "[" + t.child + "=" + [q], Quote(q), t.literal, Quote(q));
    RunsChar(Quote(q), q, Pred);
    RunsConcat(Top, "[" + t.child + "=" + [q] + t.literal, Quote(q), [q], Pred);
    RunsChar(Pred, ']', Top);
    RunsConcat(Top, "[" + t.child + "=" + [q] + t.literal + [q], Pred, "]", Top);
  }

  lemma {:induction false} TextsRun(ts: seq<string>)
    requires forall t :: t in ts ==> Runs(Top, t, Top)
    ensures Runs(Top, Concat(ts), Top)
  {
    hide Runs;
    if ts == [] {
      RunsStill(Top, "");
    } else {
      TextsRun(ts[1..]);
      RunsConcat(Top, ts[0], Top, Concat(ts[1..]), Top);
    }
  }

  lemma StepCloses(s: PathStep)
    requires StepOk(s)
    ensures Closed(StepText(s))
  {
    hide Concat, TestText, TestOk;
    var ts := seq(|s.tests|, i requires 0 <= i < |s.tests| => TestText(s.tests[i]));
    forall t | t in ts
      ensures Runs(Top, t, Top)
    {
      var i :| 0 <= i < |ts| && ts[i] == t;
      TestRuns(s.tests[i]);
    }
    TextsRun(ts);
    RunsStill(Top, s.name);
    RunsConcat(Top, s.name, Top, Concat(ts), Top);
  }

  function StepTexts(steps: seq<PathStep>): seq<string> {
    seq(|steps|, i requires 0 <= i < |steps| => StepText(steps[i]))
  }

  /** An xpath written step by step is split into its steps, whatever its literals hold. */
  lemma SplitSteps(steps: seq<PathStep>)
    requires (forall s :: s in steps ==> StepOk(s)) && StepTexts(steps) != [""]
    ensures Split(Join(StepTexts(steps))) == Ok(StepTexts(steps))
  {
    hide StepText, Closed, StepOk;
    var xs := StepTexts(steps);
    forall x | x in xs
      ensures Closed(x)
    {
      var i :| 0 <= i < |xs| && xs[i] == x;
      StepCloses(steps[i]);
    }
    ClosedSplittable(xs);
    SplitJoinIff(xs);
  }
}
