/**
 Table entries and list entries: splitting and joining primary keys, filling an entry from
 its fields and reading the fields back.
 */
module YangEntries {
  import opened Texts
  import opened YangSchema
  import opened YangValues
  import opened Bindings
  import opened Dicts

  type Fields = seq<(string, Data)>

  function FindLeaf(leaves: seq<Leaf>, name: string): (r: Option<Leaf>)
    ensures r.Some? ==> r.value in leaves && r.value.name == name
  {
    if leaves == [] then None else if leaves[0].name == name then Some(leaves[0]) else FindLeaf(leaves[1..], name)
  }

  // ----- into the data tree -----

  function KeyItems(keys: seq<string>, parts: seq<string>): (r: Fields)
    requires |keys| == |parts|
    ensures |r| == |keys|
  {
    if keys == [] then [] else [(keys[0], One(Text(parts[0])))] + KeyItems(keys[1..], parts[1..])
  }

  function ExtractKey(pkey: string, keys: seq<string>): Result<Fields> {
    var parts := SplitOn(pkey, '|');
    if |keys| != |parts| then Err else Ok(KeyItems(keys, StripAll(parts)))
  }

  /** Iterating over the fields of an entry; an empty string or list looks like no fields. */
  function FieldsOf(v: Value): Result<seq<Item>> {
    if v.Obj? then Ok(v.fields)
    else if v == Str("") || v == Lst([]) then Ok([])
    else Err
  }

  function AddField(env: Env, leaves: seq<Leaf>, entry: Fields, x: Item): Result<Fields> {
    match FindLeaf(leaves, x.0)
    case None => Err
    case Some(leaf) =>
      var d :- ToData(env, leaf, x.1);
      Ok(Put(entry, x.0, d))
  }

  function AddFields(env: Env, leaves: seq<Leaf>, entry: Fields, fields: seq<Item>): Result<Fields>
    decreases |fields|
  {
    if fields == [] then Ok(entry)
    else
      var grown :- AddField(env, leaves, entry, fields[0]);
      AddFields(env, leaves, grown, fields[1..])
  }

  /** Leaves filled from items; an item that is not a leaf is an error. */
  function DataOf(env: Env, leaves: seq<Leaf>, fields: seq<Item>): Result<Fields> {
    if fields == [] then Ok([])
    else
      match FindLeaf(leaves, fields[0].0)
      case None => Err
      case Some(leaf) =>
        var d :- ToData(env, leaf, fields[0].1);
        var rest :- DataOf(env, leaves, fields[1..]);
        Ok([(fields[0].0, d)] + rest)
  }

  /** The value leaf of an inner list: the last leaf that is not its key. */
  function InnerValue(inner: InnerList): string {
    LastOther(inner.leaves, InnerKey(inner))
  }

  function InnerKey(inner: InnerList): string {
    if inner.keys == [] then "" else inner.keys[0]
  }

  function LastOther(leaves: seq<Leaf>, key: string): string {
    if leaves == [] then ""
    else if leaves[|leaves|-1].name != key then leaves[|leaves|-1].name
    else LastOther(leaves[..|leaves|-1], key)
  }

  function InnerEntry(env: Env, inner: InnerList, x: Item): Fields {
    Put([(InnerKey(inner), One(Text(x.0)))], InnerValue(inner), One(Text(AsText(env, x.1))))
  }

  function InnerEntries(env: Env, inner: InnerList, fields: seq<Item>): (r: seq<Fields>)
    ensures |r| == |fields|
  {
    if fields == [] then [] else [InnerEntry(env, inner, fields[0])] + InnerEntries(env, inner, fields[1..])
  }

  /** One table entry as a list entry, or the error that makes the list pass it over. */
  function ToEntry(env: Env, l: YList, x: Item): Result<Fields> {
    var key :- ExtractKey(x.0, l.keys);
    if !IsType1(l) then
      var fields :- FieldsOf(x.1);
      AddFields(env, l.leaves, key, fields)
    else if l.inner == [] then Ok(key)
    else
      var fields :- FieldsOf(x.1);
      Ok(Put(key, l.inner[0].name, Entries(InnerEntries(env, l.inner[0], fields))))
  }

  // ----- through the data tree -----

  function PrintedLeaf(leaves: seq<Leaf>, f: (string, Data)): Result<Option<Data>> {
    match FindLeaf(leaves, f.0)
    case None => Err
    case Some(leaf) => PrintedValue(leaf, f.1)
  }

  function PrintedLeaves(leaves: seq<Leaf>, fields: Fields): Result<Fields> {
    if fields == [] then Ok([])
    else
      var d :- PrintedLeaf(leaves, fields[0]);
      var rest :- PrintedLeaves(leaves, fields[1..]);
      Ok(if d.Some? then [(fields[0].0, d.value)] + rest else rest)
  }

  function PrintedInner(inner: InnerList, entries: seq<Fields>): (r: Result<seq<Fields>>)
    ensures r.Ok? ==> |r.value| == |entries|
  {
    if entries == [] then Ok([])
    else
      var first :- PrintedLeaves(inner.leaves, entries[0]);
      var rest :- PrintedInner(inner, entries[1..]);
      Ok([first] + rest)
  }

  /** One item of a list entry; an empty inner list leaves no trace. */
  function PrintedItem(l: YList, f: (string, Data)): Result<Option<Data>> {
    if InnerOf(l).Some? && f.0 == l.inner[0].name && f.1.Entries? then
      var inner :- PrintedInner(l.inner[0], f.1.entries);
      Ok(if inner == [] then None else Some(Entries(inner)))
    else PrintedLeaf(l.leaves, f)
  }

  function PrintedEntry(l: YList, fields: Fields): Result<Fields> {
    if fields == [] then Ok([])
    else
      var d :- PrintedItem(l, fields[0]);
      var rest :- PrintedEntry(l, fields[1..]);
      Ok(if d.Some? then [(fields[0].0, d.value)] + rest else rest)
  }

  // ----- back to ConfigDB -----

  /** The key values of an entry; a missing, empty, zero or false one is an error. */
  function KeyTexts(entry: Fields, keys: seq<string>): (r: Result<seq<string>>)
    ensures r.Ok? ==> |r.value| == |keys|
  {
    if keys == [] then Ok([])
    else
      match Get(entry, keys[0])
      case None => Err
      case Some(d) =>
        if !d.One? || !Truthy(d.scalar) then Err
        else
          var rest :- KeyTexts(entry, keys[1..]);
          Ok([PyStr(d.scalar)] + rest)
  }

  function Barred(ts: seq<string>): string {
    if ts == [] then "" else ts[0] + "|" + Barred(ts[1..])
  }

  function StripBars(s: string): string {
    if s != "" && s[|s|-1] == '|' then StripBars(s[..|s|-1]) else s
  }

  function CreateKey(entry: Fields, keys: seq<string>): Result<string> {
    var ts :- KeyTexts(entry, keys);
    Ok(StripBars(Barred(ts)))
  }

  function ReadField(env: Env, leaves: seq<Leaf>, f: (string, Data)): Result<(string, Config)> {
    match FindLeaf(leaves, f.0)
    case None => Err
    case Some(leaf) =>
      var c :- FromData(env, leaf, f.1);
      Ok((f.0, c))
  }

  /** The fields of an entry other than its keys. */
  function ReadFields(env: Env, l: YList, fields: Fields): Result<seq<(string, Config)>> {
    if fields == [] then Ok([])
    else if fields[0].0 in l.keys then ReadFields(env, l, fields[1..])
    else
      var first :- ReadField(env, l.leaves, fields[0]);
      var rest :- ReadFields(env, l, fields[1..]);
      Ok([first] + rest)
  }

  function ReadInner(inner: InnerList, entries: seq<Fields>): Result<seq<(string, Config)>> {
    if entries == [] then Ok([])
    else
      var k, v := Get(entries[0], InnerKey(inner)), Get(entries[0], InnerValue(inner));
      if k.None? || v.None? || !k.value.One? || !v.value.One? then Err
      else
        var rest :- ReadInner(inner, entries[1..]);
        Ok([(PyStr(k.value.scalar), CStr(PyStr(v.value.scalar)))] + rest)
  }

  function FromEntry(env: Env, l: YList, entry: Fields): Result<(string, Config)> {
    var pkey :- CreateKey(entry, l.keys);
    if !IsType1(l) then
      var bs :- ReadFields(env, l, entry);
      Ok((pkey, CObj(MapOf(bs))))
    else if l.inner == [] then Ok((pkey, CObj(map[])))
    else
      var inner := Get(entry, l.inner[0].name);
      if inner.None? || !inner.value.Entries? then Err
      else
        var bs :- ReadInner(l.inner[0], inner.value.entries);
        Ok((pkey, CObj(MapOf(bs))))
  }

  predicate Holds(s: string, sub: string)
    decreases |s|
  {
    sub <= s || (s != "" && Holds(s[1..], sub))
  }

  /** Only lists with "_LIST" in their names are translated back. */
  predicate Returns(l: YList) {
    Holds(l.name, "_LIST")
  }

  /** One table entry through a list and back. */
  function EntryTrip(env: Env, l: YList, x: Item): Result<Option<(string, Config)>> {
    var e :- ToEntry(env, l, x);
    var p :- PrintedEntry(l, e);
    if Returns(l) then
      var b :- FromEntry(env, l, p);
      Ok(Some(b))
    else Ok(None)
  }
}
