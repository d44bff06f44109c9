/**
 The translator object: it fills data trees and dictionaries step by step and tracks where
 it is in `elementPath`, whose first and last names select separated leaf-lists.
 */
module Translation {
  import opened Texts
  import opened YangSchema
  import opened YangValues
  import opened Bindings
  import opened Dicts
  import opened YangEntries
  import opened YangTrees
  import opened YangTables
  import opened YangTreeTrips

  class Translator {
    const tables: map<string, Table>
    const show: Value -> string
    var elementPath: seq<string>
    var jIn: seq<Item>
    var tablesWithOutYang: seq<Item>
    var xlateJson: Top
    var root: Option<Top>
    var revXlateJson: map<string, Config>

    constructor (tables: map<string, Table>, show: Value -> string)
      ensures this.tables == tables && this.show == show && elementPath == [] && root == None
    {
      this.tables := tables;
      this.show := show;
      elementPath := [];
      jIn, tablesWithOutYang := [], [];
      xlateJson, root, revXlateJson := [], None, map[];
    }

    // ----- to YANG -----

    /** Splits a primary key over the keys of a list. */
    method ExtractKey(tableKey: string, keys: seq<string>) returns (r: Result<Fields>)
      ensures r == YangEntries.ExtractKey(tableKey, keys)
    {
      var value := SplitOn(tableKey, '|');
      if |keys| != |value| {
        return Err;
      }
      var keyDict := [];
      WholeSlice(keys);
      WholeSlice(StripAll(value));
      for i := 0 to |keys|
        invariant keyDict + KeyItems(keys[i..], StripAll(value)[i..]) == KeyItems(keys, StripAll(value))
      {
        assert keys[i..][1..] == keys[i+1..] && StripAll(value)[i..][1..] == StripAll(value)[i+1..];
        SeqAssoc(keyDict, [(keys[i], One(Text(Strip(value[i]))))], KeyItems(keys[i+1..], StripAll(value)[i+1..]));
        keyDict := keyDict + [(keys[i], One(Text(Strip(value[i]))))];
      }
      SeqAssoc(keyDict, [], []);
      r := Ok(keyDict);
    }

    /** The elements of a leaf-list, converted. */
    method ConvertItems(leaf: Leaf, items: seq<string>) returns (r: Result<seq<Scalar>>)
      ensures r == ConvertAll(leaf.base, Kept(leaf, items))
    {
      hide Convert, ConvertAll, Kept, IsElement;
      var values := [];
      WholeSlice(items);
      ConvertNone(leaf.base);
      PrefixedNone(ConvertAll(leaf.base, Kept(leaf, items)));
      for i := 0 to |items|
        invariant ConvertAll(leaf.base, Kept(leaf, items)) == Prefixed(values, ConvertAll(leaf.base, Kept(leaf, items[i..])))
      {
        KeptStep(leaf, items, i);
        if IsElement(leaf, items[i]) {
          if Convert(leaf.base, items[i]).Err? {
            ConvertFails(leaf.base, items[i], Kept(leaf, items[i+1..]));
            return Err;
          }
          var x := Convert(leaf.base, items[i]).value;
          ConvertStep(leaf.base, items[i], Kept(leaf, items[i+1..]));
          PrefixedStep(values, x, ConvertAll(leaf.base, Kept(leaf, items[i+1..])));
          values := values + [x];
        }
      }
      KeptNone(leaf);
      SeqAssoc(values, [], []);
      r := Ok(values);
    }

    /** A field's value in the type of its leaf. */
    method FindYangTypedValue(leaf: Leaf, value: Value) returns (r: Result<Data>)
      requires elementPath != [] && elementPath[|elementPath|-1] == leaf.name
      ensures r == ToData(Env(elementPath[0], show), leaf, value)
    {
      hide ConvertAll, Kept, Convert, ListItems;
      var env := Env(elementPath[0], show);
      if leaf.isList {
        var values := ConvertItems(leaf, ListItems(env, leaf, value));
        if values.Err? || (values.value == [] && leaf.hasDefault) {
          return Err;
        }
        r := Ok(Many(values.value));
      } else {
        var x :- Convert(leaf.base, AsText(env, value));
        r := Ok(One(x));
      }
    }

    /** Fills the rest of an entry from its fields; the path is restored whether or not a field fails. */
    method FillEntry(l: YList, entry: Fields, fields: seq<Item>) returns (r: Result<Fields>)
      requires elementPath != []
      modifies this`elementPath
      ensures elementPath == old(elementPath)
      ensures r == AddFields(Env(elementPath[0], show), l.leaves, entry, fields)
    {
      hide ToData, FindLeaf, Put;
      ghost var env := Env(elementPath[0], show);
      var keyDict := entry;
      for i := 0 to |fields|
        invariant elementPath == old(elementPath)
        invariant AddFields(env, l.leaves, entry, fields) == AddFields(env, l.leaves, keyDict, fields[i..])
      {
        assert fields[i..][0] == fields[i] && fields[i..][1..] == fields[i+1..];
        match FindLeaf(l.leaves, fields[i].0)
        case None => return Err;
        case Some(leaf) =>
          elementPath := elementPath + [fields[i].0];
          var d := FindYangTypedValue(leaf, fields[i].1);
          elementPath := elementPath[..|elementPath|-1];
          assert elementPath == old(elementPath);
          if d.Err? {
            return Err;
          }
          keyDict := Put(keyDict, fields[i].0, d.value);
      }
      r := Ok(keyDict);
    }

    /** The inner list of a Type 1 entry. */
    method FillInner(inner: InnerList, fields: seq<Item>) returns (r: seq<Fields>)
      requires elementPath != []
      ensures r == InnerEntries(Env(elementPath[0], show), inner, fields)
    {
      hide InnerEntry;
      var env := Env(elementPath[0], show);
      r := [];
      for i := 0 to |fields|
        invariant r + InnerEntries(env, inner, fields[i..]) == InnerEntries(env, inner, fields)
      {
        assert fields[i..][0] == fields[i] && fields[i..][1..] == fields[i+1..];
        SeqAssoc(r, [InnerEntry(env, inner, fields[i])], InnerEntries(env, inner, fields[i+1..]));
        r := r + [InnerEntry(env, inner, fields[i])];
      }
    }

    /** One table entry; the path is restored in every case. */
    method XlateEntry(l: YList, x: Item) returns (r: Result<Fields>)
      requires elementPath != []
      modifies this`elementPath
      ensures elementPath == old(elementPath)
      ensures r == ToEntry(Env(elementPath[0], show), l, x)
    {
      hide AddFields, KeyItems, InnerEntries, IsType1;
      ghost var env := Env(elementPath[0], show);
      var key := ExtractKey(x.0, l.keys);
      if key.Err? {
        return Err;
      }
      if IsType1(l) && l.inner == [] {
        return key;
      }
      var fields := FieldsOf(x.1);
      if fields.Err? {
        return Err;
      }
      if IsType1(l) {
        var inner := FillInner(l.inner[0], fields.value);
        r := Ok(Put(key.value, l.inner[0].name, Entries(inner)));
      } else {
        elementPath := elementPath + [x.0];
        r := FillEntry(l, key.value, fields.value);
        elementPath := elementPath[..|elementPath|-1];
        assert elementPath == old(elementPath);
      }
    }

    /**
     Gives a list every entry it accepts and deletes those from the dictionary; entries that
     raise an error stay for the next list.
     */
    method XlateList(l: YList, items: seq<Item>) returns (yang: seq<Fields>, config: seq<Item>)
      requires elementPath != [] && Distinct(items)
      modifies this`elementPath
      ensures elementPath == old(elementPath)
      ensures yang == EntriesOf(Env(elementPath[0], show), l, items)
      ensures config == Passed(Env(elementPath[0], show), l, items)
    {
      hide ToEntry, EntriesOf, Passed, Del, Distinct;
      ghost var env := Env(elementPath[0], show);
      yang, config := [], items;
      ghost var kept: seq<Item> := [];
      WholeSlice(items);
      NoItems(env, l);
      for i := 0 to |items|
        invariant elementPath == old(elementPath)
        invariant yang + EntriesOf(env, l, items[i..]) == EntriesOf(env, l, items)
        invariant kept + Passed(env, l, items[i..]) == Passed(env, l, items)
        invariant config == kept + items[i..] && Distinct(config)
      {
        var x := items[i];
        assert items[i..][0] == x && items[i..][1..] == items[i+1..];
        assert config == kept + [x] + items[i+1..];
        ListStep(env, l, items[i..]);
        var entry := XlateEntry(l, x);
        match entry {
          case Ok(e) =>
            SeqAssoc(yang, [e], EntriesOf(env, l, items[i+1..]));
            DelMiddle(kept, x, items[i+1..]);
            DistinctWithout(kept, x, items[i+1..]);
            yang := yang + [e];
            config := Del(config, x.0);
          case Err =>
            SeqAssoc(kept, [x], Passed(env, l, items[i+1..]));
            kept := kept + [x];
        }
      }
      WholeSlice(yang);
      WholeSlice(kept);
    }

    /** All lists of a container in turn, each seeing what the earlier ones left. */
    method XlateLists(lists: seq<YList>, items: seq<Item>) returns (yang: Fields, config: seq<Item>)
      requires elementPath != [] && IsDict(items)
      modifies this`elementPath
      ensures elementPath == old(elementPath)
      ensures yang == ListNodes(Env(elementPath[0], show), lists, items)
      ensures config == Unlisted(Env(elementPath[0], show), lists, items)
      ensures IsDict(config)
    {
      hide EntriesOf, Passed, IsDict;
      ghost var env := Env(elementPath[0], show);
      yang, config := [], items;
      WholeSlice(lists);
      for i := 0 to |lists|
        invariant elementPath == old(elementPath) && IsDict(config)
        invariant yang + ListNodes(env, lists[i..], config) == ListNodes(env, lists, items)
        invariant Unlisted(env, lists[i..], config) == Unlisted(env, lists, items)
      {
        assert lists[i..][0] == lists[i] && lists[i..][1..] == lists[i+1..];
        PassedDict(env, lists[i], config);
        var entries, rest := XlateList(lists[i], config);
        if entries != [] {
          SeqAssoc(yang, [(lists[i].name, Entries(entries))], ListNodes(env, lists[i+1..], rest));
          yang := yang + [(lists[i].name, Entries(entries))];
        }
        config := rest;
      }
      SeqAssoc(yang, [], []);
    }

    method XlateContainerInContainer(child: Container, v: Option<Value>) returns (r: Result<Option<Data>>)
      requires elementPath != [] && (v.Some? ==> DeepDistinct(v.value))
      modifies this`elementPath
      ensures r == ContainerNode(Env(old(elementPath)[0], show), child, v)
      ensures r.Ok? ==> elementPath == old(elementPath)
      ensures r.Err? ==> old(elementPath) <= elementPath
      decreases child, 2
    {
      hide ToTree;
      if v.None? || IsEmpty(v.value) {
        return Ok(Some(Node([])));
      }
      elementPath := elementPath + [child.name];
      if !v.value.Obj? {
        return Err;
      }
      var fields := XlateContainer(child, v.value.fields);
      if fields.Err? {
        return Err;
      }
      elementPath := elementPath[..|elementPath|-1];
      assert elementPath == old(elementPath);
      r := Ok(if fields.value == [] then None else Some(Node(fields.value)));
    }

    /** The containers of a container, each taking the item with its name. */
    method XlateContainers(c: Container, items: seq<Item>) returns (r: Result<Fields>, config: seq<Item>)
      requires elementPath != [] && IsDict(items)
      modifies this`elementPath
      ensures r == ContainerNodes(Env(old(elementPath)[0], show), c, 0, items)
      ensures r.Ok? ==> elementPath == old(elementPath) && config == Uncontained(c.containers, items) && IsDict(config)
      ensures r.Err? ==> old(elementPath) <= elementPath
      decreases c, 0
    {
      hide IsDict, ContainerNode, ContainerNodes, Uncontained, Get, Del;
      ghost var env := Env(elementPath[0], show);
      var nodes: Fields := [];
      config := items;
      WholeSlice(c.containers);
      PrefixedNone(ContainerNodes(env, c, 0, items));
      for n := 0 to |c.containers|
        invariant elementPath == old(elementPath) && IsDict(config)
        invariant ContainerNodes(env, c, 0, items) == Prefixed(nodes, ContainerNodes(env, c, n, config))
        invariant Uncontained(c.containers[n..], config) == Uncontained(c.containers, items)
      {
        var child := c.containers[n];
        assert c.containers[n..][0] == child && c.containers[n..][1..] == c.containers[n+1..];
        var v := Get(config, child.name);
        ghost var left := if v.Some? then Del(config, child.name) else config;
        ContainerNodesStep(env, c, n, config);
        UncontainedStep(c.containers[n..], config);
        DictValue(config, child.name);
        var node := XlateContainerInContainer(child, v);
        if node.Err? {
          return Err, config;
        }
        if node.value.Some? {
          PrefixedStep(nodes, (child.name, node.value.value), ContainerNodes(env, c, n + 1, left));
          nodes := nodes + [(child.name, node.value.value)];
        }
        if v.Some? {
          config := Del(config, child.name);
        }
      }
      NoContainersLeft(env, c, config);
      WholeSlice(nodes);
      r := Ok(nodes);
    }

    /** The remaining items must be leaves: those are translated and deleted, anything left is an error. */
    method XlateLeaves(leaves: seq<Leaf>, items: seq<Item>) returns (r: Result<Fields>)
      requires elementPath != [] && Distinct(items)
      modifies this`elementPath
      ensures r == DataOf(Env(old(elementPath)[0], show), leaves, items)
      ensures r.Ok? ==> elementPath == old(elementPath)
      ensures r.Err? ==> old(elementPath) <= elementPath
    {
      hide ToData, FindLeaf;
      ghost var env := Env(elementPath[0], show);
      var yang: Fields := [];
      var config := items;
      ghost var kept: seq<Item> := [];
      PrefixedNone(DataOf(env, leaves, items));
      WholeSlice(items);
      for i := 0 to |items|
        invariant elementPath == old(elementPath)
        invariant config == kept + items[i..] && Distinct(config)
        invariant if kept == [] then DataOf(env, leaves, items) == Prefixed(yang, DataOf(env, leaves, items[i..]))
                  else DataOf(env, leaves, items).Err?
      {
        var x := items[i];
        assert items[i..][0] == x && items[i..][1..] == items[i+1..];
        assert config == kept + [x] + items[i+1..];
        match FindLeaf(leaves, x.0) {
          case None =>
            kept := kept + [x];
          case Some(leaf) =>
            elementPath := elementPath + [x.0];
            var d := FindYangTypedValue(leaf, x.1);
            if d.Err? {
              return Err;
            }
            elementPath := elementPath[..|elementPath|-1];
            assert elementPath == old(elementPath);
            PrefixedStep(yang, (x.0, d.value), DataOf(env, leaves, items[i+1..]));
            yang := yang + [(x.0, d.value)];
            DelMiddle(kept, x, items[i+1..]);
            DistinctWithout(kept, x, items[i+1..]);
            config := Del(config, x.0);
        }
      }
      if config != [] {
        return Err;
      }
      SeqAssoc(yang, [], []);
      r := Ok(yang);
    }

    /**
     Translates a dictionary into a container. It works on a copy from which it deletes what
     has been placed; when it returns normally the path is as before.
     */
    method XlateContainer(c: Container, items: seq<Item>) returns (r: Result<Fields>)
      requires elementPath != [] && IsDict(items)
      modifies this`elementPath
      ensures r == ToTree(Env(old(elementPath)[0], show), c, items)
      ensures r.Ok? ==> elementPath == old(elementPath)
      ensures r.Err? ==> old(elementPath) <= elementPath
      decreases c, 1
    {
      hide ListNodes, Unlisted, ContainerNodes, Uncontained, DataOf, Distinct;
      var lists := ActiveLists(c);
      var listed, left := XlateLists(lists, items);
      var containers: Result<Fields>, rest := Ok([]), left;
      if left == [] {
        NothingLeft(c.containers);
      } else {
        containers, rest := XlateContainers(c, left);
        if containers.Err? {
          return Err;
        }
      }
      var leaves := XlateLeaves(c.leaves, rest);
      if leaves.Err? {
        return Err;
      }
      r := Ok(listed + containers.value + leaves.value);
    }

    // ----- back to ConfigDB -----

    /** The primary key of a list entry. */
    method CreateKey(entry: Fields, keys: seq<string>) returns (r: Result<string>)
      ensures r == YangEntries.CreateKey(entry, keys)
    {
      hide Get, Truthy, PyStr, StripBars;
      var keyV := "";
      WholeSlice(keys);
      BarredGrow("", KeyTexts(entry, keys));
      for i := 0 to |keys|
        invariant YangEntries.CreateKey(entry, keys) == BarredAfter(keyV, KeyTexts(entry, keys[i..]))
      {
        assert keys[i..][0] == keys[i] && keys[i..][1..] == keys[i+1..];
        var val := Get(entry, keys[i]);
        if val.None? || !val.value.One? || !Truthy(val.value.scalar) {
          return Err;
        }
        BarredStep(keyV, PyStr(val.value.scalar), KeyTexts(entry, keys[i+1..]));
        keyV := keyV + (PyStr(val.value.scalar) + "|");
      }
      SeqAssoc(keyV, [], []);
      r := Ok(StripBars(keyV));
    }

    /** A leaf's value as ConfigDB keeps it. */
    method RevFindYangTypedValue(leaf: Leaf, value: Data) returns (r: Result<Config>)
      requires elementPath != [] && elementPath[|elementPath|-1] == leaf.name
      ensures r == FromData(Env(elementPath[0], show), leaf, value)
    {
      hide PyStr, JoinOn, Separator;
      if leaf.isList && value.Many? {
        var texts: seq<string> := [];
        WholeSlice(value.scalars);
        for i := 0 to |value.scalars|
          invariant texts + PyStrs(value.scalars[i..]) == PyStrs(value.scalars)
        {
          assert value.scalars[i..][0] == value.scalars[i] && value.scalars[i..][1..] == value.scalars[i+1..];
          SeqAssoc(texts, [PyStr(value.scalars[i])], PyStrs(value.scalars[i+1..]));
          texts := texts + [PyStr(value.scalars[i])];
        }
        SeqAssoc(texts, [], []);
        match Separator(elementPath[0], elementPath[|elementPath|-1])
        case Some(c) => r := Ok(CStr(JoinOn(texts, c)));
        case None => r := Ok(CLst(texts));
      } else if !leaf.isList && value.One? {
        if leaf.base.Bool? {
          r := Ok(CStr(if Truthy(value.scalar) then "true" else "false"));
        } else {
          r := Ok(CStr(PyStr(value.scalar)));
        }
      } else {
        r := Err;
      }
    }

    /** The fields of an entry that are not keys. */
    method RevFields(l: YList, entry: Fields) returns (r: Result<map<string, Config>>)
      requires elementPath != []
      modifies this`elementPath
      ensures r == Assigned(map[], ReadFields(Env(old(elementPath)[0], show), l, entry))
      ensures r.Ok? ==> elementPath == old(elementPath)
    {
      hide FromData, FindLeaf, Assigned, ReadFields;
      ghost var env := Env(elementPath[0], show);
      var config: map<string, Config> := map[];
      WholeSlice(entry);
      AssignedFails(map[]);
      for i := 0 to |entry|
        invariant elementPath == old(elementPath)
        invariant Assigned(map[], ReadFields(env, l, entry)) == Assigned(config, ReadFields(env, l, entry[i..]))
      {
        assert entry[i..][0] == entry[i] && entry[i..][1..] == entry[i+1..];
        ReadFieldsStep(env, l, entry[i..]);
        AssignedFails(config);
        var key := entry[i].0;
        if key !in l.keys {
          match FindLeaf(l.leaves, key)
          case None => return Err;
          case Some(leaf) =>
            elementPath := elementPath + [key];
            var v := RevFindYangTypedValue(leaf, entry[i].1);
            if v.Err? {
              return Err;
            }
            elementPath := elementPath[..|elementPath|-1];
            assert elementPath == old(elementPath);
            AssignedStep(config, (key, v.value), ReadFields(env, l, entry[i+1..]));
            config := config[key := v.value];
        }
      }
      NoFields(env, l);
      AssignedNone(config);
      r := Ok(config);
    }

    /** The fields of a Type 1 entry, from its inner list. */
    method RevInner(inner: InnerList, entries: seq<Fields>) returns (r: Result<map<string, Config>>)
      ensures r == Assigned(map[], ReadInner(inner, entries))
    {
      hide Get, PyStr, Assigned, ReadInner, InnerKey, InnerValue;
      var config: map<string, Config> := map[];
      WholeSlice(entries);
      for i := 0 to |entries|
        invariant Assigned(map[], ReadInner(inner, entries)) == Assigned(config, ReadInner(inner, entries[i..]))
      {
        assert entries[i..][0] == entries[i] && entries[i..][1..] == entries[i+1..];
        ReadInnerStep(inner, entries[i..]);
        AssignedFails(config);
        var k, v := Get(entries[i], InnerKey(inner)), Get(entries[i], InnerValue(inner));
        if k.None? || v.None? || !k.value.One? || !v.value.One? {
          return Err;
        }
        var name, text := PyStr(k.value.scalar), PyStr(v.value.scalar);
        AssignedStep(config, (name, CStr(text)), ReadInner(inner, entries[i+1..]));
        config := config[name := CStr(text)];
      }
      NoInner(inner);
      AssignedNone(config);
      r := Ok(config);
    }

    /** One list entry back into a primary key and its fields. */
    method RevXlateEntry(l: YList, entry: Fields) returns (r: Result<(string, Config)>)
      requires elementPath != []
      modifies this`elementPath
      ensures r == FromEntry(Env(old(elementPath)[0], show), l, entry)
      ensures r.Ok? ==> elementPath == old(elementPath)
    {
      hide IsType1, Get, KeyTexts, ReadFields, ReadInner, MapOf;
      var pkey := CreateKey(entry, l.keys);
      if pkey.Err? {
        return Err;
      }
      if IsType1(l) {
        if l.inner == [] {
          return Ok((pkey.value, CObj(map[])));
        }
        var list := Get(entry, l.inner[0].name);
        if list.None? || !list.value.Entries? {
          return Err;
        }
        var config := RevInner(l.inner[0], list.value.entries);
        if config.Err? {
          return Err;
        }
        AssignedFresh(ReadInner(l.inner[0], list.value.entries));
        r := Ok((pkey.value, CObj(config.value)));
      } else {
        elementPath := elementPath + [pkey.value];
        var config := RevFields(l, entry);
        if config.Err? {
          return Err;
        }
        elementPath := elementPath[..|elementPath|-1];
        assert elementPath == old(elementPath);
        AssignedFresh(ReadFields(Env(old(elementPath)[0], show), l, entry));
        r := Ok((pkey.value, CObj(config.value)));
      }
    }

    /** Adds the entries of a list to a dictionary. */
    method RevXlateList(l: YList, entries: seq<Fields>, before: map<string, Config>) returns (r: Result<map<string, Config>>)
      requires elementPath != []
      modifies this`elementPath
      ensures r == if Returns(l) then Assigned(before, EntryBindings(Env(old(elementPath)[0], show), l, entries)) else Ok(before)
      ensures r.Ok? ==> elementPath == old(elementPath)
    {
      hide FromEntry, Returns, MapOf;
      ghost var env := Env(elementPath[0], show);
      var config := before;
      if Returns(l) {
        WholeSlice(entries);
        for i := 0 to |entries|
          invariant elementPath == old(elementPath)
          invariant Assigned(before, EntryBindings(env, l, entries)) == Assigned(config, EntryBindings(env, l, entries[i..]))
        {
          assert entries[i..][0] == entries[i] && entries[i..][1..] == entries[i+1..];
          var b := RevXlateEntry(l, entries[i]);
          if b.Err? {
            return Err;
          }
          AssignedStep(config, b.value, EntryBindings(env, l, entries[i+1..]));
          config := config[b.value.0 := b.value.1];
        }
        AssignedNone(config);
      }
      r := Ok(config);
    }

    method RevXlateLists(lists: seq<YList>, yang: Fields, before: map<string, Config>) returns (r: Result<map<string, Config>>)
      requires elementPath != []
      modifies this`elementPath
      ensures r == Assigned(before, ListBindings(Env(old(elementPath)[0], show), lists, yang))
      ensures r.Ok? ==> elementPath == old(elementPath)
    {
      hide EntryBindings, Get, Returns, MapOf;
      ghost var env := Env(elementPath[0], show);
      var config := before;
      WholeSlice(lists);
      for i := 0 to |lists|
        invariant elementPath == old(elementPath)
        invariant Assigned(before, ListBindings(env, lists, yang)) == Assigned(config, ListBindings(env, lists[i..], yang))
      {
        assert lists[i..][0] == lists[i] && lists[i..][1..] == lists[i+1..];
        var d := Get(yang, lists[i].name);
        AssignedNone(config);
        AssignedParts(config, ListBinding(env, lists[i], d), ListBindings(env, lists[i+1..], yang));
        if d.Some? {
          if !d.value.Entries? {
            return Err;
          }
          var next := RevXlateList(lists[i], d.value.entries, config);
          if next.Err? {
            return Err;
          }
          config := next.value;
        }
      }
      AssignedNone(config);
      r := Ok(config);
    }

    method RevXlateContainers(c: Container, yang: Fields, before: map<string, Config>) returns (r: Result<map<string, Config>>)
      requires elementPath != []
      modifies this`elementPath
      ensures r == Assigned(before, ContainerBindings(Env(old(elementPath)[0], show), c, 0, yang))
      ensures r.Ok? ==> elementPath == old(elementPath)
      decreases c, 0
    {
      hide TreeBindings, Get, MapOf;
      ghost var env := Env(elementPath[0], show);
      var config := before;
      for n := 0 to |c.containers|
        invariant elementPath == old(elementPath)
        invariant Assigned(before, ContainerBindings(env, c, 0, yang)) == Assigned(config, ContainerBindings(env, c, n, yang))
      {
        var child := c.containers[n];
        var d := Get(yang, child.name);
        AssignedNone(config);
        AssignedParts(config, ContainerBinding(env, child, d), ContainerBindings(env, c, n + 1, yang));
        if d.Some? && d.value != Node([]) {
          if !d.value.Node? {
            return Err;
          }
          elementPath := elementPath + [child.name];
          var inner := RevXlateContainer(child, d.value.fields);
          if inner.Err? {
            return Err;
          }
          elementPath := elementPath[..|elementPath|-1];
          assert elementPath == old(elementPath);
          AssignedFresh(TreeBindings(env, child, d.value.fields));
          AssignedOne(config, (child.name, CObj(inner.value)));
          config := config[child.name := CObj(inner.value)];
        }
      }
      AssignedNone(config);
      r := Ok(config);
    }

    method RevXlateLeaves(leaves: seq<Leaf>, yang: Fields, before: map<string, Config>) returns (r: Result<map<string, Config>>)
      requires elementPath != []
      modifies this`elementPath
      ensures r == Assigned(before, LeafBindings(Env(old(elementPath)[0], show), leaves, yang))
      ensures r.Ok? ==> elementPath == old(elementPath)
    {
      hide FromData, FindLeaf, Assigned, LeafBindings;
      ghost var env := Env(elementPath[0], show);
      var config := before;
      WholeSlice(yang);
      for i := 0 to |yang|
        invariant elementPath == old(elementPath)
        invariant Assigned(before, LeafBindings(env, leaves, yang)) == Assigned(config, LeafBindings(env, leaves, yang[i..]))
      {
        assert yang[i..][0] == yang[i] && yang[i..][1..] == yang[i+1..];
        LeafBindingsStep(env, leaves, yang[i..]);
        AssignedFails(before);
        AssignedFails(config);
        var key := yang[i].0;
        match FindLeaf(leaves, key) {
          case None =>
          case Some(leaf) =>
            elementPath := elementPath + [key];
            var v := RevFindYangTypedValue(leaf, yang[i].1);
            if v.Err? {
              return Err;
            }
            elementPath := elementPath[..|elementPath|-1];
            assert elementPath == old(elementPath);
            AssignedStep(config, (key, v.value), LeafBindings(env, leaves, yang[i+1..]));
            config := config[key := v.value];
        }
      }
      NoLeaves(env, leaves);
      AssignedNone(config);
      r := Ok(config);
    }

    /** Rebuilds the dictionary of a container; when it returns normally the path is as before. */
    method RevXlateContainer(c: Container, yang: Fields) returns (r: Result<map<string, Config>>)
      requires elementPath != []
      modifies this`elementPath
      ensures r == Assigned(map[], TreeBindings(Env(old(elementPath)[0], show), c, yang))
      ensures r.Ok? ==> elementPath == old(elementPath)
      decreases c, 1
    {
      hide ListBindings, ContainerBindings, LeafBindings, MapOf;
      ghost var env := Env(elementPath[0], show);
      ghost var ls, cs, fs := ListBindings(env, c.lists, yang), ContainerBindings(env, c, 0, yang), LeafBindings(env, c.leaves, yang);
      AssignedParts(map[], ls, cs);
      if ls.Ok? && cs.Ok? {
        AssignedParts(map[], Ok(ls.value + cs.value), fs);
      }
      var lists := RevXlateLists(c.lists, yang, map[]);
      if lists.Err? {
        return Err;
      }
      var containers := RevXlateContainers(c, yang, lists.value);
      if containers.Err? {
        return Err;
      }
      r := RevXlateLeaves(c.leaves, yang, containers.value);
    }

    // ----- whole ConfigDBs -----

    /** Moves the tables without a schema out of the input. */
    method CropConfigDB()
      requires tablesWithOutYang == [] && Distinct(jIn)
      modifies this`jIn, this`tablesWithOutYang
      ensures jIn == Known(tables, old(jIn)) && tablesWithOutYang == Unknown(tables, old(jIn))
    {
      hide Known, Unknown, Del, Distinct;
      var items := jIn;
      NoTables(tables);
      ghost var kept: seq<Item> := [];
      WholeSlice(items);
      for i := 0 to |items|
        invariant jIn == kept + items[i..] && Distinct(jIn)
        invariant kept + Known(tables, items[i..]) == Known(tables, items)
        invariant tablesWithOutYang + Unknown(tables, items[i..]) == Unknown(tables, items)
      {
        var x := items[i];
        assert items[i..][0] == x && items[i..][1..] == items[i+1..];
        assert jIn == kept + [x] + items[i+1..];
        CropStep(tables, items[i..]);
        if x.0 !in tables {
          SeqAssoc(tablesWithOutYang, [x], Unknown(tables, items[i+1..]));
          DelMiddle(kept, x, items[i+1..]);
          DistinctWithout(kept, x, items[i+1..]);
          tablesWithOutYang := tablesWithOutYang + [x];
          jIn := Del(jIn, x.0);
        } else {
          SeqAssoc(kept, [x], Known(tables, items[i+1..]));
          kept := kept + [x];
        }
      }
      SeqAssoc(kept, [], []);
      SeqAssoc(tablesWithOutYang, [], []);
    }

    /** Translates one table. A failure leaves its name on the path and its entry in the data. */
    method XlateTable(x: Item) returns (ok: bool)
      requires x.0 in tables && DeepDistinct(x.1)
      modifies this`elementPath, this`xlateJson
      ensures ok <==> !TableFails(show, tables, old(elementPath), x)
      ensures ok ==> elementPath == [] && xlateJson == old(xlateJson) + [TableNode(show, tables, old(elementPath), x)]
      ensures !ok ==> elementPath != [] && elementPath[0] == Start(old(elementPath), x.0) && old(xlateJson) < xlateJson
    {
      hide ToTree, TopKey, DeepDistinct;
      ghost var path, done := elementPath, xlateJson;
      var t := tables[x.0];
      xlateJson := xlateJson + [(TopKey(t), [])];
      elementPath := elementPath + [x.0];
      assert elementPath[0] == Start(path, x.0);
      if !x.1.Obj? {
        return false;
      }
      DeepFields(x.1);
      var y := XlateContainer(t.container, x.1.fields);
      if y.Err? {
        return false;
      }
      Replaced(done, (TopKey(t), []), (TopKey(t), y.value));
      xlateJson := xlateJson[..|xlateJson|-1] + [(TopKey(t), y.value)];
      elementPath := [];
      ok := true;
    }

    /**
     Translates every table of the input. A failure leaves the tables before the failing one
     translated, and the path where it was.
     */
    method XlateConfigDBtoYang() returns (ok: bool)
      requires IsDict(jIn) && (forall x :: x in jIn ==> x.0 in tables) && xlateJson == []
      modifies this`elementPath, this`xlateJson
      ensures ok <==> ToTablesAfter(show, tables, old(elementPath), jIn).Ok?
      ensures ok ==> Ok(xlateJson) == ToTablesAfter(show, tables, old(elementPath), jIn)
      ensures ok ==> elementPath == if jIn == [] then old(elementPath) else []
      ensures !ok ==> Translated(show, tables, old(elementPath), jIn) < xlateJson
      ensures !ok ==> elementPath != [] && elementPath[0] == LeftBy(show, tables, old(elementPath), jIn)
    {
      hide ToTablesAfter, Translated, LeftBy, TableFails, TableNode, Start, DeepDistinct, Distinct;
      WholeSlice(jIn);
      WholeSlice(Translated(show, tables, elementPath, jIn));
      TranslatedAll(show, tables, elementPath, jIn);
      for i := 0 to |jIn|
        invariant i > 0 ==> elementPath == []
        invariant i == 0 ==> elementPath == old(elementPath)
        invariant xlateJson + Translated(show, tables, elementPath, jIn[i..]) == Translated(show, tables, old(elementPath), jIn)
        invariant ToTablesAfter(show, tables, old(elementPath), jIn).Ok? <==> ToTablesAfter(show, tables, elementPath, jIn[i..]).Ok?
        invariant ToTablesAfter(show, tables, elementPath, jIn[i..]).Err? ==>
                    LeftBy(show, tables, old(elementPath), jIn) == LeftBy(show, tables, elementPath, jIn[i..])
      {
        var x := jIn[i];
        assert x in jIn && jIn[i..][0] == x && jIn[i..][1..] == jIn[i+1..];
        FirstTable(show, tables, elementPath, jIn[i..]);
        WholeSlice(xlateJson);
        ghost var path, done := elementPath, xlateJson;
        var next := XlateTable(x);
        if !next {
          return false;
        }
        SeqAssoc(done, [TableNode(show, tables, path, x)], Translated(show, tables, [], jIn[i+1..]));
      }
      NoTable(show, tables, elementPath);
      WholeSlice(xlateJson);
      ok := true;
    }

    /**
     Loads a ConfigDB, which the caller keeps unchanged: what the library makes of the
     translation becomes the data tree, and there is none if either fails.
     */
    method LoadData(configdb: seq<Item>) returns (ok: bool)
      requires IsDict(configdb)
      modifies this`elementPath, this`jIn, this`tablesWithOutYang, this`xlateJson, this`root
      ensures jIn == Known(tables, configdb) && tablesWithOutYang == Unknown(tables, configdb)
      ensures match ToTablesAfter(show, tables, old(elementPath), jIn)
              case Ok(y) =>
                && xlateJson == y && elementPath == (if jIn == [] then old(elementPath) else [])
                && (match PrintedTables(tables, y)
                    case Ok(p) => ok && root == Some(p)
                    case Err => !ok && root == None)
              case Err =>
                && !ok && root == None && Translated(show, tables, old(elementPath), jIn) < xlateJson
                && elementPath != [] && elementPath[0] == LeftBy(show, tables, old(elementPath), jIn)
    {
      hide ToTablesAfter, Known, Unknown, Distinct, Translated, LeftBy, PrintedTables;
      jIn := configdb;
      xlateJson := [];
      tablesWithOutYang := [];
      CropConfigDB();
      KnownDict(tables, configdb);
      root := None;
      ok := XlateConfigDBtoYang();
      if ok {
        var printed := PrintedTables(tables, xlateJson);
        ok := printed.Ok?;
        if ok {
          root := Some(printed.value);
        }
      }
    }

    /** Rebuilds every table from the data. */
    method RevXlateYangtoConfigDB() returns (r: Result<map<string, Config>>)
      modifies this`elementPath
      ensures r == Assigned(map[], FromTablesAfter(show, tables, old(elementPath), xlateJson))
      ensures r.Ok? && xlateJson != [] ==> elementPath == []
    {
      hide TreeBindings, TableName, MapOf;
      var cDbJson: map<string, Config> := map[];
      var top := xlateJson;
      WholeSlice(top);
      for i := 0 to |top|
        invariant i > 0 ==> elementPath == []
        invariant i == 0 ==> elementPath == old(elementPath)
        invariant Assigned(map[], FromTablesAfter(show, tables, old(elementPath), top)) ==
                  Assigned(cDbJson, FromTablesAfter(show, tables, elementPath, top[i..]))
      {
        assert top[i..][0] == top[i] && top[i..][1..] == top[i+1..];
        var name := TableName(top[i].0.1);
        if name.Err? || name.value !in tables {
          return Err;
        }
        var table := name.value;
        elementPath := elementPath + [table];
        var c := tables[table].container;
        AssignedFresh(TreeBindings(Env(elementPath[0], show), c, top[i].1));
        var config := RevXlateContainer(c, top[i].1);
        if config.Err? {
          return Err;
        }
        AssignedStep(cDbJson, (table, CObj(config.value)), FromTablesAfter(show, tables, [], top[i+1..]));
        cDbJson := cDbJson[table := CObj(config.value)];
        elementPath := [];
      }
      AssignedNone(cDbJson);
      r := Ok(cDbJson);
    }

    /** Reads the data tree back, translated; without one it fails. */
    method GetData() returns (r: Result<map<string, Config>>)
      modifies this`elementPath, this`xlateJson, this`revXlateJson
      ensures r == match root
                   case None => Err
                   case Some(p) => Assigned(map[], FromTablesAfter(show, tables, old(elementPath), p))
      ensures root.Some? ==> xlateJson == root.value
      ensures r.Ok? ==> revXlateJson == r.value
    {
      hide FromTablesAfter, MapOf;
      if root.None? {
        return Err;
      }
      xlateJson := root.value;
      revXlateJson := map[];
      r := RevXlateYangtoConfigDB();
      if r.Ok? {
        revXlateJson := r.value;
      }
    }

    /**
     Loading into a translator with a clear path and reading back gives the loaded tables
     again exactly when every table the schema knows is non-empty and well typed.
     */
    method LoadAndGet(configdb: seq<Item>) returns (r: Result<map<string, Config>>)
      requires elementPath == [] && IsDict(configdb) && TablesOk(tables)
      modifies this
      ensures var known := Known(tables, configdb);
              r == Ok(MapOf(AsBindings(known))) <==> forall x :: x in known ==> TableWellTyped(show, tables, x)
      ensures tablesWithOutYang == Unknown(tables, configdb)
    {
      hide ToTablesAfter, FromTablesAfter, ToTables, FromTables, PrintedTables, Known, Unknown, TablesOk, TableWellTyped, Distinct,
        MapOf, AsBindings, DeepDistinct, Translated, LeftBy;
      ghost var known := Known(tables, configdb);
      KnownDict(tables, configdb);
      TablesTripIff(show, tables, known);
      ClearStart(show, tables, [], known);
      var ok := LoadData(configdb);
      if ok {
        ClearReturn(show, tables, root.value);
        AssignedFresh(FromTables(show, tables, root.value));
      }
      r := GetData();
    }
  }

  /**
   Two translators of one schema that load the same tables and end with different data: one
   of them has failed on table PORT before, and reads the separators of table X under that name.
   */
  method LoadAfterFailure(show: Value -> string) returns (clear: Translator, stale: Translator)
    ensures fresh(clear) && fresh(stale) && clear.tables == stale.tables && clear.show == stale.show == show
    ensures clear.jIn == stale.jIn && clear.root.Some? && stale.root.Some?
    ensures clear.xlateJson != stale.xlateJson && clear.root != stale.root
  {
    hide ToTablesAfter, ToTree, TopKey, PrintedTables, Translated;
    clear := new Translator(TWO_TABLES, show);
    stale := new Translator(TWO_TABLES, show);
    FailingLoad(show);
    var failed := stale.LoadData([("PORT", Str("x"))]);
    assert !failed && stale.elementPath[0] == "PORT";
    SpeedDict();
    StaleStartMatters(show, stale.elementPath);
    SpeedsPrinted();
    var first := clear.LoadData(SPEED_ITEMS);
    var second := stale.LoadData(SPEED_ITEMS);
  }

  lemma NoContainersLeft(env: Env, c: Container, items: seq<Item>)
    ensures ContainerNodes(env, c, |c.containers|, items) == Ok([]) && Uncontained([], items) == items
  {
  }

  lemma ContainerNodesStep(env: Env, c: Container, n: nat, items: seq<Item>)
    requires n < |c.containers|
    ensures var child := c.containers[n];
            var v := Get(items, child.name);
            var rest := ContainerNodes(env, c, n + 1, if v.Some? then Del(items, child.name) else items);
            match ContainerNode(env, child, v)
            case Err => ContainerNodes(env, c, n, items) == Err
            case Ok(None) => ContainerNodes(env, c, n, items) == rest
            case Ok(Some(d)) => ContainerNodes(env, c, n, items) == Prefixed([(child.name, d)], rest)
  {
    hide ContainerNode, Get, Del;
  }

  lemma UncontainedStep(cs: seq<Container>, items: seq<Item>)
    requires cs != []
    ensures Uncontained(cs, items) ==
            Uncontained(cs[1..], if Get(items, cs[0].name).Some? then Del(items, cs[0].name) else items)
  {
    hide Get, Del;
  }

  lemma NoTables(tables: map<string, Table>)
    ensures Known(tables, []) == [] && Unknown(tables, []) == []
  {
  }

  lemma CropStep(tables: map<string, Table>, items: seq<Item>)
    requires items != []
    ensures var x, rest := items[0], items[1..];
            if x.0 in tables then Known(tables, items) == [x] + Known(tables, rest) && Unknown(tables, items) == Unknown(tables, rest)
            else Known(tables, items) == Known(tables, rest) && Unknown(tables, items) == [x] + Unknown(tables, rest)
  {
  }

  lemma NoItems(env: Env, l: YList)
    ensures EntriesOf(env, l, []) == [] && Passed(env, l, []) == []
  {
  }

  lemma ListStep(env: Env, l: YList, items: seq<Item>)
    requires items != []
    ensures var x, rest := items[0], items[1..];
            match ToEntry(env, l, x)
            case Ok(e) => EntriesOf(env, l, items) == [e] + EntriesOf(env, l, rest) && Passed(env, l, items) == Passed(env, l, rest)
            case Err => EntriesOf(env, l, items) == EntriesOf(env, l, rest) && Passed(env, l, items) == [x] + Passed(env, l, rest)
  {
    hide ToEntry;
  }

  lemma DeepFields(v: Value)
    requires DeepDistinct(v) && v.Obj?
    ensures IsDict(v.fields)
  {
    forall x | x in v.fields
      ensures DeepDistinct(x.1)
    {
      ItemDeep(v.fields, x);
    }
  }

  lemma Replaced<T>(a: seq<T>, x: T, y: T)
    ensures (a + [x])[..|a + [x]| - 1] + [y] == a + [y]
  {
  }

  lemma FailingLoad(show: Value -> string)
    ensures var items: seq<Item> := [("PORT", Str("x"))];
            && IsDict(items) && Known(TWO_TABLES, items) == items
            && ToTablesAfter(show, TWO_TABLES, [], items).Err? && LeftBy(show, TWO_TABLES, [], items) == "PORT"
  {
    var items: seq<Item> := [("PORT", Str("x"))];
    assert items[1..] == [] && Known(TWO_TABLES, []) == [];
  }

  lemma SpeedDict()
    ensures IsDict(SPEED_ITEMS) && Known(TWO_TABLES, SPEED_ITEMS) == SPEED_ITEMS
  {
    assert SPEED_ITEMS[1..] == [] && Known(TWO_TABLES, []) == [];
  }

  lemma KnownDict(tables: map<string, Table>, items: seq<Item>)
    requires IsDict(items)
    ensures Distinct(items) && IsDict(Known(tables, items)) && Distinct(Known(tables, items))
  {
    hide Distinct, Known, DeepDistinct;
    KnownDistinct(tables, items);
    forall x | x in Known(tables, items)
      ensures DeepDistinct(x.1)
    {
      CropExact(tables, items, x);
    }
  }

  /** A dictionary after a series of assignments. */
  function Assigned(before: map<string, Config>, bs: Result<seq<(string, Config)>>): Result<map<string, Config>> {
    var b :- bs;
    Ok(before + MapOf(b))
  }

  lemma AssignedFresh(bs: Result<seq<(string, Config)>>)
    ensures bs.Ok? ==> Assigned(map[], bs) == Ok(MapOf(bs.value))
  {
    hide MapOf;
    if bs.Ok? {
      assert map[] + MapOf(bs.value) == MapOf(bs.value);
    }
  }

  lemma AssignedNone(before: map<string, Config>)
    ensures Assigned(before, Ok([])) == Ok(before)
  {
    assert before + map[] == before;
  }

  lemma AssignedFails(before: map<string, Config>)
    ensures Assigned(before, Err) == Err
  {
  }

  lemma NoFields(env: Env, l: YList)
    ensures ReadFields(env, l, []) == Ok([])
  {
  }

  lemma ReadFieldsStep(env: Env, l: YList, fields: Fields)
    requires fields != []
    ensures var key, rest := fields[0].0, ReadFields(env, l, fields[1..]);
            if key in l.keys then ReadFields(env, l, fields) == rest
            else
              match FindLeaf(l.leaves, key)
              case None => ReadFields(env, l, fields) == Err
              case Some(leaf) =>
                match FromData(env, leaf, fields[0].1)
                case Err => ReadFields(env, l, fields) == Err
                case Ok(v) => ReadFields(env, l, fields) == Prefixed([(key, v)], rest)
  {
    hide FromData, FindLeaf;
  }

  lemma NoInner(inner: InnerList)
    ensures ReadInner(inner, []) == Ok([])
  {
  }

  lemma ReadInnerStep(inner: InnerList, entries: seq<Fields>)
    requires entries != []
    ensures var k, v := Get(entries[0], InnerKey(inner)), Get(entries[0], InnerValue(inner));
            ReadInner(inner, entries) ==
            if k.None? || v.None? || !k.value.One? || !v.value.One? then Err
            else Prefixed([(PyStr(k.value.scalar), CStr(PyStr(v.value.scalar)))], ReadInner(inner, entries[1..]))
  {
    hide Get, PyStr, InnerKey, InnerValue;
  }

  lemma NoLeaves(env: Env, leaves: seq<Leaf>)
    ensures LeafBindings(env, leaves, []) == Ok([])
  {
  }

  lemma LeafBindingsStep(env: Env, leaves: seq<Leaf>, fields: Fields)
    requires fields != []
    ensures var key, rest := fields[0].0, LeafBindings(env, leaves, fields[1..]);
            match FindLeaf(leaves, key)
            case None => LeafBindings(env, leaves, fields) == rest
            case Some(leaf) =>
              match FromData(env, leaf, fields[0].1)
              case Err => LeafBindings(env, leaves, fields) == Err
              case Ok(v) => LeafBindings(env, leaves, fields) == Prefixed([(key, v)], rest)
  {
    hide FromData, FindLeaf;
  }

  lemma AssignedOne(before: map<string, Config>, b: (string, Config))
    ensures Assigned(before, Ok([b])) == Ok(before[b.0 := b.1])
  {
    assert [b][1..] == [] && MapOf([b]) == map[b.0 := b.1];
    assert before + map[b.0 := b.1] == before[b.0 := b.1];
  }

  lemma AssignedParts(before: map<string, Config>, a: Result<seq<(string, Config)>>, b: Result<seq<(string, Config)>>)
    ensures a.Ok? ==> Assigned(before, Prefixed(a.value, b)) == Assigned(Assigned(before, a).value, b)
  {
    hide MapOf;
    if a.Ok? && b.Ok? {
      MapOfAppend(a.value, b.value);
      assert before + (MapOf(a.value) + MapOf(b.value)) == before + MapOf(a.value) + MapOf(b.value);
    }
  }

  lemma AssignedStep(before: map<string, Config>, x: (string, Config), rest: Result<seq<(string, Config)>>)
    ensures Assigned(before, Prefixed([x], rest)) == Assigned(before[x.0 := x.1], rest)
  {
    AssignedOne(before, x);
    AssignedParts(before, Ok([x]), rest);
  }

  function BarredAfter(keyV: string, ts: Result<seq<string>>): Result<string> {
    var t :- ts;
    Ok(StripBars(keyV + Barred(t)))
  }

  lemma BarredGrow(keyV: string, ts: Result<seq<string>>)
    requires keyV == ""
    ensures ts.Ok? ==> BarredAfter(keyV, ts) == Ok(StripBars(Barred(ts.value)))
  {
    if ts.Ok? {
      SeqAssoc(Barred(ts.value), [], []);
    }
  }

  lemma BarredStep(keyV: string, t: string, rest: Result<seq<string>>)
    ensures BarredAfter(keyV, Prefixed([t], rest)) == BarredAfter(keyV + (t + "|"), rest)
  {
    if rest.Ok? {
      assert ([t] + rest.value)[1..] == rest.value;
      SeqAssoc(keyV, t + "|", Barred(rest.value));
    }
  }

  /** No two items of a dictionary, or of a dictionary in it, share a name. */
  predicate IsDict(items: seq<Item>) {
    Distinct(items) && forall x :: x in items ==> DeepDistinct(x.1)
  }

  lemma PassedDict(env: Env, l: YList, items: seq<Item>)
    requires IsDict(items)
    ensures Distinct(items) && IsDict(Passed(env, l, items))
  {
    hide Distinct, Passed, DeepDistinct;
    SplitDistinct(env, l, items);
    forall x | x in Passed(env, l, items)
      ensures DeepDistinct(x.1)
    {
      TakenExact(env, l, items, x);
    }
  }

  lemma DictValue(items: seq<Item>, name: string)
    requires IsDict(items)
    ensures Get(items, name).Some? ==> DeepDistinct(Get(items, name).value)
    ensures IsDict(Del(items, name))
  {
    hide Distinct, Get, Del, DeepDistinct;
    DelExact(items, name, ("", Str("")));
    forall x | x in Del(items, name)
      ensures DeepDistinct(x.1)
    {
      DelExact(items, name, x);
    }
  }

  function Prefixed<T>(a: seq<T>, r: Result<seq<T>>): Result<seq<T>> {
    var b :- r;
    Ok(a + b)
  }

  lemma PrefixedStep<T>(a: seq<T>, x: T, r: Result<seq<T>>)
    ensures Prefixed(a, Prefixed([x], r)) == Prefixed(a + [x], r)
  {
    if r.Ok? {
      SeqAssoc(a, [x], r.value);
    }
  }

  lemma PrefixedNone<T>(r: Result<seq<T>>)
    ensures Prefixed([], r) == r
    ensures r.Ok? ==> Prefixed(r.value, Ok([])) == r
  {
    if r.Ok? {
      SeqAssoc(r.value, [], []);
    }
  }

  lemma ConvertNone(base: Base)
    ensures ConvertAll(base, []) == Ok([])
  {
  }

  lemma ConvertFails(base: Base, s: string, rest: seq<string>)
    requires Convert(base, s).Err?
    ensures ConvertAll(base, [s] + rest) == Err
  {
    hide Convert;
  }

  lemma ConvertStep(base: Base, s: string, rest: seq<string>)
    requires Convert(base, s).Ok?
    ensures ConvertAll(base, [s] + rest) == Prefixed([Convert(base, s).value], ConvertAll(base, rest))
  {
    hide Convert;
    assert ([s] + rest)[1..] == rest;
  }

  lemma KeptNone(leaf: Leaf)
    ensures Kept(leaf, []) == []
  {
  }

  lemma KeptStep(leaf: Leaf, items: seq<string>, i: nat)
    requires i < |items|
    ensures Kept(leaf, items[i..]) ==
            if IsElement(leaf, items[i]) then [items[i]] + Kept(leaf, items[i+1..]) else Kept(leaf, items[i+1..])
  {
    assert items[i..][0] == items[i] && items[i..][1..] == items[i+1..];
  }

  lemma {:induction false} DelMiddle<V>(a: seq<(string, V)>, x: (string, V), b: seq<(string, V)>)
    requires Distinct(a + [x] + b)
    ensures Del(a + [x] + b, x.0) == a + b
  {
    var all := a + [x] + b;
    if a == [] {
      assert all[0] == x && all[1..] == b && a + b == b;
    } else {
      assert all[1..] == a[1..] + [x] + b && all[|a|] == x && all[0] == a[0];
      DelMiddle(a[1..], x, b);
      assert a + b == [a[0]] + (a[1..] + b);
    }
  }

  lemma DistinctWithout<V>(a: seq<(string, V)>, x: (string, V), b: seq<(string, V)>)
    requires Distinct(a + [x] + b)
    ensures Distinct(a + b)
  {
    var all := a + [x] + b;
    forall i, j | 0 <= i < j < |a + b|
      ensures (a + b)[i].0 != (a + b)[j].0
    {
      assert (a + b)[i] == all[if i < |a| then i else i + 1];
      assert (a + b)[j] == all[if j < |a| then j else j + 1];
    }
  }
}
