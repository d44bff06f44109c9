/** Which data nodes refer to the leaves of a subtree. */
module Leafrefs {
  import opened Texts
  import opened Dicts

  /** A data node with its data path and schema path; a leaf without a value holds None. */
  datatype Node =
    | Leaf(path: string, schema: string, value: Option<string>)
    | Inner(path: string, schema: string, children: seq<Node>)

  /** What the library tells about leafrefs: their schema paths, if it can list them, and the targets of each. */
  datatype Schema = Schema(leafrefs: Option<seq<string>>, targets: string -> Option<seq<string>>)

  function TargetsOf(s: Schema, path: string): seq<string> {
    match s.targets(path)
    case None => []
    case Some(ts) => ts
  }

  type Backlinks = seq<(string, seq<string>)>

  // ----- the backlink map -----

  function AddLink(m: Backlinks, target: string, path: string): Backlinks {
    match Get(m, target)
    case None => Put(m, target, [path])
    case Some(paths) => Put(m, target, paths + [path])
  }

  function AddLinks(m: Backlinks, ts: seq<string>, path: string): Backlinks
    decreases |ts|
  {
    if ts == [] then m else AddLinks(AddLink(m, ts[0], path), ts[1..], path)
  }

  function AddAll(s: Schema, m: Backlinks, paths: seq<string>): Backlinks
    decreases |paths|
  {
    if paths == [] then m else AddAll(s, AddLinks(m, TargetsOf(s, paths[0]), paths[0]), paths[1..])
  }

  /** The leafrefs recorded for a target. */
  function Links(m: Backlinks, target: string): seq<string> {
    match Get(m, target)
    case None => []
    case Some(paths) => paths
  }

  lemma LinkAdded(m: Backlinks, target: string, path: string, t: string, p: string)
    ensures p in Links(AddLink(m, target, path), t) <==> p in Links(m, t) || (t == target && p == path)
  {
    hide Get, Put;
    match Get(m, target)
    case None => PutGet(m, target, [path], t);
    case Some(paths) => PutGet(m, target, paths + [path], t);
  }

  lemma {:induction false} LinksAdded(m: Backlinks, ts: seq<string>, path: string, t: string, p: string)
    ensures p in Links(AddLinks(m, ts, path), t) <==> p in Links(m, t) || (t in ts && p == path)
    decreases |ts|
  {
    hide AddLink, Links;
    if ts != [] {
      LinkAdded(m, ts[0], path, t, p);
      LinksAdded(AddLink(m, ts[0], path), ts[1..], path, t, p);
      assert ts == [ts[0]] + ts[1..];
    }
  }

  lemma {:induction false} AllAdded(s: Schema, m: Backlinks, paths: seq<string>, t: string, p: string)
    ensures p in Links(AddAll(s, m, paths), t) <==> p in Links(m, t) || (p in paths && t in TargetsOf(s, p))
    decreases |paths|
  {
    hide AddLinks, Links;
    if paths != [] {
      LinksAdded(m, TargetsOf(s, paths[0]), paths[0], t, p);
      AllAdded(s, AddLinks(m, TargetsOf(s, paths[0]), paths[0]), paths[1..], t, p);
      assert paths == [paths[0]] + paths[1..];
    }
  }

  /** The backlink map is the inverse of the leafref-to-target relation. */
  lemma BacklinksExact(s: Schema, t: string, p: string)
    requires s.leafrefs.Some?
    ensures p in Links(AddAll(s, [], s.leafrefs.value), t) <==> p in s.leafrefs.value && t in TargetsOf(s, p)
  {
    AllAdded(s, [], s.leafrefs.value, t, p);
  }

  // ----- the data tree -----

  predicate Under(x: Node, n: Node) {
    x == n || (n.Inner? && exists i :: 0 <= i < |n.children| && Under(x, n.children[i]))
  }

  predicate InForest(x: Node, forest: seq<Node>) {
    exists n :: n in forest && Under(x, n)
  }

  /** All nodes at or below a node, parents first. */
  function All(n: Node): seq<Node>
    decreases n, 0
  {
    [n] + (if n.Inner? then AllChildren(n, |n.children|) else [])
  }

  function AllChildren(n: Node, k: nat): seq<Node>
    requires n.Inner? && k <= |n.children|
    decreases n, 0, k
  {
    if k == 0 then [] else AllChildren(n, k - 1) + All(n.children[k-1])
  }

  function AllOf(forest: seq<Node>): seq<Node> {
    if forest == [] then [] else All(forest[0]) + AllOf(forest[1..])
  }

  function WithSchema(ns: seq<Node>, schema: string): (r: seq<Node>)
    ensures forall n :: n in r <==> n in ns && n.schema == schema
  {
    if ns == [] then []
    else if ns[0].schema == schema then [ns[0]] + WithSchema(ns[1..], schema)
    else WithSchema(ns[1..], schema)
  }

  lemma {:induction false} AllExact(n: Node, x: Node)
    ensures x in All(n) <==> Under(x, n)
    decreases n, 1
  {
    if n.Inner? {
      AllChildrenExact(n, |n.children|, x);
    }
  }

  lemma {:induction false} AllChildrenExact(n: Node, k: nat, x: Node)
    requires n.Inner? && k <= |n.children|
    ensures x in AllChildren(n, k) <==> exists i :: 0 <= i < k && Under(x, n.children[i])
    decreases n, 0, k
  {
    if k > 0 {
      AllChildrenExact(n, k - 1, x);
      AllExact(n.children[k-1], x);
    }
  }

  lemma {:induction false} AllOfExact(forest: seq<Node>, x: Node)
    ensures x in AllOf(forest) <==> InForest(x, forest)
  {
    hide Under, All;
    if forest != [] {
      AllExact(forest[0], x);
      AllOfExact(forest[1..], x);
      assert forest == [forest[0]] + forest[1..];
      if InForest(x, forest) {
        var n :| n in forest && Under(x, n);
        assert n == forest[0] || n in forest[1..];
      }
    }
  }

  // ----- references -----

  /** A node refers to a leaf's value; a leaf without a value is referred to by every node. */
  predicate Matches(d: Node, value: Option<string>) {
    value.None? || d.Inner? || d.value == value
  }

  function MatchingPaths(ds: seq<Node>, value: Option<string>): (r: seq<string>)
    ensures forall p :: p in r <==> exists d :: d in ds && Matches(d, value) && d.path == p
  {
    if ds == [] then []
    else
      assert forall d :: d in ds <==> d == ds[0] || d in ds[1..];
      if Matches(ds[0], value) then [ds[0].path] + MatchingPaths(ds[1..], value) else MatchingPaths(ds[1..], value)
  }

  function LinkPaths(forest: seq<Node>, links: seq<string>, value: Option<string>): seq<string> {
    if links == [] then []
    else MatchingPaths(WithSchema(AllOf(forest), links[0]), value) + LinkPaths(forest, links[1..], value)
  }

  lemma {:induction false} LinkPathsExact(forest: seq<Node>, links: seq<string>, value: Option<string>, p: string)
    ensures p in LinkPaths(forest, links, value) <==>
            exists d :: d in AllOf(forest) && d.schema in links && Matches(d, value) && d.path == p
  {
    hide Matches, AllOf, WithSchema, MatchingPaths;
    if links != [] {
      LinkPathsExact(forest, links[1..], value, p);
      assert links == [links[0]] + links[1..];
      var first := MatchingPaths(WithSchema(AllOf(forest), links[0]), value);
      if p in LinkPaths(forest, links, value) {
        if p in first {
          var d :| d in WithSchema(AllOf(forest), links[0]) && Matches(d, value) && d.path == p;
        }
      }
      if exists d :: d in AllOf(forest) && d.schema in links && Matches(d, value) && d.path == p {
        var d :| d in AllOf(forest) && d.schema in links && Matches(d, value) && d.path == p;
        if d.schema == links[0] {
          assert d in WithSchema(AllOf(forest), links[0]);
        }
      }
    }
  }

  /** The references to the leaves at or below a node, in the order they are met. */
  function NodePaths(forest: seq<Node>, m: Backlinks, n: Node): seq<string>
    decreases n, 1
  {
    match n
    case Leaf(_, schema, value) => LinkPaths(forest, Dependencies(m, schema), value)
    case Inner(_, _, children) => ChildPaths(forest, m, n, |children|)
  }

  function ChildPaths(forest: seq<Node>, m: Backlinks, n: Node, k: nat): seq<string>
    requires n.Inner? && k <= |n.children|
    decreases n, 0, k
  {
    if k == 0 then [] else ChildPaths(forest, m, n, k - 1) + NodePaths(forest, m, n.children[k-1])
  }

  function PathsOf(forest: seq<Node>, m: Backlinks, ns: seq<Node>): seq<string> {
    if ns == [] then [] else NodePaths(forest, m, ns[0]) + PathsOf(forest, m, ns[1..])
  }

  predicate Selected(path: Option<string>, target: string) {
    path.None? || target == path.value || path.value + "/" <= target
  }

  /** The leafrefs to the targets at or below a path; without a path, to all. */
  function LinksBelow(m: Backlinks, path: Option<string>): seq<string> {
    if m == [] then []
    else if Selected(path, m[0].0) then m[0].1 + LinksBelow(m[1..], path)
    else LinksBelow(m[1..], path)
  }

  function Proper(path: Option<string>): Option<string> {
    if path == Some("") || path == Some("/") then None else path
  }

  function SchemaDependencies(m: Backlinks, path: Option<string>, ancestors: bool): seq<string> {
    var p := Proper(path);
    if p.None? || ancestors then LinksBelow(m, p) else Links(m, p.value)
  }

  /** The leafrefs to one schema path; the root path stands for all of them. */
  function Dependencies(m: Backlinks, schema: string): seq<string> {
    SchemaDependencies(m, Some(schema), false)
  }

  predicate Refers(forest: seq<Node>, m: Backlinks, f: Node, p: string) {
    f.Leaf? && exists d :: d in AllOf(forest) && d.schema in Dependencies(m, f.schema) && Matches(d, f.value) && d.path == p
  }

  lemma {:induction false} NodePathsExact(forest: seq<Node>, m: Backlinks, n: Node, p: string)
    ensures p in NodePaths(forest, m, n) <==> exists f :: Under(f, n) && Refers(forest, m, f, p)
    decreases n, 1
  {
    hide AllOf, Matches, Dependencies, LinkPaths;
    match n
    case Leaf(_, schema, value) =>
      LinkPathsExact(forest, Dependencies(m, schema), value, p);
      assert Under(n, n);
    case Inner(_, _, children) =>
      ChildPathsExact(forest, m, n, |children|, p);
      if exists f :: Under(f, n) && Refers(forest, m, f, p) {
        var f :| Under(f, n) && Refers(forest, m, f, p);
        assert f != n;
        var i :| 0 <= i < |children| && Under(f, children[i]);
      }
  }

  lemma {:induction false} ChildPathsExact(forest: seq<Node>, m: Backlinks, n: Node, k: nat, p: string)
    requires n.Inner? && k <= |n.children|
    ensures p in ChildPaths(forest, m, n, k) <==>
            exists f, i :: 0 <= i < k && Under(f, n.children[i]) && Refers(forest, m, f, p)
    decreases n, 0, k
  {
    hide Refers, Under;
    if k > 0 {
      ChildPathsExact(forest, m, n, k - 1, p);
      NodePathsExact(forest, m, n.children[k-1], p);
    }
  }

  lemma {:induction false} PathsOfExact(forest: seq<Node>, m: Backlinks, ns: seq<Node>, p: string)
    ensures p in PathsOf(forest, m, ns) <==> exists f :: InForest(f, ns) && Refers(forest, m, f, p)
  {
    hide Refers, Under, NodePaths;
    if ns != [] {
      NodePathsExact(forest, m, ns[0], p);
      PathsOfExact(forest, m, ns[1..], p);
      assert ns == [ns[0]] + ns[1..];
      if p in NodePaths(forest, m, ns[0]) {
        var f :| Under(f, ns[0]) && Refers(forest, m, f, p);
        assert ns[0] in ns;
        assert InForest(f, ns);
      } else if p in PathsOf(forest, m, ns[1..]) {
        var f :| InForest(f, ns[1..]) && Refers(forest, m, f, p);
        assert InForest(f, ns);
      }
      if exists f :: InForest(f, ns) && Refers(forest, m, f, p) {
        var f :| InForest(f, ns) && Refers(forest, m, f, p);
        var n :| n in ns && Under(f, n);
        if n in ns[1..] {
          assert InForest(f, ns[1..]);
        }
      }
    }
  }

  // ----- without repetition -----

  function Unique(have: seq<string>, ps: seq<string>): (r: seq<string>)
    ensures have <= r
    ensures forall p :: p in r <==> p in have || p in ps
    ensures NoRepeats(have) ==> NoRepeats(r)
    decreases |ps|
  {
    if ps == [] then have
    else
      assert forall p :: p in ps <==> p == ps[0] || p in ps[1..];
      if ps[0] in have then Unique(have, ps[1..]) else Unique(have + [ps[0]], ps[1..])
  }

  predicate NoRepeats(ps: seq<string>) {
    forall i, j :: 0 <= i < j < |ps| ==> ps[i] != ps[j]
  }

  lemma {:induction false} UniqueAppend(have: seq<string>, a: seq<string>, b: seq<string>)
    ensures Unique(have, a + b) == Unique(Unique(have, a), b)
    decreases |a|
  {
    hide NoRepeats;
    if a == [] {
      assert a + b == b;
    } else {
      assert (a + b)[1..] == a[1..] + b;
      UniqueAppend(if a[0] in have then have else have + [a[0]], a[1..], b);
    }
  }

  // ----- the search -----

  /** The backlink map of a schema. */
  function BacklinksOf(s: Schema): Backlinks {
    match s.leafrefs
    case None => []
    case Some(paths) => AddAll(s, [], paths)
  }

  class DependencyFinder {
    const schema: Schema
    const root: Option<seq<Node>>
    const findAll: string -> seq<Node>
    var backlinkMap: Option<Backlinks>

    constructor (schema: Schema, root: Option<seq<Node>>, findAll: string -> seq<Node>)
      ensures this.schema == schema && this.root == root && this.findAll == findAll && Valid()
    {
      this.schema := schema;
      this.root := root;
      this.findAll := findAll;
      backlinkMap := None;
    }

    /** The map, once built, is that of the schema. */
    ghost predicate Valid()
      reads this
    {
      backlinkMap.Some? ==> schema.leafrefs.Some? && backlinkMap.value == BacklinksOf(schema)
    }

    method CacheSchemaDependencies()
      requires Valid()
      modifies this`backlinkMap
      ensures Valid() && (backlinkMap.Some? <==> schema.leafrefs.Some?)
    {
      hide AddLink;
      if backlinkMap.Some? || schema.leafrefs.None? {
        return;
      }
      var paths := schema.leafrefs.value;
      var m: Backlinks := [];
      assert paths[0..] == paths;
      for i := 0 to |paths|
        invariant AddAll(schema, m, paths[i..]) == AddAll(schema, [], paths)
      {
        assert paths[i..][0] == paths[i] && paths[i..][1..] == paths[i+1..];
        var targets := TargetsOf(schema, paths[i]);
        ghost var before := m;
        assert targets[0..] == targets;
        for j := 0 to |targets|
          invariant AddLinks(m, targets[j..], paths[i]) == AddLinks(before, targets, paths[i])
        {
          assert targets[j..][0] == targets[j] && targets[j..][1..] == targets[j+1..];
          m := AddLink(m, targets[j], paths[i]);
        }
      }
      backlinkMap := Some(m);
    }

    method FindSchemaDependencies(schemaXpath: Option<string>, matchAncestors: bool) returns (r: seq<string>)
      requires Valid()
      modifies this`backlinkMap
      ensures Valid()
      ensures r == SchemaDependencies(BacklinksOf(schema), schemaXpath, matchAncestors)
    {
      hide Selected;
      CacheSchemaDependencies();
      var path := Proper(schemaXpath);
      if backlinkMap.None? {
        return [];
      }
      var m := backlinkMap.value;
      if path.Some? && !matchAncestors {
        return Links(m, path.value);
      }
      r := [];
      assert m[0..] == m;
      for i := 0 to |m|
        invariant Valid() && r + LinksBelow(m[i..], path) == LinksBelow(m, path)
      {
        assert m[i..][0] == m[i] && m[i..][1..] == m[i+1..];
        if Selected(path, m[i].0) {
          SeqAssoc(r, m[i].1, LinksBelow(m[i+1..], path));
          r := r + m[i].1;
        }
      }
      SeqAssoc(r, [], []);
    }

    /** Adds the data nodes of these leafrefs that hold the value, unless they are there already. */
    method ResolveBacklinkData(links: seq<string>, value: Option<string>, list: seq<string>, have: set<string>)
      returns (refList: seq<string>, refSet: set<string>)
      requires root.Some? && forall p :: p in have <==> p in list
      ensures refList == Unique(list, LinkPaths(root.value, links, value))
      ensures forall p :: p in refSet <==> p in refList
    {
      hide Matches, AllOf, WithSchema, NoRepeats;
      refList, refSet := list, have;
      assert links[0..] == links;
      for i := 0 to |links|
        invariant forall p :: p in refSet <==> p in refList
        invariant Unique(refList, LinkPaths(root.value, links[i..], value)) == Unique(list, LinkPaths(root.value, links, value))
      {
        assert links[i..][0] == links[i] && links[i..][1..] == links[i+1..];
        var nodes := WithSchema(AllOf(root.value), links[i]);
        UniqueAppend(refList, MatchingPaths(nodes, value), LinkPaths(root.value, links[i+1..], value));
        refList, refSet := AddMatches(nodes, value, refList, refSet);
      }
    }

    method AddMatches(nodes: seq<Node>, value: Option<string>, list: seq<string>, have: set<string>)
      returns (refList: seq<string>, refSet: set<string>)
      requires forall p :: p in have <==> p in list
      ensures refList == Unique(list, MatchingPaths(nodes, value))
      ensures forall p :: p in refSet <==> p in refList
    {
      hide Matches, NoRepeats;
      refList, refSet := list, have;
      assert nodes[0..] == nodes;
      for i := 0 to |nodes|
        invariant forall p :: p in refSet <==> p in refList
        invariant Unique(refList, MatchingPaths(nodes[i..], value)) == Unique(list, MatchingPaths(nodes, value))
      {
        assert nodes[i..][0] == nodes[i] && nodes[i..][1..] == nodes[i+1..];
        if Matches(nodes[i], value) {
          var path := nodes[i].path;
          UniqueStep(refList, path, MatchingPaths(nodes[i+1..], value));
          if path !in refSet {
            refSet := refSet + {path};
            refList := refList + [path];
          }
        }
      }
    }

    /** Depth first into a node. */
    method FindDataDependenciesNode(node: Node, list: seq<string>, have: set<string>)
      returns (refList: seq<string>, refSet: set<string>)
      requires Valid() && root.Some? && forall p :: p in have <==> p in list
      modifies this`backlinkMap
      ensures Valid() && refList == Unique(list, NodePaths(root.value, BacklinksOf(schema), node))
      ensures forall p :: p in refSet <==> p in refList
      decreases node
    {
      hide LinkPaths, BacklinksOf, NoRepeats, SchemaDependencies;
      match node
      case Leaf(_, leafSchema, value) =>
        var links := FindSchemaDependencies(Some(leafSchema), false);
        refList, refSet := ResolveBacklinkData(links, value, list, have);
      case Inner(_, _, children) =>
        refList, refSet := list, have;
        for i := 0 to |children|
          invariant Valid() && forall p :: p in refSet <==> p in refList
          invariant refList == Unique(list, ChildPaths(root.value, BacklinksOf(schema), node, i))
        {
          UniqueAppend(list, ChildPaths(root.value, BacklinksOf(schema), node, i), NodePaths(root.value, BacklinksOf(schema), children[i]));
          refList, refSet := FindDataDependenciesNode(children[i], refList, refSet);
        }
    }

    /** The nodes a query starts from: everything for the root path, else what the path matches. */
    function Queried(dataXpath: Option<string>): seq<Node> {
      if root.None? then []
      else
        match Proper(dataXpath)
        case None => root.value
        case Some(path) => findAll(path)
    }

    method FindDataDependencies(dataXpath: Option<string>) returns (refList: seq<string>)
      requires Valid()
      modifies this`backlinkMap
      ensures Valid()
      ensures refList ==
              if root.None? then []
              else
                var start := if dataXpath.None? || dataXpath.value == "" || dataXpath.value == "/" then root.value
                             else findAll(dataXpath.value);
                Unique([], PathsOf(root.value, BacklinksOf(schema), start))
    {
      hide NodePaths, BacklinksOf, NoRepeats;
      refList := [];
      if root.None? {
        return;
      }
      var refSet: set<string> := {};
      var nodes := Queried(dataXpath);
      assert nodes[0..] == nodes;
      for i := 0 to |nodes|
        invariant Valid() && forall p :: p in refSet <==> p in refList
        invariant Unique(refList, PathsOf(root.value, BacklinksOf(schema), nodes[i..])) ==
                  Unique([], PathsOf(root.value, BacklinksOf(schema), nodes))
      {
        assert nodes[i..][0] == nodes[i] && nodes[i..][1..] == nodes[i+1..];
        UniqueAppend(refList, NodePaths(root.value, BacklinksOf(schema), nodes[i]), PathsOf(root.value, BacklinksOf(schema), nodes[i+1..]));
        refList, refSet := FindDataDependenciesNode(nodes[i], refList, refSet);
      }
    }
  }

  lemma UniqueStep(have: seq<string>, p: string, rest: seq<string>)
    ensures Unique(have, [p] + rest) == Unique(if p in have then have else have + [p], rest)
  {
    hide NoRepeats;
    assert ([p] + rest)[1..] == rest;
  }

  // ----- what the search finds -----

  /** The node is the leafref of a leaf, and if both are leaves with values the values agree. */
  predicate RefersTo(s: Schema, forest: seq<Node>, d: Node, f: Node) {
    && InForest(d, forest) && f.Leaf? && s.leafrefs.Some?
    && d.schema in s.leafrefs.value && f.schema in TargetsOf(s, d.schema)
    && (match f.value
        case None => true
        case Some(v) => d.Leaf? ==> d.value == Some(v))
  }

  /**
   The search returns each path once, and exactly the paths of data nodes that refer to a
   leaf of the queried subtrees and hold its value.
   */
  lemma DependenciesExact(s: Schema, forest: seq<Node>, nodes: seq<Node>, p: string)
    requires forall f :: InForest(f, nodes) && f.Leaf? ==> f.schema != "" && f.schema != "/"
    ensures NoRepeats(Unique([], PathsOf(forest, BacklinksOf(s), nodes)))
    ensures p in Unique([], PathsOf(forest, BacklinksOf(s), nodes)) <==>
            exists d, f :: InForest(f, nodes) && RefersTo(s, forest, d, f) && d.path == p
  {
    hide PathsOf, InForest, Unique;
    PathsOfExact(forest, BacklinksOf(s), nodes, p);
    forall f | InForest(f, nodes)
      ensures Refers(forest, BacklinksOf(s), f, p) <==> exists d :: RefersTo(s, forest, d, f) && d.path == p
    {
      RefersIff(s, forest, f, p);
    }
  }

  lemma RefersIff(s: Schema, forest: seq<Node>, f: Node, p: string)
    requires f.Leaf? ==> f.schema != "" && f.schema != "/"
    ensures Refers(forest, BacklinksOf(s), f, p) <==> exists d :: RefersTo(s, forest, d, f) && d.path == p
  {
    hide AllOf, InForest;
    if f.Leaf? {
      forall d: Node
        ensures d in AllOf(forest) && d.schema in Dependencies(BacklinksOf(s), f.schema) && Matches(d, f.value) <==>
                RefersTo(s, forest, d, f)
      {
        AllOfExact(forest, d);
        if s.leafrefs.Some? {
          BacklinksExact(s, f.schema, d.schema);
        }
      }
    }
  }

  // ----- dependencies of a whole schema subtree -----

  lemma {:induction false} PutDistinct<V>(items: seq<(string, V)>, name: string, v: V)
    requires Distinct(items)
    ensures Distinct(Put(items, name, v))
  {
    if items != [] && items[0].0 != name {
      PutDistinct(items[1..], name, v);
      var rest := Put(items[1..], name, v);
      forall x | x in rest
        ensures x.0 != items[0].0
      {
        PutGet(items[1..], name, v, items[0].0);
        assert Get(items[1..], items[0].0).None?;
      }
    }
  }

  lemma {:induction false} LinksDistinct(m: Backlinks, ts: seq<string>, path: string)
    requires Distinct(m)
    ensures Distinct(AddLinks(m, ts, path))
    decreases |ts|
  {
    hide Distinct, Get, Put;
    if ts != [] {
      PutDistinct(m, ts[0], Links(m, ts[0]) + [path]);
      SeqAssoc([path], [], []);
      LinksDistinct(AddLink(m, ts[0], path), ts[1..], path);
    }
  }

  lemma {:induction false} AllDistinct(s: Schema, m: Backlinks, paths: seq<string>)
    requires Distinct(m)
    ensures Distinct(AddAll(s, m, paths))
    decreases |paths|
  {
    hide Distinct, AddLinks;
    if paths != [] {
      LinksDistinct(m, TargetsOf(s, paths[0]), paths[0]);
      AllDistinct(s, AddLinks(m, TargetsOf(s, paths[0]), paths[0]), paths[1..]);
    }
  }

  lemma {:induction false} LinksBelowExact(m: Backlinks, path: Option<string>, p: string)
    requires Distinct(m)
    ensures p in LinksBelow(m, path) <==> exists t :: Selected(path, t) && p in Links(m, t)
  {
    hide Selected;
    if m != [] {
      LinksBelowExact(m[1..], path, p);
      GetAt(m, 0);
      forall t
        ensures p in Links(m, t) <==> if t == m[0].0 then p in m[0].1 else p in Links(m[1..], t)
      {
      }
      assert Get(m[1..], m[0].0).None?;
    }
  }

  /** The whole schema for no path or the root path, else the path itself or what lies below it. */
  ghost predicate AtOrBelow(path: Option<string>, target: string) {
    || path == None || path == Some("") || path == Some("/")
    || target == path.value || exists rest :: target == path.value + "/" + rest
  }

  lemma SelectedIff(path: Option<string>, target: string)
    ensures Selected(Proper(path), target) <==> AtOrBelow(path, target)
  {
    if path.Some? && path.value + "/" <= target {
      assert target == path.value + "/" + target[|path.value| + 1..];
    }
  }

  /** For an ancestor path, the dependencies are exactly the leafrefs with a target at or below it. */
  lemma SubtreeDependenciesExact(s: Schema, path: Option<string>, p: string)
    ensures p in SchemaDependencies(BacklinksOf(s), path, true) <==>
            s.leafrefs.Some? && p in s.leafrefs.value && exists t :: AtOrBelow(path, t) && t in TargetsOf(s, p)
  {
    hide Selected, AtOrBelow, AddAll, Links, Distinct;
    if s.leafrefs.Some? {
      assert Distinct<seq<string>>([]) by { NoneDistinct(); }
      AllDistinct(s, [], s.leafrefs.value);
      LinksBelowExact(BacklinksOf(s), Proper(path), p);
      forall t
        ensures p in Links(BacklinksOf(s), t) <==> p in s.leafrefs.value && t in TargetsOf(s, p)
        ensures Selected(Proper(path), t) <==> AtOrBelow(path, t)
      {
        BacklinksExact(s, t, p);
        SelectedIff(path, t);
      }
    }
  }

  /** For a path of its own, they are exactly the leafrefs with that target. */
  lemma PathDependenciesExact(s: Schema, path: string, p: string)
    requires path != "" && path != "/"
    ensures p in SchemaDependencies(BacklinksOf(s), Some(path), false) <==>
            s.leafrefs.Some? && p in s.leafrefs.value && path in TargetsOf(s, p)
  {
    hide AddAll;
    if s.leafrefs.Some? {
      BacklinksExact(s, path, p);
    }
  }

  lemma NoneDistinct()
    ensures Distinct<seq<string>>([])
  {
  }
}
