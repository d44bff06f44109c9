/**
 Converting a ConfigDB path into a data xpath and back, guided by the schema.
 */
module ConfigDbPaths {
  import opened Texts
  import opened Dicts
  import opened XpathTokens
  import opened YangSchema
  import JsonPointers

  // ----- list predicates -----

  function Predicate(k: string, v: string): string {
    "[" + k + "='" + v + "']"
  }

  function Predicates(ks: seq<string>, vs: seq<string>): string
    requires |ks| == |vs|
  {
    if ks == [] then "" else Predicate(ks[0], vs[0]) + Predicates(ks[1..], vs[1..])
  }

  /**
   Matches \[([^=]+)='([^']*)'\] at the start of `s`; no group can be cut short, so there
   is at most one match. The third value is the number of characters matched.
   */
  function MatchPredicate(s: string): (r: Option<(string, string, nat)>)
    ensures r.Some? ==> 0 < r.value.2 <= |s| && '\'' !in r.value.1
  {
    if s == "" || s[0] != '[' then None else
    var e := IndexOf(s[1..], '=');
    if e == 0 || e + 2 >= |s| || s[e+1] != '=' || s[e+2] != '\'' then None else
    var q := IndexOf(s[e+3..], '\'');
    if e + 3 + q + 1 >= |s| || s[e+3+q+1] != ']' then None
    else Some((s[1..e+1], s[e+3..e+3+q], e + 3 + q + 2))
  }

  /** All matches from left to right, as re.findall. */
  function FindAll(s: string): seq<(string, string)>
    decreases |s|
  {
    if s == "" then [] else
    match MatchPredicate(s)
    case Some(m) => [(m.0, m.1)] + FindAll(s[m.2..])
    case None => FindAll(s[1..])
  }

  function KeyPairs(token: string): seq<(string, string)> {
    FindAll(token[IndexOf(token, '[')..])
  }

  function KeysToDict(token: string): map<string, string> {
    MapOf(KeyPairs(token))
  }

  // ----- ConfigDB path to xpath -----

  function FirstWithKeyCount(lists: seq<YList>, n: nat): (r: Option<YList>)
    ensures r.Some? ==> r.value in lists && |r.value.keys| == n
  {
    if lists == [] then None
    else if |lists[0].keys| == n then Some(lists[0])
    else FirstWithKeyCount(lists[1..], n)
  }

  /** The list a key belongs to: the only list, or the first with as many keys as the key has values. */
  function ListModel(c: Container, key: string): Result<Option<YList>> {
    if c.lists == [] then Ok(None)
    else if |c.lists| == 1 then Ok(Some(c.lists[0]))
    else
      match FirstWithKeyCount(c.lists, |SplitOn(key, '|')|)
      case Some(l) => Ok(Some(l))
      case None => Err
  }

  function LeafToken(leaves: seq<Leaf>, token: string): Result<string> {
    if HasLeaf(leaves, token) || HasLeafList(leaves, token) then Ok(token) else Err
  }

  function ItemToken(l: YList, key: string, schemaXpath: bool): Result<string> {
    if schemaXpath then Ok(l.name)
    else
      var vs := SplitOn(key, '|');
      if |l.keys| != |vs| then Err else Ok(l.name + Predicates(l.keys, StripAll(vs)))
  }

  function InnerToken(n: InnerList, token: string, schemaXpath: bool): Result<string> {
    if schemaXpath then Ok(n.name)
    else if n.keys == [] then Err
    else Ok(n.name + Predicate(n.keys[0], token))
  }

  function TokensFromList(l: YList, toks: seq<string>, schemaXpath: bool): Result<seq<string>>
    requires toks != []
  {
    var item :- ItemToken(l, toks[0], schemaXpath);
    if |toks| == 1 then Ok([item])
    else
      match InnerOf(l)
      case Some(n) =>
        var t :- InnerToken(n, toks[1], schemaXpath);
        Ok([item, t])
      case None =>
        var t :- LeafToken(l.leaves, toks[1]);
        Ok([item, t])
  }

  function TokensFromContainer(c: Container, toks: seq<string>, schemaXpath: bool): Result<seq<string>>
    requires toks != []
    decreases |toks|
  {
    if |toks| == 1 then Ok(toks)
    else
      var model :- ListModel(c, toks[1]);
      match model
      case Some(l) =>
        var rest :- TokensFromList(l, toks[1..], schemaXpath);
        Ok([toks[0]] + rest)
      case None =>
        match FindContainer(c.containers, toks[1])
        case Some(child) =>
          var rest :- TokensFromContainer(child, toks[1..], schemaXpath);
          Ok([toks[0]] + rest)
        case None =>
          var t :- LeafToken(c.leaves, toks[1]);
          Ok([toks[0], t])
  }

  function PathSplit(path: string): Result<seq<string>> {
    if path == "" || path == "/" then Ok([]) else JsonPointers.Parse(path)
  }

  /** The conversion without its cache; a lookup of an unknown table fails. */
  function ToXpath(tables: map<string, Table>, path: string, schemaXpath: bool): Result<string> {
    if path == "" || path == "/" then Ok("/")
    else
      var toks :- PathSplit(path);
      if toks == [] || toks[0] !in tables then Err
      else
        var t := tables[toks[0]];
        var rest :- TokensFromContainer(t.container, toks, schemaXpath);
        Ok(Join([t.mod + ":" + t.top] + rest))
  }

  // ----- xpath to ConfigDB path -----

  function BaseName(token: string): string {
    token[..IndexOf(token, '[')]
  }

  function PathFromLeaf(leaves: seq<Leaf>, token: string): Result<seq<string>> {
    if HasLeaf(leaves, token) then Ok([token])
    else if HasLeafList(leaves, BaseName(token)) then Ok([BaseName(token)])
    else Err
  }

  function PathFromInner(n: InnerList, xs: seq<string>): Result<seq<string>>
    requires xs != []
  {
    if BaseName(xs[0]) != n.name then Err
    else
      var pairs := KeyPairs(xs[0]);
      if pairs == [] then Ok([])
      else if |MapOf(pairs)| > 1 then Err
      else
        var value := MapOf(pairs)[pairs[0].0];
        if |xs| == 1 || HasLeaf(n.leaves, xs[1]) then Ok([value]) else Err
  }

  function Values(ks: seq<string>, dict: map<string, string>): Result<seq<string>> {
    if ks == [] then Ok([])
    else if ks[0] !in dict then Err
    else
      var rest :- Values(ks[1..], dict);
      Ok([dict[ks[0]]] + rest)
  }

  function PathFromList(l: YList, xs: seq<string>): Result<seq<string>>
    requires xs != []
  {
    var dict := KeysToDict(xs[0]);
    if dict == map[] then Ok([])
    else if |l.keys| != |dict| then Err
    else
      var vs :- Values(l.keys, dict);
      var key := JoinOn(vs, '|');
      if |xs| == 1 || xs[1] in dict then Ok([key])
      else
        var rest :- match InnerOf(l)
          case Some(n) => PathFromInner(n, xs[1..])
          case None => PathFromLeaf(l.leaves, xs[1]);
        Ok([key] + rest)
  }

  function PathFromContainer(c: Container, xs: seq<string>): Result<seq<string>>
    requires xs != []
    decreases |xs|
  {
    if |xs| == 1 then Ok(xs)
    else
      var rest :- match FindList(c.lists, BaseName(xs[1]))
        case Some(l) => PathFromList(l, xs[1..])
        case None =>
          match FindContainer(c.containers, xs[1])
          case Some(child) => PathFromContainer(child, xs[1..])
          case None => PathFromLeaf(c.leaves, xs[1]);
      Ok([xs[0]] + rest)
  }

  function ToPath(tables: map<string, Table>, xpath: string): Result<string> {
    var xs :- Split(xpath);
    if xs == [] then Ok("")
    else if |xs| == 1 || xs[1] !in tables then Err
    else
      var toks :- PathFromContainer(tables[xs[1]].container, xs[1..]);
      Ok(JsonPointers.Format(toks))
  }

  // ----- the cache -----

  /** The converter with its memo of earlier answers; conversions that do not consult a ConfigDB. */
  class Converter {
    const tables: map<string, Table>
    var cache: map<(string, bool), string>

    constructor (tables: map<string, Table>)
      ensures this.tables == tables && Valid()
    {
      this.tables := tables;
      cache := map[];
    }

    /** Every remembered answer is the right one. */
    ghost predicate Valid()
      reads this
    {
      forall key :: key in cache ==> ToXpath(tables, key.0, key.1) == Ok(cache[key])
    }

    method ConfigDbPathToXpath(path: string, schemaXpath: bool) returns (r: Result<string>)
      requires Valid()
      modifies this`cache
      ensures Valid()
      ensures r == ToXpath(tables, path, schemaXpath)
      ensures forall key :: key in old(cache) ==> key in cache && cache[key] == old(cache)[key]
    {
      if path == "" || path == "/" {
        return Ok("/");
      }
      var key := (path, schemaXpath);
      if key in cache {
        return Ok(cache[key]);
      }
      var toks :- PathSplit(path);
      if toks == [] || toks[0] !in tables {
        return Err;
      }
      var t := tables[toks[0]];
      var rest :- TokensFromContainer(t.container, toks, schemaXpath);
      var xpath := Join([t.mod + ":" + t.top] + rest);
      cache := cache[key := xpath];
      r := Ok(xpath);
    }

    method XpathToConfigDbPath(xpath: string) returns (r: Result<string>)
      ensures r == ToPath(tables, xpath)
    {
      var xs :- XpathSplit(xpath);
      if xs == [] {
        return Ok("");
      }
      if |xs| == 1 || xs[1] !in tables {
        return Err;
      }
      var toks :- PathFromContainer(tables[xs[1]].container, xs[1..]);
      r := Ok(JsonPointers.Format(toks));
    }
  }
}
