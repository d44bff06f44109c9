/**
 A ConfigDB path survives the trip to an xpath and back exactly when its key values have
 neither outer blanks nor single quotes.
 */
module ConfigDbPathLaws {
  import opened Texts
  import opened Dicts
  import opened XpathTokens
  import opened YangSchema
  import opened ConfigDbPaths

  // ----- printing and reading predicates -----

  /** A printed predicate is read back, and reading goes on right behind it. */
  lemma MatchPrinted(k: string, v: string, rest: string)
    requires IsName(k) && '\'' !in v
    ensures MatchPredicate(Predicate(k, v) + rest) == Some((k, v, |Predicate(k, v)|))
  {
    hide IndexOf;
    var s := Predicate(k, v) + rest;
    var tail := "']" + rest;
    assert s[1..] == k + ['='] + ("'" + v + tail);
    IndexOfConcat(k, '=', "'" + v + tail);
    var e := |k|;
    assert s[1..e+1] == k && s[e+1] == '=' && s[e+2] == '\'';
    assert s[e+3..] == v + ['\''] + ("]" + rest);
    IndexOfConcat(v, '\'', "]" + rest);
    assert s[e+3..e+3+|v|] == v && s[e+3+|v|+1] == ']';
  }

  function Zip(ks: seq<string>, vs: seq<string>): seq<(string, string)>
    requires |ks| == |vs|
  {
    if ks == [] then [] else [(ks[0], vs[0])] + Zip(ks[1..], vs[1..])
  }

  lemma {:induction false} FindPrinted(ks: seq<string>, vs: seq<string>)
    requires |ks| == |vs| && (forall k :: k in ks ==> IsName(k)) && forall v :: v in vs ==> '\'' !in v
    ensures FindAll(Predicates(ks, vs)) == Zip(ks, vs)
  {
    hide MatchPredicate, IsName;
    if ks != [] {
      var p, rest := Predicate(ks[0], vs[0]), Predicates(ks[1..], vs[1..]);
      MatchPrinted(ks[0], vs[0], rest);
      assert (p + rest)[|p|..] == rest;
      FindPrinted(ks[1..], vs[1..]);
    }
  }

  predicate AllDifferent(ks: seq<string>) {
    ks == [] || (ks[0] !in ks[1..] && AllDifferent(ks[1..]))
  }

  lemma AddKey(dict: map<string, string>, k: string, v: string)
    requires k !in dict
    ensures |map[k := v] + dict| == |dict| + 1
  {
    assert (map[k := v] + dict).Keys == dict.Keys + {k};
    assert |(map[k := v] + dict).Keys| == |dict.Keys| + 1;
  }

  lemma {:induction false} ValuesIgnore(ks: seq<string>, dict: map<string, string>, k: string, v: string)
    requires k !in ks
    ensures Values(ks, map[k := v] + dict) == Values(ks, dict)
  {
    if ks != [] {
      ValuesIgnore(ks[1..], dict, k, v);
    }
  }

  lemma DictCons(k: string, v: string, pairs: seq<(string, string)>)
    ensures MapOf([(k, v)] + pairs) == map[k := v] + MapOf(pairs)
  {
    assert ([(k, v)] + pairs)[1..] == pairs;
  }

  lemma {:induction false} DictOfZipKeys(ks: seq<string>, vs: seq<string>)
    requires |ks| == |vs|
    ensures forall k :: k in MapOf(Zip(ks, vs)) <==> k in ks
  {
    hide MapOf;
    if ks == [] {
      DictEmpty();
    } else {
      DictOfZipKeys(ks[1..], vs[1..]);
      DictCons(ks[0], vs[0], Zip(ks[1..], vs[1..]));
    }
  }

  lemma DictEmpty()
    ensures MapOf<string>([]) == map[]
  {
  }

  /** The dictionary of distinct keys gives each key its value. */
  lemma {:induction false} DictOfZip(ks: seq<string>, vs: seq<string>)
    requires |ks| == |vs| && AllDifferent(ks)
    ensures |MapOf(Zip(ks, vs))| == |ks|
    ensures Values(ks, MapOf(Zip(ks, vs))) == Ok(vs)
  {
    hide MapOf, Values;
    if ks == [] {
      DictEmpty();
      NoValues();
    } else {
      var rest := MapOf(Zip(ks[1..], vs[1..]));
      DictOfZip(ks[1..], vs[1..]);
      DictOfZipKeys(ks[1..], vs[1..]);
      DictCons(ks[0], vs[0], Zip(ks[1..], vs[1..]));
      AddKey(rest, ks[0], vs[0]);
      ValuesIgnore(ks[1..], rest, ks[0], vs[0]);
      ValuesCons(ks, vs, rest);
    }
  }

  lemma NoValues()
    ensures Values([], map[]) == Ok([])
  {
  }

  lemma ValuesCons(ks: seq<string>, vs: seq<string>, rest: map<string, string>)
    requires |ks| == |vs| && ks != [] && ks[0] !in rest
    requires Values(ks[1..], map[ks[0] := vs[0]] + rest) == Ok(vs[1..])
    ensures Values(ks, map[ks[0] := vs[0]] + rest) == Ok(vs)
  {
    assert vs == [vs[0]] + vs[1..];
  }

  lemma {:induction false} DistinctKeys(ks: seq<string>)
    requires forall i, j :: 0 <= i < j < |ks| ==> ks[i] != ks[j]
    ensures AllDifferent(ks)
  {
    if ks != [] {
      DistinctKeys(ks[1..]);
    }
  }

  lemma {:induction false} FoundValuesHaveNoQuote(s: string)
    ensures forall p :: p in FindAll(s) ==> '\'' !in p.1
    decreases |s|
  {
    if s != "" {
      match MatchPredicate(s)
      case Some(m) => FoundValuesHaveNoQuote(s[m.2..]);
      case None => FoundValuesHaveNoQuote(s[1..]);
    }
  }

  lemma {:induction false} ValuesHaveNoQuote(ks: seq<string>, dict: map<string, string>)
    requires forall k :: k in dict ==> '\'' !in dict[k]
    ensures Values(ks, dict).Ok? ==> forall v :: v in Values(ks, dict).value ==> '\'' !in v
  {
    if ks != [] {
      ValuesHaveNoQuote(ks[1..], dict);
    }
  }

  // ----- printed tokens are closed -----

  lemma {:induction false} AfterConcat(st: Scan, a: string, b: string)
    ensures After(st, a + b) == After(After(st, a), b)
    decreases |a|
  {
    if a == "" {
      assert a + b == b;
    } else {
      assert (a + b)[1..] == a[1..] + b;
      AfterConcat(Step(st, a[0]), a[1..], b);
    }
  }

  /** Reading `s` in `st` meets no separator and ends in `end`. */
  predicate Runs(st: Scan, s: string, end: Scan) {
    Cut(st, s) == |s| && After(st, s) == end
  }

  lemma RunsConcat(st: Scan, a: string, mid: Scan, b: string, end: Scan)
    requires Runs(st, a, mid) && Runs(mid, b, end)
    ensures Runs(st, a + b, end)
  {
    CutConcat(st, a, b);
    AfterConcat(st, a, b);
  }

  /** Reading characters that all leave the state alone. */
  lemma {:induction false} RunsStill(st: Scan, s: string)
    requires forall c :: c in s ==> Step(st, c) == st && !(st.Top? && c == '/')
    ensures Runs(st, s, st)
  {
    hide Step;
    if s != "" {
      assert s[0] in s;
      RunsStill(st, s[1..]);
      assert Cut(st, s) == 1 + Cut(st, s[1..]);
    }
  }

  lemma RunsChar(st: Scan, c: char, end: Scan)
    requires Step(st, c) == end && !(st.Top? && c == '/')
    ensures Runs(st, [c], end)
  {
    assert [c][1..] == "";
  }

  lemma PredicateRuns(k: string, v: string)
    requires IsName(k) && '\'' !in v
    ensures Runs(Top, Predicate(k, v), Top)
  {
    RunsChar(Top, '[', Pred);
    RunsStill(Pred, k);
    RunsConcat(Top, "[", Pred, k, Pred);
    RunsChar(Pred, '=', Pred);
    RunsChar(Pred, '\'', Quote('\''));
    assert "='" == ['='] + ['\''];
    RunsConcat(Pred, ['='], Pred, ['\''], Quote('\''));
    RunsConcat(Top, "[" + k, Pred, "='", Quote('\''));
    RunsStill(Quote('\''), v);
    RunsConcat(Top, "[" + k + "='", Quote('\''), v, Quote('\''));
    RunsChar(Quote('\''), '\'', Pred);
    RunsChar(Pred, ']', Top);
    assert "']" == ['\''] + [']'];
    RunsConcat(Quote('\''), ['\''], Pred, [']'], Top);
    RunsConcat(Top, "[" + k + "='" + v, Quote('\''), "']", Top);
  }

  lemma {:induction false} PredicatesRun(ks: seq<string>, vs: seq<string>)
    requires |ks| == |vs| && (forall k :: k in ks ==> IsName(k)) && forall v :: v in vs ==> '\'' !in v
    ensures Runs(Top, Predicates(ks, vs), Top)
  {
    hide Runs, Predicate, IsName;
    if ks == [] {
      RunsStill(Top, "");
    } else {
      PredicateRuns(ks[0], vs[0]);
      PredicatesRun(ks[1..], vs[1..]);
      RunsConcat(Top, Predicate(ks[0], vs[0]), Top, Predicates(ks[1..], vs[1..]), Top);
    }
  }

  lemma NameRuns(s: string)
    requires IsName(s)
    ensures Runs(Top, s, Top)
  {
    RunsStill(Top, s);
  }

  lemma ItemClosed(name: string, ks: seq<string>, vs: seq<string>)
    requires |ks| == |vs| && IsName(name) && (forall k :: k in ks ==> IsName(k)) && forall v :: v in vs ==> '\'' !in v
    ensures Closed(name + Predicates(ks, vs))
  {
    hide Predicates, IsName;
    NameRuns(name);
    PredicatesRun(ks, vs);
    RunsConcat(Top, name, Top, Predicates(ks, vs), Top);
  }

  lemma NameClosed(s: string)
    requires IsName(s)
    ensures Closed(s)
  {
    NameRuns(s);
  }

  /** The base name of a printed token, and the pairs read from it. */
  lemma BaseOfPrinted(name: string, tail: string)
    requires IsName(name) && tail != "" && tail[0] == '['
    ensures BaseName(name + tail) == name && (name + tail)[IndexOf(name + tail, '[')..] == tail
  {
    hide IndexOf;
    assert name + tail == name + ['['] + tail[1..];
    IndexOfConcat(name, '[', tail[1..]);
  }

  lemma {:induction false} DictValuesFrom(pairs: seq<(string, string)>)
    requires forall p :: p in pairs ==> '\'' !in p.1
    ensures forall k :: k in MapOf(pairs) ==> '\'' !in MapOf(pairs)[k]
  {
    if pairs != [] {
      DictValuesFrom(pairs[1..]);
      assert pairs[0] in pairs;
    }
  }

  // ----- addresses -----

  /** `toks` names an entry of `l`, a non-key field of it, or a field of its inner list. */
  predicate EntryAddress(l: YList, toks: seq<string>)
    requires toks != []
  {
    && |SplitOn(toks[0], '|')| == |l.keys|
    && (|toks| == 1 ||
        (|toks| == 2 && (InnerOf(l).Some? ||
                         (toks[1] !in l.keys && (HasLeaf(l.leaves, toks[1]) || HasLeafList(l.leaves, toks[1]))))))
  }

  /** `toks` names a table or container, or something the schema says is below it. */
  predicate Address(c: Container, toks: seq<string>)
    requires toks != []
    decreases |toks|
  {
    |toks| == 1 ||
    match ListModel(c, toks[1])
    case Err => false
    case Ok(Some(l)) => EntryAddress(l, toks[1..])
    case Ok(None) =>
      match FindContainer(c.containers, toks[1])
      case Some(child) => Address(child, toks[1..])
      case None => |toks| == 2 && (HasLeaf(c.leaves, toks[1]) || HasLeafList(c.leaves, toks[1]))
  }

  /** No value printed inside quotes holds a quote. */
  predicate QuoteFreeEntry(l: YList, toks: seq<string>)
    requires toks != []
  {
    '\'' !in toks[0] && (|toks| == 2 && InnerOf(l).Some? ==> '\'' !in toks[1])
  }

  /** No outer blanks around a key value and no quote in any value. */
  predicate CleanEntry(l: YList, toks: seq<string>)
    requires toks != []
  {
    QuoteFreeEntry(l, toks) && forall v :: v in SplitOn(toks[0], '|') ==> Trimmed(v)
  }

  predicate Clean(c: Container, toks: seq<string>)
    requires toks != []
    decreases |toks|
  {
    |toks| == 1 ||
    match ListModel(c, toks[1])
    case Err => true
    case Ok(Some(l)) => CleanEntry(l, toks[1..])
    case Ok(None) =>
      match FindContainer(c.containers, toks[1])
      case Some(child) => Clean(child, toks[1..])
      case None => true
  }

  // ----- entries -----

  function Item(l: YList, key: string): string
    requires |SplitOn(key, '|')| == |l.keys|
  {
    l.name + Predicates(l.keys, StripAll(SplitOn(key, '|')))
  }

  lemma SplitHasNo(s: string, c: char, x: char)
    requires x !in s
    ensures forall t :: t in SplitOn(s, c) ==> x !in t
  {
    if s != "" {
      SplitHasNo(s[1..], c, x);
    }
  }

  lemma StrippedHasNoQuote(key: string)
    requires '\'' !in key
    ensures forall v :: v in StripAll(SplitOn(key, '|')) ==> '\'' !in v
  {
    SplitHasNo(key, '|', '\'');
    var vs := SplitOn(key, '|');
    forall v | v in StripAll(vs) ensures '\'' !in v {
      var i :| 0 <= i < |vs| && StripAll(vs)[i] == v;
      assert vs[i] in vs;
    }
  }

  /** Reading back the printed entry gives the key with its values stripped. */
  lemma ItemReadsBack(l: YList, key: string)
    requires ListWellFormed(l) && |SplitOn(key, '|')| == |l.keys| && '\'' !in key
    ensures Closed(Item(l, key))
    ensures BaseName(Item(l, key)) == l.name
    ensures KeysToDict(Item(l, key)) != map[] && |KeysToDict(Item(l, key))| == |l.keys|
    ensures forall k :: k in KeysToDict(Item(l, key)) <==> k in l.keys
    ensures Values(l.keys, KeysToDict(Item(l, key))) == Ok(StripAll(SplitOn(key, '|')))
  {
    hide Predicates, IsName, Closed, FindAll, MapOf, Values;
    var vs := StripAll(SplitOn(key, '|'));
    StrippedHasNoQuote(key);
    ItemClosed(l.name, l.keys, vs);
    PredicatesOpen(l.keys, vs);
    BaseOfPrinted(l.name, Predicates(l.keys, vs));
    FindPrinted(l.keys, vs);
    DistinctKeys(l.keys);
    DictOfZip(l.keys, vs);
    DictOfZipKeys(l.keys, vs);
    assert l.keys[0] in l.keys;
  }

  lemma PredicatesOpen(ks: seq<string>, vs: seq<string>)
    requires |ks| == |vs| > 0
    ensures Predicates(ks, vs) != "" && Predicates(ks, vs)[0] == '['
  {
  }

  /** Stripping every value of a key leaves the key alone exactly when every value is trimmed. */
  lemma StripKeyIff(key: string)
    ensures JoinOn(StripAll(SplitOn(key, '|')), '|') == key <==> forall v :: v in SplitOn(key, '|') ==> Trimmed(v)
  {
    hide SplitOn, JoinOn, Trimmed, Strip;
    var vs := SplitOn(key, '|');
    var ws := StripAll(vs);
    JoinOfSplit(key, '|');
    SplitPieces(key, '|');
    forall w | w in ws ensures '|' !in w {
      var i :| 0 <= i < |vs| && ws[i] == w;
      assert vs[i] in vs;
    }
    SplitOfJoin(ws, '|');
    assert JoinOn(ws, '|') == key ==> ws == vs;
    forall i | 0 <= i < |vs| ensures ws[i] == vs[i] <==> Trimmed(vs[i]) {
      StripTrimmed(vs[i]);
    }
    if forall v :: v in vs ==> Trimmed(v) {
      assert ws == vs;
    } else {
      var v :| v in vs && !Trimmed(v);
      var i :| 0 <= i < |vs| && vs[i] == v;
      assert ws[i] != vs[i];
    }
  }

  /** Whatever is read as a key value holds no quote. */
  lemma ReadKeyHasNoQuote(l: YList, xs: seq<string>)
    requires xs != [] && PathFromList(l, xs).Ok? && PathFromList(l, xs).value != []
    ensures '\'' !in PathFromList(l, xs).value[0]
  {
    hide FindAll, MapOf, Values;
    var pairs := KeyPairs(xs[0]);
    FoundValuesHaveNoQuote(xs[0][IndexOf(xs[0], '[')..]);
    DictValuesFrom(pairs);
    ValuesHaveNoQuote(l.keys, MapOf(pairs));
    JoinHasNo(Values(l.keys, MapOf(pairs)).value, '|', '\'');
  }

  lemma ReadInnerHasNoQuote(n: InnerList, xs: seq<string>)
    requires xs != [] && PathFromInner(n, xs).Ok? && PathFromInner(n, xs).value != []
    ensures '\'' !in PathFromInner(n, xs).value[0]
  {
    hide FindAll;
    FoundValuesHaveNoQuote(xs[0][IndexOf(xs[0], '[')..]);
    DictValuesFrom(KeyPairs(xs[0]));
  }

  /** The first token split off a text that starts with a name and a bracket starts the same way. */
  lemma FirstPieceNamed(name: string, tail: string)
    requires IsName(name) && tail != "" && tail[0] == '['
    ensures Pieces("/" + name + tail) != []
    ensures BaseName(Pieces("/" + name + tail)[0]) == name
  {
    hide IsName, BaseName, Cut, After, Step;
    var s := "/" + name + tail;
    assert s[1..] == name + tail;
    NameRuns(name);
    CutConcat(Top, name, tail);
    var k := Cut(Top, s[1..]);
    assert k > |name|;
    var p := s[1..1+k];
    assert p == name + tail[..k-|name|];
    BaseOfPrinted(name, tail[..k-|name|]);
  }

  lemma InnerReadsBack(n: InnerList, token: string)
    requires IsName(n.name) && n.keys != [] && IsName(n.keys[0]) && '\'' !in token
    ensures Closed(n.name + Predicate(n.keys[0], token))
    ensures PathFromInner(n, [n.name + Predicate(n.keys[0], token)]) == Ok([token])
  {
    hide IsName, Closed, FindAll, MapOf;
    var ks, vs := [n.keys[0]], [token];
    assert Predicates(ks, vs) == Predicate(n.keys[0], token) by {
      assert Predicates([], []) == "";
      SeqAssoc(Predicate(n.keys[0], token), "", "");
    }
    ItemClosed(n.name, ks, vs);
    BaseOfPrinted(n.name, Predicate(n.keys[0], token));
    FindPrinted(ks, vs);
    DictOfZip(ks, vs);
    assert Zip(ks, vs) == [(n.keys[0], token)];
    DictCons(n.keys[0], token, []);
    DictEmpty();
    assert [(n.keys[0], token)] + [] == [(n.keys[0], token)];
  }

  lemma {:induction false} ClosedSplittable(xs: seq<string>)
    requires forall x :: x in xs ==> Closed(x)
    ensures Splittable(xs)
  {
    if xs != [] {
      ClosedSplittable(xs[1..]);
      assert xs[0] in xs;
    }
  }

  /** Splitting joined closed tokens gives them back. */
  lemma ClosedSplit(xs: seq<string>)
    requires forall x :: x in xs ==> Closed(x)
    ensures Pieces(Slashed(xs)) == xs
  {
    ClosedSplittable(xs);
    PiecesSlashedIff(xs);
  }

  /** Entries without quotes: read back with stripped key values. */
  lemma QuoteFreeEntryTrip(l: YList, toks: seq<string>)
    requires ListWellFormed(l) && toks != [] && EntryAddress(l, toks) && QuoteFreeEntry(l, toks)
    ensures TokensFromList(l, toks, false).Ok?
    ensures var xs := TokensFromList(l, toks, false).value;
            && (forall x :: x in xs ==> Closed(x))
            && xs != [] && BaseName(xs[0]) == l.name
            && PathFromList(l, xs) == Ok([JoinOn(StripAll(SplitOn(toks[0], '|')), '|')] + toks[1..])
  {
    hide Predicates, IsName, Closed, KeysToDict, Values, Strip, SplitOn, JoinOn, HasLeaf, HasLeafList, IndexOf;
    var item := Item(l, toks[0]);
    ItemReadsBack(l, toks[0]);
    var key := JoinOn(StripAll(SplitOn(toks[0], '|')), '|');
    var xs := TokensFromList(l, toks, false).value;
    if |toks| == 1 {
      assert xs == [item] && toks[1..] == [] && [key] + [] == [key];
    } else {
      assert toks[1..] == [toks[1]];
      match InnerOf(l)
      case Some(n) =>
        var t := n.name + Predicate(n.keys[0], toks[1]);
        assert n in l.inner && n.keys[0] in n.keys;
        InnerReadsBack(n, toks[1]);
        assert xs == [item, t] && xs[1..] == [t];
        Bracketed(n.name, Predicate(n.keys[0], toks[1]));
        assert t !in l.keys;
      case None =>
        assert xs == [item, toks[1]] && xs[1..] == [toks[1]];
        LeafReadsBack(l.leaves, toks[1]);
    }
  }

  lemma Bracketed(name: string, tail: string)
    requires tail != "" && tail[0] == '['
    ensures !IsName(name + tail)
  {
    var s := name + tail;
    assert s[|name|] == '[';
    assert '[' in s;
    var special := "/[]='\"|";
    assert special[1] == '[' && '[' in special;
  }

  lemma LeafReadsBack(leaves: seq<Leaf>, token: string)
    requires HasLeaf(leaves, token) || HasLeafList(leaves, token)
    requires forall f :: f in leaves ==> IsName(f.name)
    ensures Closed(token) && IsName(token)
    ensures PathFromLeaf(leaves, token) == Ok([token])
  {
    assert IsName(token);
    NameClosed(token);
    NameBase(token);
  }

  lemma NameBase(s: string)
    requires IsName(s)
    ensures BaseName(s) == s
  {
    IndexOfAbsent(s, '[');
  }

  /** A quoted key or inner field is never read back. */
  lemma QuotedEntryFails(l: YList, toks: seq<string>)
    requires ListWellFormed(l) && toks != [] && EntryAddress(l, toks) && !QuoteFreeEntry(l, toks)
    ensures TokensFromList(l, toks, false).Ok?
    ensures var ys := Pieces(Slashed(TokensFromList(l, toks, false).value));
            ys != [] && BaseName(ys[0]) == l.name && PathFromList(l, ys) != Ok(toks)
  {
    hide Predicates, IsName, Closed, KeysToDict, Values, SplitOn, JoinOn, HasLeaf, HasLeafList, IndexOf, Pieces, Predicate;
    var xs := TokensFromList(l, toks, false).value;
    var ys := Pieces(Slashed(xs));
    var vs := StripAll(SplitOn(toks[0], '|'));
    PredicatesOpen(l.keys, vs);
    var tail := Predicates(l.keys, vs) + Slashed(xs[1..]);
    assert Slashed(xs) == "/" + l.name + tail;
    FirstPieceNamed(l.name, tail);
    if PathFromList(l, ys) == Ok(toks) {
      ReadKeyHasNoQuote(l, ys);
      QuotedInnerFails(l, toks, ys);
    }
  }

  /** No text is read back as an inner field that holds a quote. */
  lemma QuotedInnerFails(l: YList, toks: seq<string>, ys: seq<string>)
    requires |toks| == 2
    requires '\'' in toks[1] && InnerOf(l).Some? && ys != []
    ensures PathFromList(l, ys) != Ok(toks)
  {
    hide IsName, KeysToDict, Values, SplitOn, JoinOn, IndexOf, KeyPairs;
    var n := InnerOf(l).value;
    var r := PathFromList(l, ys);
    if r == Ok(toks) {
      var rest := PathFromInner(n, ys[1..]).value;
      assert toks[1] == rest[0];
      ReadInnerHasNoQuote(n, ys[1..]);
    }
  }

  lemma EntryTripIff(l: YList, toks: seq<string>)
    requires ListWellFormed(l) && toks != [] && EntryAddress(l, toks)
    ensures TokensFromList(l, toks, false).Ok?
    ensures var ys := Pieces(Slashed(TokensFromList(l, toks, false).value));
            ys != [] && BaseName(ys[0]) == l.name && (PathFromList(l, ys) == Ok(toks) <==> CleanEntry(l, toks))
  {
    hide TokensFromList, PathFromList, Closed, JoinOn, SplitOn, BaseName, ListWellFormed, EntryAddress, Trimmed, Strip;
    if QuoteFreeEntry(l, toks) {
      QuoteFreeEntryTrip(l, toks);
      ClosedSplit(TokensFromList(l, toks, false).value);
      StripKeyIff(toks[0]);
      assert toks == [toks[0]] + toks[1..];
    } else {
      QuotedEntryFails(l, toks);
    }
  }

  // ----- containers -----

  lemma ListModelIn(c: Container, key: string)
    ensures ListModel(c, key).Ok? && ListModel(c, key).value.Some? ==> ListModel(c, key).value.value in c.lists
    ensures ListModel(c, key) == Ok(None) <==> c.lists == []
  {
  }

  lemma SplitsOff(t: string, rest: seq<string>)
    requires Closed(t)
    ensures Pieces(Slashed([t] + rest)) == [t] + Pieces(Slashed(rest))
  {
    FirstPiece(t, Slashed(rest));
    SlashedCons(t, rest);
  }

  lemma {:induction false} ContainerTripIff(c: Container, toks: seq<string>)
    requires WellFormed(c) && toks != [] && IsName(toks[0]) && Address(c, toks)
    ensures TokensFromContainer(c, toks, false).Ok?
    ensures var ys := Pieces(Slashed(TokensFromContainer(c, toks, false).value));
            ys != [] && ys[0] == toks[0] && (PathFromContainer(c, ys) == Ok(toks) <==> Clean(c, toks))
    decreases |toks|
  {
    hide IsName, Closed, Pieces, Slashed, EntryAddress, CleanEntry, HasLeaf, HasLeafList, ListWellFormed, ListModel, TokensFromList,
      PathFromList, BaseName;
    NameClosed(toks[0]);
    if |toks| == 1 {
      ClosedSplit(toks);
    } else {
      ListModelIn(c, toks[1]);
      assert toks == [toks[0]] + toks[1..];
      match ListModel(c, toks[1])
      case Ok(Some(l)) =>
        EntryTripIff(l, toks[1..]);
        FindListExact(c.lists, l);
        SplitsOff(toks[0], TokensFromList(l, toks[1..], false).value);
      case Ok(None) =>
        match FindContainer(c.containers, toks[1])
        case Some(child) =>
          ContainerTripIff(child, toks[1..]);
          SplitsOff(toks[0], TokensFromContainer(child, toks[1..], false).value);
          NameBase(toks[1]);
        case None =>
          LeafReadsBack(c.leaves, toks[1]);
          NameBase(toks[1]);
          assert [toks[0], toks[1]] == [toks[0]] + [toks[1]];
          SplitsOff(toks[0], [toks[1]]);
          ClosedSplit([toks[1]]);
          assert toks[1..] == [toks[1]];
    }
  }

  // ----- schema xpaths -----

  /** Tokens without their predicates. */
  function Bases(xs: seq<string>): (r: seq<string>)
    ensures |r| == |xs|
  {
    if xs == [] then [] else [BaseName(xs[0])] + Bases(xs[1..])
  }

  lemma BasesCons(x: string, xs: seq<string>)
    ensures Bases([x] + xs) == [BaseName(x)] + Bases(xs)
  {
    assert ([x] + xs)[1..] == xs;
  }

  lemma EntrySchemaForm(l: YList, toks: seq<string>)
    requires ListWellFormed(l) && toks != [] && EntryAddress(l, toks)
    ensures TokensFromList(l, toks, false).Ok?
    ensures TokensFromList(l, toks, true) == Ok(Bases(TokensFromList(l, toks, false).value))
  {
    hide IsName, BaseName, SplitOn, Predicates, Bases, HasLeaf, HasLeafList;
    NoBases();
    var tail := Predicates(l.keys, StripAll(SplitOn(toks[0], '|')));
    var item := l.name + tail;
    PredicatesOpen(l.keys, StripAll(SplitOn(toks[0], '|')));
    BaseOfPrinted(l.name, tail);
    BasesCons(item, []);
    SeqAssoc([item], [], []);
    SeqAssoc([l.name], [], []);
    if |toks| == 2 {
      match InnerOf(l)
      case Some(n) =>
        assert n in l.inner;
        var t := n.name + Predicate(n.keys[0], toks[1]);
        BaseOfPrinted(n.name, Predicate(n.keys[0], toks[1]));
        BasesTwo(item, t);
      case None =>
        LeafReadsBack(l.leaves, toks[1]);
        NameBase(toks[1]);
        BasesTwo(item, toks[1]);
    }
  }

  lemma BasesTwo(x: string, y: string)
    ensures Bases([x, y]) == [BaseName(x), BaseName(y)]
  {
    hide BaseName;
    assert [x, y][1..] == [y] && [y][1..] == [];
  }

  /** The schema xpath of a path is its data xpath without the predicates. */
  lemma {:induction false} SchemaForm(c: Container, toks: seq<string>)
    requires WellFormed(c) && toks != [] && IsName(toks[0]) && Address(c, toks)
    ensures TokensFromContainer(c, toks, false).Ok?
    ensures TokensFromContainer(c, toks, true) == Ok(Bases(TokensFromContainer(c, toks, false).value))
    decreases |toks|
  {
    hide IsName, BaseName, EntryAddress, HasLeaf, HasLeafList, ListWellFormed, ListModel, TokensFromList, Bases;
    NameBase(toks[0]);
    if |toks| == 1 {
      BasesCons(toks[0], []);
      assert toks == [toks[0]] + [];
      NoBases();
    } else {
      ListModelIn(c, toks[1]);
      match ListModel(c, toks[1])
      case Ok(Some(l)) =>
        EntrySchemaForm(l, toks[1..]);
        BasesCons(toks[0], TokensFromList(l, toks[1..], false).value);
      case Ok(None) =>
        match FindContainer(c.containers, toks[1])
        case Some(child) =>
          ChildName(c, toks[1]);
          SchemaForm(child, toks[1..]);
          BasesCons(toks[0], TokensFromContainer(child, toks[1..], false).value);
        case None =>
          LeafReadsBack(c.leaves, toks[1]);
          NameBase(toks[1]);
          BasesCons(toks[0], [toks[1]]);
          BasesCons(toks[1], []);
          NoBases();
          assert [toks[1]] + [] == [toks[1]] && [toks[0], toks[1]] == [toks[0]] + [toks[1]];
    }
  }

  lemma NoBases()
    ensures Bases([]) == []
  {
  }

  lemma ChildName(c: Container, name: string)
    requires WellFormed(c) && FindContainer(c.containers, name).Some?
    ensures WellFormed(FindContainer(c.containers, name).value) && IsName(name)
  {
    hide IsName, ListWellFormed;
    assert WellFormed(FindContainer(c.containers, name).value);
  }

  // ----- whole paths -----

  /** Table names are names and their containers are well formed. */
  predicate TablesWellFormed(tables: map<string, Table>) {
    forall t :: t in tables ==>
      IsName(t) && IsName(tables[t].mod + ":" + tables[t].top) && WellFormed(tables[t].container)
  }

  /** The path parses and names something below a table of the schema. */
  predicate PathAddress(tables: map<string, Table>, path: string) {
    path != "/" && JsonPointers.Parse(path).Ok? &&
    var toks := JsonPointers.Parse(path).value;
    toks != [] && toks[0] in tables && Address(tables[toks[0]].container, toks)
  }

  /**
   Converting a path to a data xpath and back returns the same path exactly when no key
   value has outer blanks and no printed value holds a single quote.
   */
  lemma PathTripIff(tables: map<string, Table>, path: string)
    requires TablesWellFormed(tables) && PathAddress(tables, path)
    ensures var toks := JsonPointers.Parse(path).value;
            && ToXpath(tables, path, false).Ok?
            && (ToPath(tables, ToXpath(tables, path, false).value) == Ok(path) <==> Clean(tables[toks[0]].container, toks))
  {
    hide IsName, WellFormed, Pieces, Slashed, TokensFromContainer, PathFromContainer, Clean, Address;
    var toks := JsonPointers.Parse(path).value;
    var t := tables[toks[0]];
    JsonPointers.FormatParse(path);
    ContainerTripIff(t.container, toks);
    var xs := TokensFromContainer(t.container, toks, false).value;
    var m := t.mod + ":" + t.top;
    NameClosed(m);
    SplitsOff(m, xs);
    JoinIsSlashed([m] + xs);
    var ys := Pieces(Slashed(xs));
    var x := Join([m] + xs);
    NotJustSlash(m, xs);
    assert Split(x) == Ok([m] + ys) && ([m] + ys)[1..] == ys;
    var back := PathFromContainer(t.container, ys);
    if back.Ok? {
      JsonPointers.ParseFormat(back.value);
    }
  }

  lemma NotJustSlash(m: string, xs: seq<string>)
    requires IsName(m)
    ensures Join([m] + xs) != "" && Join([m] + xs) != "/"
  {
    if xs != [] {
      JoinOnCons(m, xs, '/');
    }
  }

  /**
   Any history of conversions leaves the answers unchanged: a converter asked twice, with
   any calls in between, gives the trip's result.
   */
  method RoundTripThroughCache(converter: Converter, earlier: seq<(string, bool)>, path: string) returns (back: Result<string>)
    requires converter.Valid() && TablesWellFormed(converter.tables) && PathAddress(converter.tables, path)
    modifies converter`cache
    ensures converter.Valid()
    ensures var toks := JsonPointers.Parse(path).value;
            back == Ok(path) <==> Clean(converter.tables[toks[0]].container, toks)
  {
    for i := 0 to |earlier|
      invariant converter.Valid()
    {
      var _ := converter.ConfigDbPathToXpath(earlier[i].0, earlier[i].1);
    }
    var x := converter.ConfigDbPathToXpath(path, false);
    PathTripIff(converter.tables, path);
    back := converter.XpathToConfigDbPath(x.value);
  }
}
