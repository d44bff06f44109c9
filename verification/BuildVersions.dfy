/** Package versions without the epoch and suffixes the build adds. */
module BuildVersions {
  import opened Texts
  import opened Decimals

  predicate Digits(s: string) {
    forall c :: c in s ==> IsDigit(c)
  }

  /** One or more digits and then, if anything, `sonic` and digits. */
  predicate BinaryBuild(s: string) {
    exists n :: 0 < n <= |s| && Digits(s[..n]) && (s[n..] == "" || ("sonic" <= s[n..] && Digits(s[n..][5..])))
  }

  predicate StableUpdate(s: string) {
    var u := IndexOf(s, 'u');
    0 < u < |s| - 1 && Digits(s[..u]) && Digits(s[u+1..])
  }

  /** fips, sonic, sonic.N, bN, bNsonic, bNsonicN or debNuN. */
  predicate IsSuffix(s: string) {
    || s == "fips" || s == "sonic"
    || ("sonic." <= s && |s| > 6 && Digits(s[6..]))
    || ("b" <= s && BinaryBuild(s[1..]))
    || ("deb" <= s && StableUpdate(s[3..]))
  }

  /** A run of suffixes, each after a plus sign. */
  predicate IsChain(s: string)
    decreases |s|
  {
    && s != "" && s[0] == '+'
    && var n := 1 + IndexOf(s[1..], '+');
       IsSuffix(s[1..n]) && (n == |s| || IsChain(s[n..]))
  }

  /** A chain up to the end of the text, or up to a newline that ends it. */
  predicate ChainAtEnd(s: string) {
    IsChain(s) || (s != "" && s[|s|-1] == '\n' && IsChain(s[..|s|-1]))
  }

  /** The leftmost place from `i` on where a chain runs to the end. */
  function Search(v: string, i: nat): (r: Option<nat>)
    requires i <= |v|
    ensures r.Some? ==> i <= r.value < |v| && ChainAtEnd(v[r.value..])
    ensures forall j :: i <= j < |v| && ChainAtEnd(v[j..]) ==> r.Some? && r.value <= j
    decreases |v| - i
  {
    if i == |v| then None
    else if ChainAtEnd(v[i..]) then Some(i)
    else Search(v, i + 1)
  }

  function Bare(v: string): (r: string)
    ensures r <= v
    decreases |v|
  {
    match Search(v, 0)
    case None => v
    case Some(i) => Bare(v[..i])
  }

  predicate HasEpoch(v: string) {
    var n := IndexOf(v, ':');
    0 < n < |v| && Digits(v[..n])
  }

  function DropEpoch(v: string): string {
    if HasEpoch(v) then v[IndexOf(v, ':')+1..] else v
  }

  function NormalVersion(v: string): string {
    Bare(DropEpoch(v))
  }

  method NormalizeVersion(v: string) returns (r: string)
    ensures r == NormalVersion(v)
  {
    r := DropEpoch(v);
    var m := Search(r, 0);
    while m.Some?
      invariant m == Search(r, 0) && Bare(r) == Bare(DropEpoch(v))
      decreases |r|
    {
      r := r[..m.value];
      m := Search(r, 0);
    }
  }

  // ----- suffix chains -----

  /** None of the characters that delimit epochs, suffixes and lines. */
  predicate Inner(s: string) {
    '+' !in s && '\n' !in s && ':' !in s
  }

  lemma InnerJoin(a: string, b: string)
    requires Inner(a) && Inner(b)
    ensures Inner(a + b)
  {
  }

  lemma DigitsInner(s: string)
    requires Digits(s)
    ensures Inner(s)
  {
  }

  lemma SonicInner(rest: string)
    requires "sonic" <= rest && Digits(rest[5..])
    ensures Inner(rest)
  {
    hide Digits, Inner;
    assert rest == "sonic" + rest[5..];
    DigitsInner(rest[5..]);
    Words();
    InnerJoin("sonic", rest[5..]);
  }

  lemma BinaryBuildInner(s: string)
    requires BinaryBuild(s)
    ensures Inner(s)
  {
    hide Digits, Inner;
    var n :| 0 < n <= |s| && Digits(s[..n]) && (s[n..] == "" || ("sonic" <= s[n..] && Digits(s[n..][5..])));
    DigitsInner(s[..n]);
    assert s == s[..n] + s[n..];
    if s[n..] == "" {
      assert s == s[..n];
    } else {
      SonicInner(s[n..]);
      InnerJoin(s[..n], s[n..]);
    }
  }

  lemma Words()
    ensures Inner("sonic") && Inner("sonic.") && Inner("fips") && Inner("b") && Inner("deb") && Inner("u")
  {
  }

  lemma StableUpdateInner(s: string)
    requires StableUpdate(s)
    ensures Inner(s)
  {
    hide Digits, Inner;
    var u := IndexOf(s, 'u');
    assert s == s[..u] + ("u" + s[u+1..]);
    Words();
    DigitsInner(s[..u]);
    DigitsInner(s[u+1..]);
    InnerJoin("u", s[u+1..]);
    InnerJoin(s[..u], "u" + s[u+1..]);
  }

  lemma SuffixInner(s: string)
    requires IsSuffix(s)
    ensures Inner(s) && s != ""
  {
    hide Digits, Inner, BinaryBuild, StableUpdate;
    Words();
    if s == "fips" || s == "sonic" {
    } else if "sonic." <= s && |s| > 6 && Digits(s[6..]) {
      assert s == "sonic." + s[6..];
      DigitsInner(s[6..]);
      InnerJoin("sonic.", s[6..]);
    } else if "b" <= s && BinaryBuild(s[1..]) {
      assert s == "b" + s[1..];
      BinaryBuildInner(s[1..]);
      InnerJoin("b", s[1..]);
    } else {
      assert s == "deb" + s[3..];
      StableUpdateInner(s[3..]);
      InnerJoin("deb", s[3..]);
    }
  }

  lemma {:induction false} ChainText(s: string)
    requires IsChain(s)
    ensures '\n' !in s && ':' !in s && s[|s|-1] != '\n'
    decreases |s|
  {
    hide IsSuffix;
    var n := 1 + IndexOf(s[1..], '+');
    SuffixInner(s[1..n]);
    assert s == ['+'] + s[1..n] + s[n..];
    if n < |s| {
      ChainText(s[n..]);
    }
    assert s[|s|-1] in s;
  }

  lemma {:induction false} FindEarly(a: string, b: string, c: char)
    requires c in a
    ensures IndexOf(a + b, c) == IndexOf(a, c) < |a|
  {
    if a[0] != c {
      FindEarly(a[1..], b, c);
      assert (a + b)[1..] == a[1..] + b;
    }
  }

  /** The first suffix of a chain and the rest. */
  lemma ChainHead(s: string)
    requires s != ""
    ensures var n := 1 + IndexOf(s[1..], '+');
            IsChain(s) <==> s[0] == '+' && IsSuffix(s[1..n]) && (n == |s| || IsChain(s[n..]))
  {
    hide IsSuffix, IndexOf;
  }

  lemma HeadOfJoined(a: string, b: string, n: nat)
    requires 1 <= n <= |a|
    ensures (a + b)[0] == a[0] && (a + b)[1..] == a[1..] + b
    ensures (a + b)[1..n] == a[1..n] && (a + b)[n..] == a[n..] + b
  {
  }

  /** A chain followed by a chain is a chain; and what precedes a chain inside a chain is one. */
  lemma {:induction false} ChainSplit(a: string, b: string)
    requires a != "" && IsChain(b)
    ensures IsChain(a + b) <==> IsChain(a)
    decreases |a|
  {
    hide IsSuffix, IndexOf, IsChain;
    var s := a + b;
    var n := 1 + IndexOf(a[1..], '+');
    HeadOfJoined(a, b, n);
    ChainHead(a);
    ChainHead(s);
    ChainPlus(b);
    if '+' in a[1..] {
      FindEarly(a[1..], b, '+');
      ChainSplit(a[n..], b);
    } else {
      FindLate(a[1..], b);
      assert a[n..] + b == b;
    }
  }

  lemma FindLate(a: string, b: string)
    requires '+' !in a && b != "" && b[0] == '+'
    ensures IndexOf(a, '+') == |a| && IndexOf(a + b, '+') == |a|
  {
    hide IndexOf;
    IndexOfAbsent(a, '+');
    IndexOfConcat(a, '+', b[1..]);
    HeadTail(b);
    SeqAssoc(a, ['+'], b[1..]);
  }

  lemma HeadTail(b: string)
    requires b != ""
    ensures [b[0]] + b[1..] == b
  {
  }

  lemma ChainPlus(s: string)
    requires IsChain(s)
    ensures s != "" && s[0] == '+'
  {
  }

  // ----- the suffixes written out -----

  predicate SomeDigits(n: string) {
    n != "" && Digits(n)
  }

  lemma BuildParts(n: string, m: string)
    requires SomeDigits(n) && Digits(m)
    ensures BinaryBuild(n) && BinaryBuild(n + "sonic" + m)
  {
    hide Digits;
    var s := n + "sonic" + m;
    assert n[..|n|] == n && n[|n|..] == "";
    assert s[..|n|] == n && s[|n|..] == "sonic" + m && ("sonic" + m)[5..] == m;
  }

  lemma PartsOfBuild(s: string)
    requires BinaryBuild(s)
    ensures SomeDigits(s) || exists n, m :: SomeDigits(n) && Digits(m) && s == n + "sonic" + m
  {
    hide Digits;
    var n :| 0 < n <= |s| && Digits(s[..n]) && (s[n..] == "" || ("sonic" <= s[n..] && Digits(s[n..][5..])));
    if s[n..] == "" {
      assert s[..n] == s;
    } else {
      assert s == s[..n] + "sonic" + s[n..][5..];
      assert SomeDigits(s[..n]);
    }
  }

  lemma BinaryBuildIff(s: string)
    ensures BinaryBuild(s) <==>
            SomeDigits(s) || exists n, m :: SomeDigits(n) && Digits(m) && s == n + "sonic" + m
  {
    hide Digits, BinaryBuild, SomeDigits;
    if BinaryBuild(s) {
      PartsOfBuild(s);
    }
    if SomeDigits(s) {
      NoMoreDigits();
      BuildParts(s, "");
    }
    if n, m :| SomeDigits(n) && Digits(m) && s == n + "sonic" + m {
      BuildParts(n, m);
    }
  }

  lemma NoMoreDigits()
    ensures Digits("")
  {
  }

  lemma StableUpdateParts(n: string, m: string)
    requires SomeDigits(n) && SomeDigits(m)
    ensures StableUpdate(n + "u" + m)
  {
    hide IndexOf;
    var s := n + "u" + m;
    assert 'u' !in n;
    assert s == n + ['u'] + m;
    IndexOfConcat(n, 'u', m);
    assert s[..|n|] == n && s[|n|+1..] == m;
  }

  lemma StableUpdateIff(s: string)
    ensures StableUpdate(s) <==> exists n, m :: SomeDigits(n) && SomeDigits(m) && s == n + "u" + m
  {
    hide IndexOf, Digits;
    if StableUpdate(s) {
      var u := IndexOf(s, 'u');
      assert s == s[..u] + "u" + s[u+1..];
      assert SomeDigits(s[..u]) && SomeDigits(s[u+1..]);
    }
    if n, m :| SomeDigits(n) && SomeDigits(m) && s == n + "u" + m {
      StableUpdateParts(n, m);
    }
  }

  /** fips, sonic, sonic.N, bN, bNsonicM and debNuM, where N is a number and M one or, after sonic, nothing. */
  ghost predicate SuffixText(s: string) {
    || s == "fips" || s == "sonic"
    || (exists n :: SomeDigits(n) && s == "sonic." + n)
    || (exists n :: SomeDigits(n) && s == "b" + n)
    || (exists n, m :: SomeDigits(n) && Digits(m) && s == "b" + (n + "sonic" + m))
    || (exists n, m :: SomeDigits(n) && SomeDigits(m) && s == "deb" + (n + "u" + m))
  }

  lemma SuffixForms(s: string)
    requires IsSuffix(s)
    ensures SuffixText(s)
  {
    hide Digits, BinaryBuild, StableUpdate;
    if "sonic." <= s && |s| > 6 && Digits(s[6..]) {
      assert s == "sonic." + s[6..];
    } else if "b" <= s && BinaryBuild(s[1..]) {
      BinaryBuildIff(s[1..]);
      assert s == "b" + s[1..];
    } else if "deb" <= s && StableUpdate(s[3..]) {
      StableUpdateIff(s[3..]);
      assert s == "deb" + s[3..];
    }
  }

  lemma FormsAreSuffixes(s: string)
    requires SuffixText(s)
    ensures IsSuffix(s)
  {
    hide Digits, BinaryBuild, StableUpdate;
    if s == "fips" || s == "sonic" {
    } else if n :| SomeDigits(n) && s == "sonic." + n {
      assert s[6..] == n;
    } else if n :| SomeDigits(n) && s == "b" + n {
      assert s[1..] == n;
      BinaryBuildIff(n);
    } else if n, m :| SomeDigits(n) && Digits(m) && s == "b" + (n + "sonic" + m) {
      assert s[1..] == n + "sonic" + m;
      BinaryBuildIff(s[1..]);
    } else {
      var n, m :| SomeDigits(n) && SomeDigits(m) && s == "deb" + (n + "u" + m);
      assert s[3..] == n + "u" + m;
      StableUpdateIff(s[3..]);
    }
  }

  /** Suffixes, each after a plus sign. */
  function ChainOf(ts: seq<string>): string {
    if ts == [] then "" else "+" + ts[0] + ChainOf(ts[1..])
  }

  lemma {:induction false} SuffixesChain(ts: seq<string>)
    requires ts != [] && forall t :: t in ts ==> SuffixText(t)
    ensures IsChain(ChainOf(ts))
  {
    hide IsChain, SuffixText, IsSuffix;
    assert ts[0] in ts;
    FormsAreSuffixes(ts[0]);
    OneSuffix(ts[0]);
    if |ts| == 1 {
      assert ts[1..] == [] && ChainOf([]) == "";
      assert "+" + ts[0] + "" == "+" + ts[0];
    } else {
      SuffixesChain(ts[1..]);
      ChainSplit("+" + ts[0], ChainOf(ts[1..]));
    }
  }

  lemma OneSuffix(t: string)
    requires IsSuffix(t)
    ensures IsChain("+" + t)
  {
    hide IsSuffix, IsChain, IndexOf;
    SuffixInner(t);
    var s := "+" + t;
    assert s[1..] == t;
    IndexOfAbsent(t, '+');
    ChainHead(s);
    assert s[1..|s|] == t;
  }

  /** A chain is a run of these suffixes, and nothing else is. */
  lemma {:induction false} ChainSuffixes(s: string) returns (ts: seq<string>)
    requires IsChain(s)
    ensures ts != [] && (forall t :: t in ts ==> SuffixText(t)) && s == ChainOf(ts)
    decreases |s|
  {
    hide IsSuffix, SuffixText, IndexOf, IsChain;
    ChainPlus(s);
    ChainHead(s);
    var n := 1 + IndexOf(s[1..], '+');
    var t := s[1..n];
    SuffixForms(t);
    if n == |s| {
      ts := [t];
      assert ts[1..] == [] && ChainOf([]) == "";
      assert s == "+" + t + "";
    } else {
      var rest := ChainSuffixes(s[n..]);
      ts := [t] + rest;
      assert ts[1..] == rest && s == "+" + t + s[n..];
    }
  }

  // ----- the normal form -----

  lemma {:induction false} BareSettled(v: string)
    ensures Search(Bare(v), 0) == None
    decreases |v|
  {
    match Search(v, 0)
    case None =>
    case Some(i) => BareSettled(v[..i]);
  }

  lemma SearchIs(v: string, i: nat)
    requires i < |v| && ChainAtEnd(v[i..]) && forall j :: 0 <= j < i ==> !ChainAtEnd(v[j..])
    ensures Search(v, 0) == Some(i)
  {
    hide ChainAtEnd;
  }

  /** A place in `v` starts a chain to the end of `v + c` exactly when it starts a plain chain to the end of `v`. */
  lemma ChainThrough(v: string, c: string, j: nat)
    requires ChainAtEnd(c) && j < |v|
    ensures ChainAtEnd((v + c)[j..]) <==> IsChain(v[j..])
  {
    hide IsChain;
    assert (v + c)[j..] == v[j..] + c;
    var s := v[j..] + c;
    AtEnd(c);
    assert s[|s|-1] == c[|c|-1];
    if IsChain(c) {
      ChainText(c);
      ChainSplit(v[j..], c);
    } else {
      var d := c[..|c|-1];
      assert s[..|s|-1] == v[j..] + d;
      ChainSplit(v[j..], d);
      if IsChain(s) {
        ChainText(s);
      }
    }
  }

  /** Appending a suffix chain, with or without a newline, does not change what is left. */
  lemma BareOfAppended(v: string, c: string)
    requires ChainAtEnd(c)
    ensures Bare(v + c) == Bare(v)
  {
    hide IsChain, ChainAtEnd, Bare;
    var s := v + c;
    assert s[|v|..] == c && s[..|v|] == v;
    forall j | 0 <= j < |v|
      ensures ChainAtEnd(s[j..]) <==> IsChain(v[j..])
    {
      ChainThrough(v, c, j);
    }
    AtEnd(c);
    assert ChainAtEnd(s[|v|..]);
    var i := Search(s, 0).value;
    BareStep(s, i);
    if i == |v| {
    } else {
      assert s[..i] == v[..i];
      PlainWins(v, i);
      BareStep(v, i);
    }
  }

  lemma AtEnd(c: string)
    ensures IsChain(c) ==> ChainAtEnd(c)
    ensures ChainAtEnd(c) ==> c != ""
  {
  }

  lemma BareStep(v: string, i: nat)
    requires Search(v, 0) == Some(i)
    ensures Bare(v) == Bare(v[..i])
  {
  }

  lemma PlainWins(v: string, i: nat)
    requires i < |v| && IsChain(v[i..]) && forall j :: 0 <= j < i ==> !IsChain(v[j..])
    ensures Search(v, 0) == Some(i)
  {
    hide IsChain;
    ChainText(v[i..]);
    forall j | 0 <= j < i
      ensures !ChainAtEnd(v[j..])
    {
      assert v[j..][|v[j..]|-1] == v[i..][|v[i..]|-1];
    }
    SearchIs(v, i);
  }

  /** Text that the removal of chains from its end can use up. */
  predicate Removable(s: string)
    decreases |s|
  {
    s == "" || exists i :: 0 <= i < |s| && ChainAtEnd(s[i..]) && Removable(s[..i])
  }

  lemma {:induction false} BareRemoves(v: string)
    ensures Removable(v[|Bare(v)|..])
    decreases |v|
  {
    hide ChainAtEnd;
    match Search(v, 0)
    case None => assert v[|v|..] == "";
    case Some(i) =>
      BareRemoves(v[..i]);
      var n := |Bare(v)|;
      var s := v[n..];
      assert s[i-n..] == v[i..] && s[..i-n] == v[..i][n..];
  }

  lemma {:induction false} BareWithout(v: string, t: string)
    requires Removable(t)
    ensures Bare(v + t) == Bare(v)
    decreases |t|
  {
    hide ChainAtEnd, Bare;
    if t == "" {
      assert v + t == v;
    } else {
      var i :| 0 <= i < |t| && ChainAtEnd(t[i..]) && Removable(t[..i]);
      BareWithout(v, t[..i]);
      BareOfAppended(v + t[..i], t[i..]);
      assert v + t[..i] + t[i..] == v + t;
    }
  }

  /**
   What is removed is used up by chains, and nothing longer is. Without newlines it is a
   single chain.
   */
  lemma BareRemovesChain(v: string)
    ensures Removable(v[|Bare(v)|..])
    ensures forall j :: 0 <= j < |v| && Removable(v[j..]) ==> |Bare(v)| <= j
    ensures '\n' !in v ==> Bare(v) == v || IsChain(v[|Bare(v)|..])
  {
    hide IsChain, Bare, Removable;
    BareRemoves(v);
    forall j | 0 <= j < |v| && Removable(v[j..])
      ensures |Bare(v)| <= j
    {
      BareWithout(v[..j], v[j..]);
      assert v[..j] + v[j..] == v;
    }
    if '\n' !in v {
      OneChain(v);
    }
  }

  lemma OneChain(v: string)
    requires '\n' !in v
    ensures Bare(v) == v || IsChain(v[|Bare(v)|..])
  {
    hide IsChain, Bare;
    match Search(v, 0)
    case None => BareNone(v);
    case Some(i) =>
      BareStep(v, i);
      PlainAtEnd(v[i..]);
      forall j | 0 <= j < i
        ensures !ChainAtEnd(v[..i][j..])
      {
        AtEnd(v[j..]);
        if ChainAtEnd(v[..i][j..]) {
          assert v[..i][j..] + v[i..] == v[j..];
          PlainAtEnd(v[..i][j..]);
          ChainSplit(v[..i][j..], v[i..]);
          assert false;
        }
      }
      BareNone(v[..i]);
  }

  lemma PlainAtEnd(s: string)
    requires '\n' !in s && ChainAtEnd(s)
    ensures IsChain(s)
  {
    assert s[|s|-1] in s;
  }

  lemma BareNone(v: string)
    requires Search(v, 0) == None
    ensures Bare(v) == v
  {
  }

  // ----- epochs -----

  predicate IsEpoch(e: string) {
    |e| > 1 && e[|e|-1] == ':' && Digits(e[..|e|-1])
  }

  lemma EpochFound(e: string, v: string)
    requires IsEpoch(e)
    ensures HasEpoch(e + v) && DropEpoch(e + v) == v
  {
    var d := e[..|e|-1];
    assert ':' !in d;
    assert e + v == d + ([':'] + v);
    IndexOfConcat(d, ':', v);
    assert d + [':'] + v == d + ([':'] + v);
    assert (e + v)[..|d|] == d && (e + v)[|d|+1..] == v;
  }

  /** Putting an epoch in front leaves the normal form alone exactly when the version has none yet. */
  lemma EpochIff(e: string, v: string)
    requires IsEpoch(e)
    ensures NormalVersion(e + v) == NormalVersion(v) <==> !HasEpoch(v)
  {
    hide Bare, IndexOf, Digits;
    EpochFound(e, v);
    if HasEpoch(v) {
      var n := IndexOf(v, ':') + 1;
      assert v == v[..n] + v[n..];
      assert '+' !in v[..n] by { EpochText(v); }
      BarePrefix(v[..n], v[n..]);
    }
  }

  lemma EpochText(v: string)
    requires HasEpoch(v)
    ensures '+' !in v[..IndexOf(v, ':')+1]
  {
    var n := IndexOf(v, ':');
    assert v[..n+1] == v[..n] + [v[n]];
  }

  lemma ChainStarts(s: string)
    requires ChainAtEnd(s)
    ensures s[0] == '+'
  {
    hide IsSuffix;
    if !IsChain(s) {
      assert s[..|s|-1][0] == s[0];
    }
  }

  /** Text without plus signs in front is kept. */
  lemma {:induction false} BarePrefix(a: string, v: string)
    requires '+' !in a
    ensures Bare(a + v) == a + Bare(v)
    decreases |v|
  {
    hide ChainAtEnd;
    var s := a + v;
    forall j | 0 <= j < |a|
      ensures !ChainAtEnd(s[j..])
    {
      assert s[j..][0] == a[j];
      if ChainAtEnd(s[j..]) {
        ChainStarts(s[j..]);
      }
    }
    forall j | 0 <= j < |v|
      ensures s[|a| + j..] == v[j..]
    {
    }
    match Search(v, 0)
    case None =>
      forall j | |a| <= j < |s|
        ensures !ChainAtEnd(s[j..])
      {
        assert s[j..] == v[j - |a|..];
      }
      BareNone(s);
    case Some(i) =>
      assert s[|a| + i..] == v[i..];
      var k := Search(s, 0).value;
      assert s[k..] == v[k - |a|..];
      assert k == |a| + i;
      BareStep(s, k);
      assert s[..k] == a + v[..i];
      BarePrefix(a, v[..i]);
  }

  lemma EpochKept(v: string, c: string)
    requires ':' !in c && (c != "" ==> !IsDigit(c[0]))
    ensures HasEpoch(v + c) <==> HasEpoch(v)
    ensures DropEpoch(v + c) == DropEpoch(v) + c
  {
    if ':' in v {
      FindEarly(v, c, ':');
      var n := IndexOf(v, ':');
      assert (v + c)[..n] == v[..n] && (v + c)[n+1..] == v[n+1..] + c;
    } else {
      IndexOfAbsent(v, ':');
      IndexOfAbsent(v + c, ':');
    }
  }

  /** Appending suffixes, and a newline, never changes the normal form. */
  lemma SuffixIgnored(v: string, ts: seq<string>)
    requires ts != [] && forall t :: t in ts ==> SuffixText(t)
    ensures NormalVersion(v + ChainOf(ts)) == NormalVersion(v)
    ensures NormalVersion(v + (ChainOf(ts) + "\n")) == NormalVersion(v)
  {
    hide SuffixText, IsChain, ChainOf;
    SuffixesChain(ts);
    ChainIgnored(v, ChainOf(ts));
    LineIgnored(v, ChainOf(ts));
  }

  lemma ChainIgnored(v: string, c: string)
    requires IsChain(c)
    ensures NormalVersion(v + c) == NormalVersion(v)
  {
    hide Bare, HasEpoch, DropEpoch;
    assert c[0] == '+';
    ChainText(c);
    EpochKept(v, c);
    AtEnd(c);
    BareOfAppended(DropEpoch(v), c);
  }

  lemma LineIgnored(v: string, c: string)
    requires IsChain(c)
    ensures NormalVersion(v + (c + "\n")) == NormalVersion(v)
  {
    hide Bare, HasEpoch, DropEpoch, IsChain;
    var line := c + "\n";
    ChainText(c);
    ChainPlus(c);
    assert line[..|line|-1] == c && line[0] == c[0];
    EpochKept(v, line);
    BareOfAppended(DropEpoch(v), line);
  }

  /** An epoch is a number and a colon at the very start. */
  lemma HasEpochIff(v: string)
    ensures HasEpoch(v) <==> exists n, w :: SomeDigits(n) && v == n + ":" + w
  {
    hide IndexOf;
    if HasEpoch(v) {
      var i := IndexOf(v, ':');
      assert v == v[..i] + ":" + v[i+1..];
    }
    if n, w :| SomeDigits(n) && v == n + ":" + w {
      assert ':' !in n && v == n + [':'] + w;
      IndexOfConcat(n, ':', w);
      assert v[..|n|] == n;
    }
  }

  /** Neither an epoch nor suffixes change the normal form of a version without an epoch. */
  lemma NoiseIgnored(n: string, v: string, ts: seq<string>)
    requires SomeDigits(n) && !HasEpoch(v) && forall t :: t in ts ==> SuffixText(t)
    ensures NormalVersion(n + ":" + v + ChainOf(ts)) == NormalVersion(v)
  {
    hide NormalVersion, HasEpoch, ChainOf, SuffixText;
    var e := n + ":";
    assert e[..|e|-1] == n;
    EpochIff(e, v);
    if ts == [] {
      NoSuffix(e + v);
    } else {
      SuffixIgnored(e + v, ts);
    }
  }

  lemma NoSuffix(v: string)
    ensures v + ChainOf([]) == v
  {
  }
}
