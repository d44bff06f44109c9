/** When a primary key survives being split into key leaves and put together again. */
module YangKeyLaws {
  import opened Texts
  import opened Decimals
  import opened YangSchema
  import opened YangValues
  import opened YangEntries

  /** A list the translation supports: its keys are scalar leaves. */
  predicate KeysOk(l: YList) {
    && l.keys != []
    && (forall i, j :: 0 <= i < j < |l.keys| ==> l.keys[i] != l.keys[j])
    && (forall k :: k in l.keys ==> ScalarLeaf(l.leaves, k))
  }

  predicate ScalarLeaf(leaves: seq<Leaf>, name: string) {
    FindLeaf(leaves, name).Some? && !FindLeaf(leaves, name).value.isList
  }

  function BaseOf(leaves: seq<Leaf>, name: string): Base
    requires ScalarLeaf(leaves, name)
  {
    FindLeaf(leaves, name).value.base
  }

  // ----- one part -----

  function KeyPart(base: Base, p: string): Result<string> {
    var x :- Printed(base, Text(Strip(p)));
    if Truthy(x) then Ok(PyStr(x)) else Err
  }

  /** A part in the printed form of its type that is not empty, zero or false as a Python value. */
  predicate KeyPartOk(base: Base, p: string) {
    match base
    case Uint(wide) => Canonical(p) && (wide || p != "0")
    case Int(wide) => CanonicalInt(p) && (wide || p != "0")
    case Decimal64 => CanonicalReal(p)
    case Bool => false
    case Plain => Trimmed(p) && p != ""
  }

  /** What the library prints for a text is true as a Python value unless it is a zero, false or empty. */
  lemma PrintedTruthy(base: Base, s: string)
    requires Printed(base, Text(s)).Ok? && !base.Bool?
    ensures var y := Printed(base, Text(s)).value;
            Truthy(y) <==> PyStr(y) != "" && ((base.Uint? || base.Int?) && !base.wide ==> PyStr(y) != "0")
  {
    hide Fixed, Integer, PrintReal;
    PrintedShape(base, Text(s));
    var y := Printed(base, Text(s)).value;
    if (base.Uint? || base.Int?) && !base.wide {
      ZeroPrinted(y.n);
    }
  }

  lemma ZeroPrinted(n: int)
    ensures PrintInt(n) != "" && (PrintInt(n) == "0" <==> n == 0)
  {
    if n > 0 {
      DecimalCanonical(n);
    }
  }

  lemma KeyPartFixed(base: Base, t: string)
    requires !base.Bool? && Fixed(base, t) && Trimmed(t)
    ensures KeyPartOk(base, t) <==> t != "" && ((base.Uint? || base.Int?) && !base.wide ==> t != "0")
  {
    hide Canonical, CanonicalInt, CanonicalReal, Trimmed;
    if IsNumber(base) {
      NumberIsNumeral(base, t);
    }
  }

  lemma KeyPartOkFixed(base: Base, p: string)
    requires KeyPartOk(base, p)
    ensures !base.Bool? && Fixed(base, p) && Trimmed(p)
  {
    hide Canonical, CanonicalInt, CanonicalReal, Trimmed;
    if IsNumber(base) {
      NumberIsNumeral(base, p);
    }
  }

  lemma KeyPartIff(base: Base, p: string)
    ensures KeyPart(base, p) == Ok(p) <==> KeyPartOk(base, p)
  {
    hide Strip, Trimmed, Printed, PyStr, Truthy, KeyPartOk, Fixed;
    var s := Strip(p);
    if KeyPartOk(base, p) {
      KeyPartOkFixed(base, p);
      KeyPartFixed(base, p);
      StripTrimmed(p);
      SentIff(base, p);
      PrintedTruthy(base, p);
    } else if KeyPart(base, p) == Ok(p) {
      PrintedShape(base, Text(s));
      if base.Bool? {
        TrueRefused(base, p);
      } else {
        PlainTrimmed(base, p);
        PrintedTruthy(base, s);
        KeyPartFixed(base, p);
      }
    }
  }

  /** Python's spelling of a boolean is not YANG's. */
  lemma TrueRefused(base: Base, p: string)
    requires base.Bool? && (p == "True" || p == "False")
    ensures KeyPart(base, p).Err?
  {
    hide Strip;
    ShapeTrimmed(base, p);
    StripTrimmed(p);
  }

  lemma PlainTrimmed(base: Base, p: string)
    requires !base.Bool? && Fixed(base, p) && (base.Plain? ==> Strip(p) == p)
    ensures Trimmed(p)
  {
    hide Fixed, Strip, Trimmed;
    ShapeTrimmed(base, p);
    StripTrimmed(p);
  }

  /** A part that came back holds no bar, is not empty, and is itself left alone if it is accepted again. */
  lemma KeyPartSettles(base: Base, p: string)
    requires '|' !in p && KeyPart(base, p).Ok?
    ensures var t := KeyPart(base, p).value;
            && t != "" && '|' !in t
            && (KeyPart(base, t).Ok? ==> KeyPartOk(base, t))
            && (!base.Bool? ==> KeyPartOk(base, t))
  {
    hide Strip, Trimmed, Printed, PyStr, Truthy, KeyPartOk, Fixed;
    var s, t := Strip(p), KeyPart(base, p).value;
    PrintedShape(base, Text(s));
    if base.Bool? {
      TrueRefused(base, t);
    } else {
      StripTrims(p);
      ShapeTrimmed(base, t);
      ShapeFree(base, t, '|');
      PrintedTruthy(base, s);
      KeyPartFixed(base, t);
    }
  }

  // ----- all parts -----

  function KeyParts(leaves: seq<Leaf>, keys: seq<string>, parts: seq<string>): (r: Result<seq<string>>)
    requires |keys| == |parts| && forall k :: k in keys ==> ScalarLeaf(leaves, k)
    ensures r.Ok? ==> |r.value| == |keys|
  {
    if keys == [] then Ok([])
    else
      var t :- KeyPart(BaseOf(leaves, keys[0]), parts[0]);
      var rest :- KeyParts(leaves, keys[1..], parts[1..]);
      Ok([t] + rest)
  }

  /** What a primary key becomes. */
  function KeyTrip(l: YList, pkey: string): Result<string>
    requires KeysOk(l)
  {
    var parts := SplitOn(pkey, '|');
    if |l.keys| != |parts| then Err
    else
      var ts :- KeyParts(l.leaves, l.keys, parts);
      Ok(JoinOn(ts, '|'))
  }

  /** As many parts as keys, each in the printed form of its key's type and not false, zero or empty. */
  predicate KeyOk(l: YList, pkey: string)
    requires KeysOk(l)
  {
    var parts := SplitOn(pkey, '|');
    && |l.keys| == |parts|
    && forall i :: 0 <= i < |parts| ==> KeyPartOk(BaseOf(l.leaves, l.keys[i]), parts[i])
  }

  lemma {:induction false} KeyPartsAt(leaves: seq<Leaf>, keys: seq<string>, parts: seq<string>, i: nat)
    requires |keys| == |parts| && (forall k :: k in keys ==> ScalarLeaf(leaves, k))
    requires KeyParts(leaves, keys, parts).Ok? && i < |keys|
    ensures KeyPart(BaseOf(leaves, keys[i]), parts[i]) == Ok(KeyParts(leaves, keys, parts).value[i])
  {
    hide KeyPart;
    if i > 0 {
      KeyPartsAt(leaves, keys[1..], parts[1..], i - 1);
    }
  }

  lemma {:induction false} KeyPartsFixed(leaves: seq<Leaf>, keys: seq<string>, parts: seq<string>)
    requires |keys| == |parts| && (forall k :: k in keys ==> ScalarLeaf(leaves, k))
    requires forall i :: 0 <= i < |parts| ==> KeyPartOk(BaseOf(leaves, keys[i]), parts[i])
    ensures KeyParts(leaves, keys, parts) == Ok(parts)
  {
    hide KeyPart, KeyPartOk;
    if keys != [] {
      assert keys[0] in keys;
      KeyPartIff(BaseOf(leaves, keys[0]), parts[0]);
      KeyPartsFixed(leaves, keys[1..], parts[1..]);
      assert parts == [parts[0]] + parts[1..];
    }
  }

  lemma KeyTextsSplit(l: YList, pkey: string)
    requires KeysOk(l) && KeyTrip(l, pkey).Ok?
    ensures var ts := KeyParts(l.leaves, l.keys, SplitOn(pkey, '|')).value;
            && (forall t :: t in ts ==> t != "" && '|' !in t)
            && SplitOn(KeyTrip(l, pkey).value, '|') == ts
  {
    hide KeyPart, KeyParts, SplitOn, JoinOn, KeyPartOk;
    var parts := SplitOn(pkey, '|');
    var ts := KeyParts(l.leaves, l.keys, parts).value;
    SplitPieces(pkey, '|');
    forall i | 0 <= i < |ts|
      ensures ts[i] != "" && '|' !in ts[i]
    {
      KeyPartsAt(l.leaves, l.keys, parts, i);
      KeyPartSettles(BaseOf(l.leaves, l.keys[i]), parts[i]);
    }
    SplitOfJoin(ts, '|');
  }

  /** A primary key comes back unchanged exactly when each of its parts is in printed form. */
  lemma KeyTripIff(l: YList, pkey: string)
    requires KeysOk(l)
    ensures KeyTrip(l, pkey) == Ok(pkey) <==> KeyOk(l, pkey)
  {
    hide KeyPart, KeyParts, SplitOn, JoinOn, KeyPartOk;
    var parts := SplitOn(pkey, '|');
    JoinOfSplit(pkey, '|');
    if KeyOk(l, pkey) {
      KeyPartsFixed(l.leaves, l.keys, parts);
    }
    if KeyTrip(l, pkey) == Ok(pkey) {
      KeyTextsSplit(l, pkey);
      forall i | 0 <= i < |parts|
        ensures KeyPartOk(BaseOf(l.leaves, l.keys[i]), parts[i])
      {
        KeyPartsAt(l.leaves, l.keys, parts, i);
        KeyPartIff(BaseOf(l.leaves, l.keys[i]), parts[i]);
      }
    }
  }

  /** A key that came back, if it is accepted again, is in printed form. */
  lemma KeySettles(l: YList, pkey: string)
    requires KeysOk(l) && KeyTrip(l, pkey).Ok?
    ensures var k := KeyTrip(l, pkey).value;
            |SplitOn(k, '|')| == |l.keys| && (KeyTrip(l, k).Ok? ==> KeyOk(l, k))
  {
    hide KeyPart, KeyParts, SplitOn, JoinOn, KeyPartOk;
    var parts := SplitOn(pkey, '|');
    var ts := KeyParts(l.leaves, l.keys, parts).value;
    KeyTextsSplit(l, pkey);
    SplitPieces(pkey, '|');
    if KeyTrip(l, KeyTrip(l, pkey).value).Ok? {
      forall i | 0 <= i < |ts|
        ensures KeyPartOk(BaseOf(l.leaves, l.keys[i]), ts[i])
      {
        KeyPartsAt(l.leaves, l.keys, parts, i);
        KeyPartsAt(l.leaves, l.keys, ts, i);
        KeyPartSettles(BaseOf(l.leaves, l.keys[i]), parts[i]);
      }
    }
  }

  // ----- the key trip is what the translation does -----

  lemma {:induction false} BarredJoin(ts: seq<string>)
    requires ts != []
    ensures Barred(ts) == JoinOn(ts, '|') + "|"
  {
    if |ts| == 1 {
      assert Barred(ts[1..]) == "";
    } else {
      BarredJoin(ts[1..]);
    }
  }

  lemma {:induction false} JoinEnd(ts: seq<string>)
    requires ts != [] && ts[|ts|-1] != ""
    ensures JoinOn(ts, '|') != "" && JoinOn(ts, '|')[|JoinOn(ts, '|')|-1] == ts[|ts|-1][|ts[|ts|-1]|-1]
  {
    if |ts| > 1 {
      JoinEnd(ts[1..]);
    }
  }

  lemma StripBarsJoin(ts: seq<string>)
    requires ts != [] && forall t :: t in ts ==> t != "" && '|' !in t
    ensures StripBars(Barred(ts)) == JoinOn(ts, '|')
  {
    hide JoinOn, Barred;
    var j := JoinOn(ts, '|');
    BarredJoin(ts);
    assert ts[|ts|-1] in ts;
    JoinEnd(ts);
    assert (j + "|")[..|j|] == j;
  }
}
