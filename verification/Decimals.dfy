/** Unsigned decimal numerals, and how Python reads and prints integers. */
module Decimals {
  import opened Texts

  predicate IsDigit(c: char) {
    '0' <= c <= '9'
  }

  predicate AllDigits(s: string) {
    s != "" && forall c :: c in s ==> IsDigit(c)
  }

  /** A numeral without superfluous leading zeros. */
  predicate Canonical(s: string) {
    AllDigits(s) && (|s| == 1 || s[0] != '0')
  }

  function DigitValue(c: char): (d: nat)
    requires IsDigit(c)
    ensures d < 10 && ('0' as int + d) as char == c
  {
    c as int - '0' as int
  }

  function Number(s: string): nat
    requires forall c :: c in s ==> IsDigit(c)
  {
    if s == "" then 0
    else
      assert s[|s|-1] in s;
      10 * Number(s[..|s|-1]) + DigitValue(s[|s|-1])
  }

  function Decimal(n: nat): (s: string)
    ensures s != ""
  {
    var last := ('0' as int + n % 10) as char;
    if n < 10 then [last] else Decimal(n / 10) + [last]
  }

  /** Python's str of an integer. */
  function PrintInt(n: int): string {
    if n < 0 then "-" + Decimal(-n) else Decimal(n)
  }

  lemma {:induction false} DecimalCanonical(n: nat)
    ensures Canonical(Decimal(n)) && Number(Decimal(n)) == n
    ensures n != 0 ==> Decimal(n)[0] != '0'
  {
    if n >= 10 {
      DecimalCanonical(n / 10);
      var s := Decimal(n);
      assert s[..|s|-1] == Decimal(n / 10);
    }
  }

  lemma {:induction false} NumberPositive(s: string)
    requires AllDigits(s) && s[0] != '0'
    ensures Number(s) > 0
  {
    if |s| == 1 {
      assert s[0] in s;
    } else {
      NumberPositive(s[..|s|-1]);
    }
  }

  /** Printing the value of a canonical numeral gives the numeral back. */
  lemma {:induction false} DecimalOfNumber(s: string)
    requires Canonical(s)
    ensures Decimal(Number(s)) == s
  {
    var front := s[..|s|-1];
    assert s == front + [s[|s|-1]];
    assert s[|s|-1] in s;
    if front != "" {
      NumberPositive(front);
      DecimalOfNumber(front);
    }
  }

  lemma ZeroNumeral(s: string)
    requires Canonical(s)
    ensures Number(s) == 0 <==> s == "0"
  {
    DecimalOfNumber(s);
  }

  // ----- int(text, 10) -----

  /** Digits with single underscores between them. */
  predicate Grouped(s: string) {
    && s != "" && IsDigit(s[0])
    && (|s| == 1 || if s[1] == '_' then Grouped(s[2..]) else Grouped(s[1..]))
  }

  function OnlyDigits(s: string): (r: string)
    ensures forall c :: c in r ==> IsDigit(c)
  {
    if s == "" then ""
    else if IsDigit(s[0]) then [s[0]] + OnlyDigits(s[1..])
    else OnlyDigits(s[1..])
  }

  function ReadDigits(s: string): Result<int> {
    if Grouped(s) then Ok(Number(OnlyDigits(s))) else Err
  }

  /** Python's int(s, 10) on ASCII digits: outer blanks, a sign and underscores are accepted. */
  function ReadInt(s: string): Result<int> {
    var t := Strip(s);
    if t != "" && t[0] == '-' then
      var n :- ReadDigits(t[1..]);
      Ok(-n)
    else if t != "" && t[0] == '+' then ReadDigits(t[1..])
    else ReadDigits(t)
  }

  lemma {:induction false} DigitsGrouped(s: string)
    requires AllDigits(s)
    ensures Grouped(s) && OnlyDigits(s) == s
  {
    assert [s[0]] + s[1..] == s;
    if |s| == 1 {
    } else {
      DigitsGrouped(s[1..]);
    }
  }

  lemma ReadNumeral(s: string)
    requires AllDigits(s)
    ensures ReadInt(s) == Ok(Number(s))
  {
    hide Strip, Number, Grouped, OnlyDigits;
    assert s[0] in s && s[|s|-1] in s;
    StripTrimmed(s);
    DigitsGrouped(s);
  }

  // ----- what int(text, 10) accepts -----

  /** The groups of digits between underscores. */
  function Groups(t: string): (r: seq<string>)
    ensures r != []
  {
    SplitOn(t, '_')
  }

  lemma GroupStep(c: char, t: string)
    ensures Groups([c] + t) == if c == '_' then [""] + Groups(t) else [[c] + Groups(t)[0]] + Groups(t)[1..]
  {
    assert ([c] + t)[1..] == t;
  }

  lemma FirstGroup(t: string)
    ensures Groups(t)[0] == "" <==> t == "" || t[0] == '_'
  {
  }

  lemma {:induction false} GroupedIff(t: string)
    ensures Grouped(t) <==> forall g :: g in Groups(t) ==> AllDigits(g)
    ensures Grouped(t) ==> OnlyDigits(t) == Concat(Groups(t))
    decreases |t|
  {
    hide Groups, OnlyDigits;
    if t == "" {
      FirstGroup(t);
      assert Groups(t)[0] in Groups(t);
    } else {
      var c, rest := t[0], t[1..];
      assert t == [c] + rest;
      GroupStep(c, rest);
      FirstGroup(rest);
      if c == '_' {
        assert Groups(t)[0] in Groups(t);
      } else if rest == "" {
        LastGroup(c);
        assert t == [c];
      } else if rest[0] == '_' {
        assert rest == ['_'] + rest[1..] && t[2..] == rest[1..];
        GroupStep('_', rest[1..]);
        GroupedIff(rest[1..]);
        NewGroup(c, Groups(rest[1..]));
        DigitsSkip(c, rest[1..]);
      } else {
        GroupedIff(rest);
        LongerGroup(c, Groups(rest));
        DigitsStep(c, rest);
      }
    }
  }

  lemma NoGroup()
    ensures Groups("") == [""]
  {
  }

  lemma LastGroup(c: char)
    requires c != '_'
    ensures Groups([c]) == [[c]]
    ensures (forall g :: g in [[c]] ==> AllDigits(g)) <==> IsDigit(c)
    ensures IsDigit(c) ==> OnlyDigits([c]) == Concat([[c]])
  {
    GroupStep(c, "");
    NoGroup();
    assert [c] + "" == [c] && [[c]] + [] == [[c]] && [""][1..] == [];
    assert [[c]][1..] == [] && Concat([]) == "" && [[c]][0] == [c] && [c][1..] == "" && OnlyDigits("") == "";
    assert [c] in [[c]];
  }

  lemma NewGroup(c: char, gs: seq<string>)
    ensures (forall g :: g in [[c] + ""] + gs ==> AllDigits(g)) <==> IsDigit(c) && forall g :: g in gs ==> AllDigits(g)
    ensures Concat([[c] + ""] + gs) == [c] + Concat(gs)
  {
    var all := [[c] + ""] + gs;
    assert [c] + "" == [c] && all[0] == [c] && all[1..] == gs && all[0] in all;
    assert forall g :: g in all <==> g == [c] || g in gs;
  }

  lemma MoreDigits(c: char, g: string)
    requires g != ""
    ensures AllDigits([c] + g) <==> IsDigit(c) && AllDigits(g)
  {
    assert c in [c] + g && forall d :: d in [c] + g <==> d == c || d in g;
  }

  lemma LongerGroup(c: char, gs: seq<string>)
    requires gs != [] && gs[0] != ""
    ensures (forall g :: g in [[c] + gs[0]] + gs[1..] ==> AllDigits(g)) <==> IsDigit(c) && forall g :: g in gs ==> AllDigits(g)
    ensures Concat([[c] + gs[0]] + gs[1..]) == [c] + Concat(gs)
  {
    hide AllDigits;
    MoreDigits(c, gs[0]);
    HeadAll([c] + gs[0], gs[1..]);
    HeadAll(gs[0], gs[1..]);
    assert gs == [gs[0]] + gs[1..];
    SeqAssoc([c], gs[0], Concat(gs[1..]));
  }

  lemma HeadAll(g: string, gs: seq<string>)
    ensures (forall h :: h in [g] + gs ==> AllDigits(h)) <==> AllDigits(g) && forall h :: h in gs ==> AllDigits(h)
    ensures Concat([g] + gs) == g + Concat(gs)
  {
    hide AllDigits;
    var all := [g] + gs;
    assert all[1..] == gs && g in all && forall h :: h in all <==> h == g || h in gs;
  }

  lemma DigitsStep(c: char, rest: string)
    ensures OnlyDigits([c] + rest) == if IsDigit(c) then [c] + OnlyDigits(rest) else OnlyDigits(rest)
  {
    assert ([c] + rest)[1..] == rest;
  }

  lemma DigitsSkip(c: char, rest: string)
    ensures OnlyDigits([c] + (['_'] + rest)) == if IsDigit(c) then [c] + OnlyDigits(rest) else OnlyDigits(rest)
  {
    DigitsStep('_', rest);
    DigitsStep(c, ['_'] + rest);
  }

  /** Outer blanks, then a sign if there is one, then groups of digits between single underscores. */
  predicate IsPyInt(s: string) {
    forall g :: g in Groups(Unsigned(Strip(s))) ==> AllDigits(g)
  }

  function PyInt(s: string): int
    requires IsPyInt(s)
  {
    ConcatDigits(Groups(Unsigned(Strip(s))));
    var n: int := Number(Concat(Groups(Unsigned(Strip(s)))));
    if Negative(Strip(s)) then -n else n
  }

  lemma {:induction false} ConcatDigits(gs: seq<string>)
    requires forall g :: g in gs ==> AllDigits(g)
    ensures forall c :: c in Concat(gs) ==> IsDigit(c)
  {
    if gs != [] {
      ConcatDigits(gs[1..]);
      assert gs[0] in gs;
    }
  }

  /** Python reads exactly these texts, with the value of their digits. */
  lemma ReadIntIff(s: string)
    ensures ReadInt(s) == if IsPyInt(s) then Ok(PyInt(s)) else Err
  {
    hide Strip, Groups, Grouped, OnlyDigits, Number, Concat;
    GroupedIff(Unsigned(Strip(s)));
  }

  lemma DecimalReads(n: nat)
    ensures IsPyInt(Decimal(n)) && PyInt(Decimal(n)) == n
  {
    hide Strip, Groups, Concat, Canonical, IsPyInt, PyInt, Number;
    DecimalCanonical(n);
    CanonicalDigits(Decimal(n));
    ReadNumeral(Decimal(n));
    ReadIntIff(Decimal(n));
  }

  // ----- YANG integers and decimals -----

  predicate Negative(s: string) {
    s != "" && s[0] == '-'
  }

  function Unsigned(s: string): string {
    if s != "" && (s[0] == '+' || s[0] == '-') then s[1..] else s
  }

  /** An integer by section 9.2.1 of RFC 7950: an optional sign and decimal digits. */
  predicate IsInteger(s: string) {
    AllDigits(Unsigned(s))
  }

  function Integer(s: string): int
    requires IsInteger(s)
  {
    var n: int := Number(Unsigned(s));
    if Negative(s) then -n else n
  }

  /** Section 9.2.2 of RFC 7950: no plus sign, no superfluous zeros, and zero has no sign. */
  predicate CanonicalInt(s: string) {
    if Negative(s) then Canonical(s[1..]) && s != "-0" else Canonical(s)
  }

  lemma CanonicalDigits(s: string)
    requires Canonical(s)
    ensures AllDigits(s) && Unsigned(s) == s && !Negative(s)
  {
    assert s[0] in s;
  }

  lemma CanonicalIntFixed(s: string)
    requires CanonicalInt(s)
    ensures IsInteger(s) && PrintInt(Integer(s)) == s && (Integer(s) == 0 <==> s == "0")
  {
    hide Canonical, Number, Decimal;
    var t := Unsigned(s);
    if !Negative(s) {
      CanonicalDigits(s);
    }
    CanonicalDigits(t);
    DecimalOfNumber(t);
    ZeroNumeral(t);
    assert Negative(s) ==> s == "-" + t;
  }

  lemma PrintIntCanonical(n: int)
    ensures CanonicalInt(PrintInt(n))
  {
    hide Canonical, Number, Decimal;
    if n < 0 {
      DecimalCanonical(-n);
      assert PrintInt(n)[1..] == Decimal(-n);
      assert PrintInt(n)[1] == Decimal(-n)[0] != '0';
    } else {
      DecimalCanonical(n);
      CanonicalDigits(Decimal(n));
    }
  }

  lemma PrintNatCanonical(n: nat)
    ensures Canonical(PrintInt(n))
  {
    DecimalCanonical(n);
  }

  function Parts(s: string): (r: seq<string>)
    ensures r != []
  {
    SplitOn(Unsigned(s), '.')
  }

  /** A decimal64 by section 9.3.1 of RFC 7950: an integer, and digits after a point if there is one. */
  predicate IsReal(s: string) {
    |Parts(s)| <= 2 && forall p :: p in Parts(s) ==> AllDigits(p)
  }

  function TrimZeros(f: string): (r: string)
    ensures AllDigits(f) ==> AllDigits(r)
    ensures |r| <= 1 || r[|r|-1] != '0'
    ensures |f| <= 1 || f[|f|-1] != '0' ==> r == f
  {
    if |f| > 1 && f[|f|-1] == '0' then TrimZeros(f[..|f|-1]) else f
  }

  function Magnitude(whole: string, fraction: string): string
    requires AllDigits(whole)
  {
    Decimal(Number(whole)) + ['.'] + TrimZeros(fraction)
  }

  /** The canonical form of section 9.3.2 of RFC 7950. */
  function PrintReal(s: string): string
    requires IsReal(s)
  {
    var m := Magnitude(Parts(s)[0], if |Parts(s)| == 1 then "0" else Parts(s)[1]);
    if Negative(s) && m != "0.0" then ['-'] + m else m
  }

  /** No plus sign, a point between digits without superfluous zeros, and zero has no sign. */
  predicate CanonicalReal(s: string) {
    && IsReal(s) && (Unsigned(s) == s || Negative(s)) && s != "-0.0"
    && |Parts(s)| == 2 && Canonical(Parts(s)[0])
    && TrimZeros(Parts(s)[1]) == Parts(s)[1]
  }

  lemma DigitsNoPoint(s: string)
    requires AllDigits(s)
    ensures '.' !in s && s[0] != '-' && s[0] != '+'
  {
    assert s[0] in s;
  }

  lemma MagnitudeParts(whole: string, fraction: string)
    requires AllDigits(whole) && AllDigits(fraction)
    ensures var m := Magnitude(whole, fraction);
            && SplitOn(m, '.') == [Decimal(Number(whole)), TrimZeros(fraction)]
            && Unsigned(m) == m && !Negative(m) && Unsigned(['-'] + m) == m && Negative(['-'] + m)
  {
    hide Canonical, Number, Decimal, TrimZeros, SplitOn;
    var w, f := Decimal(Number(whole)), TrimZeros(fraction);
    DecimalCanonical(Number(whole));
    CanonicalDigits(w);
    DigitsNoPoint(w);
    DigitsNoPoint(f);
    SplitFirst(w, f, '.');
    SplitWhole(f, '.');
    assert (['-'] + Magnitude(whole, fraction))[1..] == Magnitude(whole, fraction);
    assert [w] + [f] == [w, f];
    assert Magnitude(whole, fraction)[0] == w[0];
  }

  lemma PointedCanonical(m: string, ps: seq<string>)
    requires |ps| == 2 && SplitOn(m, '.') == ps && Canonical(ps[0]) && AllDigits(ps[1]) && TrimZeros(ps[1]) == ps[1]
    requires Unsigned(m) == m && !Negative(m) && Unsigned(['-'] + m) == m && Negative(['-'] + m)
    ensures CanonicalReal(m) && (m != "0.0" ==> CanonicalReal(['-'] + m))
  {
    hide TrimZeros, SplitOn, Unsigned, AllDigits;
    CanonicalDigits(ps[0]);
    assert m != "-0.0";
    if ['-'] + m == "-0.0" {
      assert (['-'] + m)[1..] == m && "-0.0"[1..] == "0.0";
    }
  }

  lemma PrintRealCanonical(s: string)
    requires IsReal(s)
    ensures CanonicalReal(PrintReal(s))
  {
    hide Canonical, Number, Decimal, TrimZeros, CanonicalReal, SplitOn, Unsigned, Negative;
    var whole, fraction := Parts(s)[0], if |Parts(s)| == 1 then "0" else Parts(s)[1];
    MagnitudeParts(whole, fraction);
    DecimalCanonical(Number(whole));
    PointedCanonical(Magnitude(whole, fraction), [Decimal(Number(whole)), TrimZeros(fraction)]);
  }

  lemma CanonicalRealFixed(s: string)
    requires CanonicalReal(s)
    ensures IsReal(s) && PrintReal(s) == s
  {
    hide Canonical, Number, Decimal, TrimZeros, AllDigits, SplitOn, JoinOn;
    var u, ps := Unsigned(s), Parts(s);
    DecimalOfNumber(ps[0]);
    JoinOfSplit(u, '.');
    JoinTwo(ps, '.');
    assert Negative(s) ==> s == ['-'] + u;
    assert ['-'] + "0.0" == "-0.0";
  }

  lemma JoinTwo(ps: seq<string>, c: char)
    requires |ps| == 2
    ensures JoinOn(ps, c) == ps[0] + [c] + ps[1]
  {
    JoinOnSingle(ps[1], c);
    assert ps[1..] == [ps[1]];
  }

  /** The characters of a number as YANG prints it. */
  predicate IsNumeral(s: string) {
    s != "" && forall c :: c in s ==> IsDigit(c) || c in "-."
  }

  lemma CanonicalNumeral(s: string)
    requires CanonicalInt(s) || CanonicalReal(s)
    ensures IsNumeral(s)
  {
    hide SplitOn, JoinOn;
    var u := Unsigned(s);
    if CanonicalReal(s) {
      var ps := Parts(s);
      JoinOfSplit(u, '.');
      JoinTwo(ps, '.');
      assert ps[0] in ps && ps[1] in ps;
      assert forall c :: c in u ==> IsDigit(c) || c == '.';
    } else if !Negative(s) {
      CanonicalDigits(s);
    }
    assert s == u || s == ['-'] + u;
  }

  lemma NumeralTrimmed(s: string)
    requires IsNumeral(s)
    ensures Trimmed(s) && Strip(s) == s
  {
    assert s[0] in s && s[|s|-1] in s;
    StripTrimmed(s);
  }
}
