/** Failure results and the string operations of Python the models share. */
module Texts {

  datatype Option<+T> = None | Some(value: T)

  datatype Result<+T> = Ok(value: T) | Err {
    predicate IsFailure() { Err? }
    function PropagateFailure<U>(): Result<U>
      requires Err?
    {
      Err
    }
    function Extract(): T
      requires Ok?
    {
      value
    }
  }

  lemma SeqAssoc<T>(a: seq<T>, b: seq<T>, c: seq<T>)
    ensures a + (b + c) == a + b + c
    ensures a + [] == a && [] + a == a
  {
  }

  lemma WholeSlice<T>(s: seq<T>)
    ensures s[..|s|] == s && s[|s|..] == [] && s[0..] == s
    ensures s + [] == s && [] + s == s
  {
  }

  /** Position of the first `c`, or the length when there is none. */
  function IndexOf(s: string, c: char): (i: nat)
    ensures i <= |s| && c !in s[..i]
    ensures i < |s| ==> s[i] == c
  {
    if s == "" || s[0] == c then 0
    else
      var i := 1 + IndexOf(s[1..], c);
      assert s[..i] == [s[0]] + s[1..][..i-1];
      i
  }

  // ----- split and join on one character -----

  /** Python's str.split(c). */
  function SplitOn(s: string, c: char): (r: seq<string>)
    ensures r != []
  {
    if s == "" then [""]
    else if s[0] == c then [""] + SplitOn(s[1..], c)
    else var r := SplitOn(s[1..], c); [[s[0]] + r[0]] + r[1..]
  }

  /** Python's c.join(ts). */
  function JoinOn(ts: seq<string>, c: char): string {
    if ts == [] then "" else if |ts| == 1 then ts[0] else ts[0] + [c] + JoinOn(ts[1..], c)
  }

  /** Texts one after the other. */
  function Concat(ts: seq<string>): string {
    if ts == [] then "" else ts[0] + Concat(ts[1..])
  }

  lemma JoinOnSingle(t: string, c: char)
    ensures JoinOn([t], c) == t
  {
  }

  lemma JoinOnCons(t: string, ts: seq<string>, c: char)
    requires ts != []
    ensures JoinOn([t] + ts, c) == t + [c] + JoinOn(ts, c)
  {
    assert ([t] + ts)[1..] == ts;
  }

  lemma JoinOnGrow(a: string, t: string, ts: seq<string>, c: char)
    ensures JoinOn([a + t] + ts, c) == a + JoinOn([t] + ts, c)
  {
    if ts == [] {
    } else {
      JoinOnCons(a + t, ts, c);
      JoinOnCons(t, ts, c);
      assert a + t + [c] + JoinOn(ts, c) == a + (t + [c] + JoinOn(ts, c));
    }
  }

  /** Joining the pieces of a split gives the string back. */
  lemma {:induction false} JoinOfSplit(s: string, c: char)
    ensures JoinOn(SplitOn(s, c), c) == s
  {
    if s != "" {
      var r := SplitOn(s[1..], c);
      JoinOfSplit(s[1..], c);
      if s[0] == c {
        JoinOnCons("", r, c);
        assert "" + [c] + s[1..] == s;
      } else {
        JoinOnGrow([s[0]], r[0], r[1..], c);
        assert [r[0]] + r[1..] == r;
        assert [s[0]] + s[1..] == s;
      }
    }
  }

  lemma {:induction false} SplitPieces(s: string, c: char)
    ensures forall t :: t in SplitOn(s, c) ==> c !in t
  {
    if s != "" {
      SplitPieces(s[1..], c);
    }
  }

  lemma {:induction false} SplitWhole(s: string, c: char)
    requires c !in s
    ensures SplitOn(s, c) == [s]
  {
    if s != "" {
      SplitWhole(s[1..], c);
      assert [s[0]] + s[1..] == s;
    }
  }

  lemma {:induction false} SplitFirst(t: string, s: string, c: char)
    requires c !in t
    ensures SplitOn(t + [c] + s, c) == [t] + SplitOn(s, c)
  {
    if t == "" {
      assert t + [c] + s == [c] + s && ([c] + s)[1..] == s;
    } else {
      SplitFirst(t[1..], s, c);
      assert (t + [c] + s)[1..] == t[1..] + [c] + s;
      assert [t[0]] + t[1..] == t;
    }
  }

  /** Splitting joined pieces gives the pieces back when none holds the separator. */
  lemma {:induction false} SplitOfJoin(ts: seq<string>, c: char)
    requires ts != [] && forall t :: t in ts ==> c !in t
    ensures SplitOn(JoinOn(ts, c), c) == ts
  {
    if |ts| == 1 {
      SplitWhole(ts[0], c);
    } else {
      SplitOfJoin(ts[1..], c);
      SplitFirst(ts[0], JoinOn(ts[1..], c), c);
      assert [ts[0]] + ts[1..] == ts;
    }
  }

  lemma {:induction false} IndexOfConcat(a: string, c: char, b: string)
    requires c !in a
    ensures IndexOf(a + [c] + b, c) == |a|
  {
    if a != "" {
      assert (a + [c] + b)[1..] == a[1..] + [c] + b;
      IndexOfConcat(a[1..], c, b);
    }
  }

  lemma {:induction false} IndexOfAbsent(a: string, c: char)
    requires c !in a
    ensures IndexOf(a, c) == |a|
  {
    if a != "" {
      IndexOfAbsent(a[1..], c);
    }
  }

  lemma {:induction false} JoinHasNo(ts: seq<string>, sep: char, c: char)
    requires c != sep && forall t :: t in ts ==> c !in t
    ensures c !in JoinOn(ts, sep)
  {
    if |ts| > 1 {
      JoinHasNo(ts[1..], sep, c);
    }
  }

  // ----- white space -----

  /** The characters Python's str.strip removes. */
  predicate IsSpace(c: char) {
    var n := c as int;
    9 <= n <= 13 || 28 <= n <= 32 || n == 0x85 || n == 0xA0 || n == 0x1680 || 0x2000 <= n <= 0x200A
    || n == 0x2028 || n == 0x2029 || n == 0x202F || n == 0x205F || n == 0x3000
  }

  function StripLeft(s: string): (r: string)
    ensures |r| <= |s|
    ensures forall c :: c in r ==> c in s
  {
    if s != "" && IsSpace(s[0]) then StripLeft(s[1..]) else s
  }

  function StripRight(s: string): (r: string)
    ensures |r| <= |s|
    ensures forall c :: c in r ==> c in s
  {
    if s != "" && IsSpace(s[|s|-1]) then StripRight(s[..|s|-1]) else s
  }

  /** Python's str.strip(). */
  function Strip(s: string): (r: string)
    ensures forall c :: c in r ==> c in s
  {
    StripRight(StripLeft(s))
  }

  /** No outer blanks. */
  predicate Trimmed(s: string) {
    s == "" || (!IsSpace(s[0]) && !IsSpace(s[|s|-1]))
  }

  lemma StripTrimmed(s: string)
    ensures Strip(s) == s <==> Trimmed(s)
  {
    if s != "" {
      if IsSpace(s[0]) {
        assert |StripLeft(s[1..])| < |s|;
      } else if IsSpace(s[|s|-1]) {
        assert |StripRight(s[..|s|-1])| < |s|;
      }
    }
  }

  function StripAll(vs: seq<string>): (r: seq<string>)
    ensures |r| == |vs|
    ensures forall i :: 0 <= i < |vs| ==> r[i] == Strip(vs[i])
  {
    if vs == [] then [] else [Strip(vs[0])] + StripAll(vs[1..])
  }

  lemma {:induction false} StripLeftTrims(s: string)
    ensures StripLeft(s) == "" || !IsSpace(StripLeft(s)[0])
  {
    if s != "" && IsSpace(s[0]) {
      StripLeftTrims(s[1..]);
    }
  }

  lemma {:induction false} StripRightTrims(s: string)
    ensures StripRight(s) <= s
    ensures StripRight(s) == "" || !IsSpace(StripRight(s)[|StripRight(s)|-1])
  {
    if s != "" && IsSpace(s[|s|-1]) {
      StripRightTrims(s[..|s|-1]);
    }
  }

  /** What strip leaves has no outer blanks. */
  lemma StripTrims(s: string)
    ensures Trimmed(Strip(s))
  {
    StripLeftTrims(s);
    StripRightTrims(StripLeft(s));
  }

  // ----- case -----

  function LowerChar(c: char): char {
    if 'A' <= c <= 'Z' then (c as int + 32) as char else c
  }

  /** Lower case, of ASCII letters. */
  function Lower(s: string): (r: string)
    ensures |r| == |s|
  {
    seq(|s|, i requires 0 <= i < |s| => LowerChar(s[i]))
  }

  /** The same letter in either case, or the same character. */
  predicate SameLetter(a: char, b: char) {
    || a == b
    || ('A' <= a <= 'Z' && b as int == a as int + 32)
    || ('A' <= b <= 'Z' && a as int == b as int + 32)
  }

  /** Texts agree in lower case exactly when they agree letter by letter. */
  lemma LowerIff(s: string, t: string)
    ensures Lower(s) == Lower(t) <==> |s| == |t| && forall i :: 0 <= i < |s| ==> SameLetter(s[i], t[i])
  {
    forall c: char, d: char
      ensures LowerChar(c) == LowerChar(d) <==> SameLetter(c, d)
    {
    }
    if Lower(s) == Lower(t) {
      assert |Lower(s)| == |s| && |Lower(t)| == |t|;
      assert forall i :: 0 <= i < |s| ==> Lower(s)[i] == LowerChar(s[i]) && Lower(t)[i] == LowerChar(t[i]);
    }
  }

  // ----- order -----

  /** Python's order on strings: lexicographic by code point. */
  predicate StrLeq(a: string, b: string) {
    a == "" || (b != "" && (a[0] < b[0] || (a[0] == b[0] && StrLeq(a[1..], b[1..]))))
  }

  lemma {:induction false} StrTotal(a: string, b: string)
    ensures StrLeq(a, b) || StrLeq(b, a)
  {
    if a != "" && b != "" && a[0] == b[0] {
      StrTotal(a[1..], b[1..]);
    }
  }

  lemma {:induction false} StrAntisymmetric(a: string, b: string)
    requires StrLeq(a, b) && StrLeq(b, a)
    ensures a == b
  {
    if a != "" && b != "" {
      StrAntisymmetric(a[1..], b[1..]);
      assert a == [a[0]] + a[1..] && b == [b[0]] + b[1..];
    }
  }

  lemma {:induction false} StrTransitive(a: string, b: string, c: string)
    requires StrLeq(a, b) && StrLeq(b, c)
    ensures StrLeq(a, c)
  {
    if a != "" && a[0] == b[0] == c[0] {
      StrTransitive(a[1..], b[1..], c[1..]);
    }
  }
}
