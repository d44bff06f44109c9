/**
 Splitting an xpath into tokens at "/" outside predicates, and joining tokens again.

 The reference is a three-state automaton read one character at a time; the index
 scanners are proved to compute it.
 */
module XpathTokens {
  import opened Texts

  // ----- the reference automaton -----

  /** Outside predicates, inside one, or inside a literal opened by `quote`. */
  datatype Scan = Top | Pred | Quote(quote: char)

  function Step(st: Scan, c: char): Scan {
    match st
    case Top => if c == '[' then Pred else Top
    case Pred => if c == ']' then Top else if c == '\'' || c == '"' then Quote(c) else Pred
    case Quote(q) => if c == q then Pred else st
  }

  /** How many characters of `s` come before the first separator, starting in `st`. */
  function Cut(st: Scan, s: string): (n: nat)
    ensures n <= |s|
    ensures n < |s| ==> s[n] == '/'
    decreases |s|
  {
    if s == "" || (st.Top? && s[0] == '/') then 0 else 1 + Cut(Step(st, s[0]), s[1..])
  }

  /** The state after reading all of `s`. */
  function After(st: Scan, s: string): Scan
    decreases |s|
  {
    if s == "" then st else After(Step(st, s[0]), s[1..])
  }

  /** `t` holds no separator. */
  predicate Uncut(t: string) {
    Cut(Top, t) == |t|
  }

  /** `t` holds no separator and leaves no bracket or quote open. */
  predicate Closed(t: string) {
    Uncut(t) && After(Top, t) == Top
  }

  /** The tokens of `s`, whose first character is taken as a separator. */
  function Pieces(s: string): seq<string>
    decreases |s|
  {
    if s == "" then [] else
    var k := Cut(Top, s[1..]);
    [s[1..1+k]] + Pieces(s[1+k..])
  }

  // ----- the index scanners -----

  lemma CutStep(x: string, i: nat, st: Scan)
    requires i < |x| && !(st.Top? && x[i] == '/')
    ensures i + Cut(st, x[i..]) == i + 1 + Cut(Step(st, x[i]), x[i+1..])
  {
    assert x[i..][1..] == x[i+1..];
  }

  lemma CutStop(x: string, i: nat, st: Scan)
    requires i == |x| || (i < |x| && st.Top? && x[i] == '/')
    ensures Cut(st, x[i..]) == 0
  {
  }

  method QuoteStrEnd(quote: char, start: nat, x: string) returns (idx: nat)
    requires start < |x|
    ensures start < idx <= |x|
    ensures idx < |x| ==> x[idx] == quote
    ensures start + 1 + Cut(Quote(quote), x[start+1..]) == if idx < |x| then idx + 1 + Cut(Pred, x[idx+1..]) else |x|
  {
    hide Cut;
    idx := start + 1;
    CutStop(x, |x|, Quote(quote));
    while idx < |x|
      invariant start < idx <= |x|
      invariant start + 1 + Cut(Quote(quote), x[start+1..]) == idx + Cut(Quote(quote), x[idx..])
    {
      CutStep(x, idx, Quote(quote));
      if x[idx] == quote {
        break;
      }
      idx := idx + 1;
    }
  }

  method PredicateEnd(start: nat, x: string) returns (idx: nat)
    requires start < |x|
    ensures start <= idx <= |x| + 1
    ensures start + Cut(Pred, x[start..]) == if idx < |x| then idx + 1 + Cut(Top, x[idx+1..]) else |x|
  {
    hide Cut;
    idx := start;
    CutStop(x, |x|, Pred);
    while idx < |x|
      invariant start <= idx <= |x| + 1
      invariant start + Cut(Pred, x[start..]) == if idx <= |x| then idx + Cut(Pred, x[idx..]) else |x|
    {
      CutStep(x, idx, Pred);
      if x[idx] == ']' {
        break;
      } else if x[idx] == '\'' || x[idx] == '"' {
        idx := QuoteStrEnd(x[idx], idx, x);
      }
      idx := idx + 1;
    }
  }

  method TokenEnd(start: nat, x: string) returns (idx: nat)
    requires start <= |x|
    ensures start <= idx <= |x| + 2
    ensures start + Cut(Top, x[start..]) == if idx <= |x| then idx else |x|
  {
    hide Cut;
    idx := start;
    CutStop(x, |x|, Top);
    while idx < |x|
      invariant start <= idx <= |x| + 2
      invariant start + Cut(Top, x[start..]) == if idx <= |x| then idx + Cut(Top, x[idx..]) else |x|
    {
      if x[idx] == '/' {
        CutStop(x, idx, Top);
        break;
      }
      CutStep(x, idx, Top);
      if x[idx] == '[' {
        CutStep(x, idx, Pred);
        idx := PredicateEnd(idx, x);
      }
      idx := idx + 1;
    }
  }

  // ----- split and join -----

  /** Splits an xpath into tokens; the empty xpath is an error. */
  function Split(x: string): Result<seq<string>> {
    if x == "" then Err else if x == "/" then Ok([]) else Ok(Pieces(x))
  }

  lemma PiecesAppend(x: string, idx: nat, end: nat)
    requires idx < |x| && end == idx + 1 + Cut(Top, x[idx+1..])
    ensures Pieces(x[idx..]) == [x[idx+1..end]] + Pieces(x[end..])
  {
    var s := x[idx..];
    assert s[1..] == x[idx+1..];
    var k := Cut(Top, s[1..]);
    assert s[1..1+k] == x[idx+1..end] && s[1+k..] == x[end..];
  }

  /** A slice bound past the end of the string stands for its end. */
  function Clamp(i: nat, x: string): nat {
    if i <= |x| then i else |x|
  }

  lemma PiecesEnd(x: string)
    ensures Pieces(x[|x|..]) == []
  {
  }

  method XpathSplit(x: string) returns (r: Result<seq<string>>)
    ensures r == Split(x)
  {
    if x == "" {
      return Err;
    }
    if x == "/" {
      return Ok([]);
    }
    hide Cut, Pieces;
    var idx := 0;
    var tokens: seq<string> := [];
    assert x[0..] == x;
    while idx < |x|
      invariant tokens + Pieces(x[Clamp(idx, x)..]) == Pieces(x)
    {
      var end := TokenEnd(idx + 1, x);
      PiecesAppend(x, idx, Clamp(end, x));
      var token := x[idx+1..Clamp(end, x)];
      SeqAssoc(tokens, [token], Pieces(x[Clamp(end, x)..]));
      tokens := tokens + [token];
      idx := end;
    }
    PiecesEnd(x);
    SeqAssoc(tokens, [], []);
    r := Ok(tokens);
  }

  /** Each token behind a "/". */
  function Slashed(ts: seq<string>): string {
    if ts == [] then "" else "/" + ts[0] + Slashed(ts[1..])
  }

  function Join(ts: seq<string>): string {
    "/" + JoinOn(ts, '/')
  }

  lemma {:induction false} JoinIsSlashed(ts: seq<string>)
    requires ts != []
    ensures Join(ts) == Slashed(ts)
  {
    if |ts| > 1 {
      JoinIsSlashed(ts[1..]);
      assert ['/'] == "/";
      assert "/" + (ts[0] + "/" + JoinOn(ts[1..], '/')) == "/" + ts[0] + ("/" + JoinOn(ts[1..], '/'));
    } else {
      assert ts[1..] == [];
    }
  }

  lemma {:induction false} SlashedPieces(s: string)
    requires s != "" ==> s[0] == '/'
    ensures Slashed(Pieces(s)) == s
    decreases |s|
  {
    hide Cut, Slashed;
    if s == "" {
      SlashedNone();
    } else {
      var k := Cut(Top, s[1..]);
      SlashedPieces(s[1+k..]);
      SlashedCons(s[1..1+k], Pieces(s[1+k..]));
      Regroup(s, k);
    }
  }

  lemma SlashedNone()
    ensures Slashed([]) == ""
  {
  }

  lemma SlashedCons(t: string, ts: seq<string>)
    ensures Slashed([t] + ts) == "/" + t + Slashed(ts)
  {
    assert ([t] + ts)[1..] == ts;
  }

  lemma Regroup(s: string, k: nat)
    requires k < |s| && s[0] == '/'
    ensures s == "/" + s[1..1+k] + s[1+k..]
  {
  }

  /** Joining the tokens of an xpath gives it back exactly when it starts with "/", whatever is left open. */
  lemma JoinSplitIff(x: string)
    requires x != ""
    ensures Split(x).Ok? && (Join(Split(x).value) == x <==> x[0] == '/')
  {
    if x[0] == '/' && x != "/" {
      SlashedPieces(x);
      JoinIsSlashed(Pieces(x));
    }
  }

  // ----- splitting what was joined -----

  lemma {:induction false} CutConcat(st: Scan, t: string, r: string)
    ensures Cut(st, t) < |t| ==> Cut(st, t + r) == Cut(st, t)
    ensures Cut(st, t) == |t| ==> Cut(st, t + r) == |t| + Cut(After(st, t), r)
    decreases |t|
  {
    if t == "" {
      assert t + r == r;
    } else {
      assert (t + r)[1..] == t[1..] + r;
      CutConcat(Step(st, t[0]), t[1..], r);
    }
  }

  /** The first token split off is `t` exactly when `t` has no separator and is closed before the next one. */
  lemma FirstPiece(t: string, r: string)
    requires r != "" ==> r[0] == '/'
    ensures Pieces("/" + t + r) != []
    ensures Pieces("/" + t + r)[0] == t <==> Uncut(t) && (r == "" || Closed(t))
    ensures Uncut(t) && (r == "" || Closed(t)) ==> Pieces("/" + t + r) == [t] + Pieces(r)
  {
    var s := "/" + t + r;
    assert s[1..] == t + r;
    CutConcat(Top, t, r);
    var k := Cut(Top, t + r);
    assert |s[1..1+k]| == k;
    if Uncut(t) && r != "" && !Closed(t) {
      assert Cut(After(Top, t), r) > 0;
    }
    if Uncut(t) && (r == "" || Closed(t)) {
      assert s[1..1+k] == t && s[1+k..] == r;
    }
  }

  /** Every token but the last is closed, and the last holds no separator. */
  predicate Splittable(ts: seq<string>) {
    ts == [] || (Uncut(ts[0]) && (|ts| == 1 || Closed(ts[0])) && Splittable(ts[1..]))
  }

  lemma {:induction false} PiecesSlashedIff(ts: seq<string>)
    ensures Pieces(Slashed(ts)) == ts <==> Splittable(ts)
  {
    if ts != [] {
      var t, rest := ts[0], ts[1..];
      PiecesSlashedIff(rest);
      FirstPiece(t, Slashed(rest));
      assert ts == [t] + rest;
      assert Slashed(rest) == "" <==> |ts| == 1;
      var p := Pieces(Slashed(ts));
      if Uncut(t) && (|ts| == 1 || Closed(t)) {
        assert p == [t] + Pieces(Slashed(rest));
        assert p[1..] == Pieces(Slashed(rest));
      }
    }
  }

  /** Splitting joined tokens gives them back exactly for splittable lists other than [""]. */
  lemma SplitJoinIff(ts: seq<string>)
    ensures Split(Join(ts)) == Ok(ts) <==> ts != [""] && Splittable(ts)
  {
    if ts != [] {
      JoinIsSlashed(ts);
      PiecesSlashedIff(ts);
      if |ts| > 1 {
        assert |JoinOn(ts, '/')| >= 1;
      }
    }
  }
}
