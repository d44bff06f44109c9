/**
 JSON pointers as sections 3 and 4 of RFC 6901 define them: reference tokens behind "/",
 with "~0" for "~" and "~1" for "/".
 */
module JsonPointers {
  import opened Texts

  function EscapeChar(c: char): string {
    if c == '~' then "~0" else if c == '/' then "~1" else [c]
  }

  function Escape(t: string): string {
    if t == "" then "" else EscapeChar(t[0]) + Escape(t[1..])
  }

  function Unescape(s: string): Result<string> {
    if s == "" then Ok("")
    else if s[0] == '~' then
      if |s| > 1 && (s[1] == '0' || s[1] == '1') then
        var t :- Unescape(s[2..]);
        Ok([if s[1] == '0' then '~' else '/'] + t)
      else Err
    else
      var t :- Unescape(s[1..]);
      Ok([s[0]] + t)
  }

  function UnescapeAll(parts: seq<string>): Result<seq<string>> {
    if parts == [] then Ok([])
    else
      var t :- Unescape(parts[0]);
      var ts :- UnescapeAll(parts[1..]);
      Ok([t] + ts)
  }

  function EscapeAll(ts: seq<string>): seq<string> {
    if ts == [] then [] else [Escape(ts[0])] + EscapeAll(ts[1..])
  }

  /** The reference tokens of a pointer; it must be empty or start with "/". */
  function Parse(p: string): Result<seq<string>> {
    if p == "" then Ok([]) else
    var parts := SplitOn(p, '/');
    if parts[0] != "" then Err else UnescapeAll(parts[1..])
  }

  function Format(ts: seq<string>): string {
    if ts == [] then "" else "/" + Escape(ts[0]) + Format(ts[1..])
  }

  lemma {:induction false} EscapeHasNoSlash(t: string)
    ensures '/' !in Escape(t)
  {
    if t != "" {
      EscapeHasNoSlash(t[1..]);
    }
  }

  lemma UnescapeChar(c: char, s: string, t: string)
    requires Unescape(s) == Ok(t)
    ensures Unescape(EscapeChar(c) + s) == Ok([c] + t)
  {
    var e := EscapeChar(c) + s;
    if c == '~' || c == '/' {
      assert e[2..] == s;
    } else {
      assert e[1..] == s;
    }
  }

  lemma {:induction false} UnescapeEscape(t: string)
    ensures Unescape(Escape(t)) == Ok(t)
  {
    hide Unescape;
    if t == "" {
      UnescapeEmpty();
    } else {
      UnescapeEscape(t[1..]);
      UnescapeChar(t[0], Escape(t[1..]), t[1..]);
      assert t == [t[0]] + t[1..];
    }
  }

  lemma UnescapeEmpty()
    ensures Unescape("") == Ok("")
  {
  }

  lemma {:induction false} EscapeUnescape(s: string)
    requires Unescape(s).Ok? && '/' !in s
    ensures Escape(Unescape(s).value) == s
    decreases |s|
  {
    if s != "" {
      var rest := if s[0] == '~' then s[2..] else s[1..];
      EscapeUnescape(rest);
      var t := Unescape(s).value;
      assert t[1..] == Unescape(rest).value;
      if s[0] == '~' {
        assert s == [s[0], s[1]] + rest;
      } else {
        assert s == [s[0]] + rest;
      }
    }
  }

  /** A non-empty pointer is its escaped tokens joined behind an empty first part. */
  lemma {:induction false} FormatIsJoin(ts: seq<string>)
    requires ts != []
    ensures Format(ts) == JoinOn([""] + EscapeAll(ts), '/')
  {
    var es := EscapeAll(ts);
    assert ([""] + es)[1..] == es;
    FormatIsJoinTail(ts);
    assert "" + ['/'] + JoinOn(es, '/') == "/" + JoinOn(es, '/');
  }

  lemma {:induction false} FormatIsJoinTail(ts: seq<string>)
    requires ts != []
    ensures Format(ts) == "/" + JoinOn(EscapeAll(ts), '/')
  {
    hide Escape, JoinOn;
    var e, rest := Escape(ts[0]), EscapeAll(ts[1..]);
    if |ts| > 1 {
      FormatIsJoinTail(ts[1..]);
      JoinOnCons(e, rest, '/');
      Reassociate(e, JoinOn(rest, '/'));
    } else {
      assert ts[1..] == [] && EscapeAll(ts) == [e];
      JoinOnSingle(e, '/');
      SeqAssoc("/" + e, [], []);
    }
  }

  lemma Reassociate(e: string, j: string)
    ensures "/" + e + ("/" + j) == "/" + (e + ['/'] + j)
  {
  }

  lemma {:induction false} UnescapeEscapeAll(ts: seq<string>)
    ensures UnescapeAll(EscapeAll(ts)) == Ok(ts)
    ensures forall e :: e in EscapeAll(ts) ==> '/' !in e
  {
    if ts != [] {
      UnescapeEscapeAll(ts[1..]);
      UnescapeEscape(ts[0]);
      EscapeHasNoSlash(ts[0]);
      assert EscapeAll(ts)[1..] == EscapeAll(ts[1..]);
      assert [ts[0]] + ts[1..] == ts;
    }
  }

  lemma {:induction false} EscapeUnescapeAll(parts: seq<string>)
    requires UnescapeAll(parts).Ok? && forall p :: p in parts ==> '/' !in p
    ensures EscapeAll(UnescapeAll(parts).value) == parts
  {
    if parts != [] {
      EscapeUnescapeAll(parts[1..]);
      EscapeUnescape(parts[0]);
      var ts := UnescapeAll(parts).value;
      assert ts[1..] == UnescapeAll(parts[1..]).value;
      assert [parts[0]] + parts[1..] == parts;
    }
  }

  /** Formatting tokens and parsing the pointer gives the tokens back. */
  lemma ParseFormat(ts: seq<string>)
    ensures Parse(Format(ts)) == Ok(ts)
  {
    if ts != [] {
      var parts := [""] + EscapeAll(ts);
      UnescapeEscapeAll(ts);
      FormatIsJoin(ts);
      SplitOfJoin(parts, '/');
      assert parts[1..] == EscapeAll(ts);
    }
  }

  /** A pointer that parses is the canonical form of its tokens. */
  lemma FormatParse(p: string)
    requires Parse(p).Ok?
    ensures Format(Parse(p).value) == p
  {
    if p != "" {
      var parts := SplitOn(p, '/');
      JoinOfSplit(p, '/');
      SplitPieces(p, '/');
      EscapeUnescapeAll(parts[1..]);
      var ts := UnescapeAll(parts[1..]).value;
      assert parts == [""] + parts[1..];
      if ts != [] {
        FormatIsJoin(ts);
      }
    }
  }

  // ----- escaping as replacement -----

  /** Every `c` replaced by `to`. */
  function ReplaceChar(s: string, c: char, to: string): string {
    if s == "" then "" else (if s[0] == c then to else [s[0]]) + ReplaceChar(s[1..], c, to)
  }

  /** Every occurrence of two characters replaced by one, from left to right. */
  function ReplacePair(s: string, a: char, b: char, to: char): string
    decreases |s|
  {
    if s == "" then ""
    else if |s| > 1 && s[0] == a && s[1] == b then [to] + ReplacePair(s[2..], a, b, to)
    else [s[0]] + ReplacePair(s[1..], a, b, to)
  }

  /** Section 3 of RFC 6901: first "~" becomes "~0", then "/" becomes "~1". */
  lemma {:induction false} EscapeReplaces(t: string)
    ensures Escape(t) == ReplaceChar(ReplaceChar(t, '~', "~0"), '/', "~1")
  {
    if t != "" {
      EscapeReplaces(t[1..]);
      var rest := ReplaceChar(t[1..], '~', "~0");
      if t[0] == '~' {
        var s := "~0" + rest;
        assert s[1..] == "0" + rest && ("0" + rest)[1..] == rest;
        assert "~" + ("0" + ReplaceChar(rest, '/', "~1")) == "~0" + ReplaceChar(rest, '/', "~1");
      } else {
        assert ([t[0]] + rest)[1..] == rest;
      }
    }
  }

  lemma PairKept(c: char, s: string, a: char, b: char, to: char)
    requires c != a
    ensures ReplacePair([c] + s, a, b, to) == [c] + ReplacePair(s, a, b, to)
  {
    assert ([c] + s)[1..] == s;
  }

  lemma PairReplaced(s: string, a: char, b: char, to: char)
    ensures ReplacePair([a, b] + s, a, b, to) == [to] + ReplacePair(s, a, b, to)
  {
    assert ([a, b] + s)[2..] == s;
  }

  lemma OtherPairKept(s: string, a: char, x: char, b: char, to: char)
    requires x != b && x != a
    ensures ReplacePair([a, x] + s, a, b, to) == [a, x] + ReplacePair(s, a, b, to)
  {
    var all := [a, x] + s;
    assert all[1..] == [x] + s;
    PairKept(x, s, a, b, to);
    assert [a] + ([x] + ReplacePair(s, a, b, to)) == [a, x] + ReplacePair(s, a, b, to);
  }

  /** Section 4 of RFC 6901: a token that decodes has first "~1" turned into "/", then "~0" into "~". */
  lemma {:induction false} UnescapeReplaces(s: string)
    ensures Unescape(s).Ok? ==> Unescape(s).value == ReplacePair(ReplacePair(s, '~', '1', '/'), '~', '0', '~')
    ensures Unescape(s).Ok? <==> forall i :: 0 <= i < |s| && s[i] == '~' ==> i + 1 < |s| && (s[i+1] == '0' || s[i+1] == '1')
    decreases |s|
  {
    hide ReplacePair;
    if s == "" {
      NoPair('1', '/');
      NoPair('0', '~');
    } else if s[0] != '~' {
      var rest := s[1..];
      UnescapeReplaces(rest);
      assert s == [s[0]] + rest;
      PairKept(s[0], rest, '~', '1', '/');
      PairKept(s[0], ReplacePair(rest, '~', '1', '/'), '~', '0', '~');
      assert forall i :: 0 <= i < |rest| ==> rest[i] == s[i+1];
    } else if |s| > 1 && (s[1] == '0' || s[1] == '1') {
      var rest := s[2..];
      UnescapeReplaces(rest);
      assert s == [s[0], s[1]] + rest;
      assert forall i :: 0 <= i < |rest| ==> rest[i] == s[i+2];
      assert forall i :: 2 <= i < |s| ==> s[i] == rest[i-2];
      if s[1] == '1' {
        PairReplaced(rest, '~', '1', '/');
        PairKept('/', ReplacePair(rest, '~', '1', '/'), '~', '0', '~');
      } else {
        OtherPairKept(rest, '~', '0', '1', '/');
        PairReplaced(ReplacePair(rest, '~', '1', '/'), '~', '0', '~');
      }
    }
  }

  lemma NoPair(b: char, to: char)
    ensures ReplacePair("", '~', b, to) == ""
  {
  }
}
