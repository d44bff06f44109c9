/** Version files: their names and their lines of the form package==version. */
module VersionFiles {
  import opened Texts
  import opened Dicts

  const ALL := "all"

  // ----- file names -----

  function FileName(ctype: string, dist: string, arch: string): string {
    if arch != ALL then "versions-" + ctype + "-" + dist + "-" + arch
    else if dist != ALL then "versions-" + ctype + "-" + dist
    else "versions-" + ctype
  }

  /** The parts a file name gives; a missing distribution or architecture means all. */
  function ReadName(name: string): Option<(string, string, string)> {
    var items := SplitOn(name, '-');
    if |items| < 2 then None
    else
      var dist := if |items| > 2 && items[2] != "" then items[2] else ALL;
      var arch := if |items| > 3 && items[3] != "" then items[3] else ALL;
      Some((items[1], dist, arch))
  }

  lemma SplitStep(c: char, s: string)
    ensures var r := SplitOn(s, '-');
            SplitOn([c] + s, '-') == if c == '-' then [""] + r else [[c] + r[0]] + r[1..]
  {
    assert ([c] + s)[1..] == s;
  }

  lemma {:induction false} SplitHead(t: string, s: string)
    ensures SplitOn(t + ("-" + s), '-') == SplitOn(t, '-') + SplitOn(s, '-')
  {
    hide SplitOn;
    var tail := "-" + s;
    var after := SplitOn(s, '-');
    if t == "" {
      assert t + tail == ['-'] + s;
      SplitStep('-', s);
      SplitWhole("", '-');
    } else {
      var c, rest := t[0], t[1..];
      SplitHead(rest, s);
      assert t + tail == [c] + (rest + tail) && t == [c] + rest;
      SplitStep(c, rest + tail);
      SplitStep(c, rest);
      var r := SplitOn(rest, '-');
      assert (r + after)[1..] == r[1..] + after;
      SeqAssoc([""], r, after);
      SeqAssoc([[c] + r[0]], r[1..], after);
    }
  }

  /** A text is its own first piece exactly when it holds no separator. */
  lemma FirstPieceIff(t: string)
    ensures SplitOn(t, '-')[0] == t <==> '-' !in t
  {
    SplitPieces(t, '-');
    if '-' !in t {
      SplitWhole(t, '-');
    }
  }

  lemma NamePieces(ctype: string, rest: string)
    ensures SplitOn("versions-" + ctype, '-') == ["versions"] + SplitOn(ctype, '-')
    ensures SplitOn("versions-" + ctype + "-" + rest, '-') == ["versions"] + SplitOn(ctype, '-') + SplitOn(rest, '-')
  {
    hide SplitOn;
    SplitWhole("versions", '-');
    SplitHead("versions", ctype);
    assert "versions" + ("-" + ctype) == "versions-" + ctype;
    SplitHead("versions-" + ctype, rest);
    assert "versions-" + ctype + ("-" + rest) == "versions-" + ctype + "-" + rest;
  }

  /** A component's file name gives back its type, distribution and architecture exactly when none holds a dash. */
  lemma FileNameTripIff(ctype: string, dist: string, arch: string)
    requires dist != "" && arch != ""
    ensures ReadName(FileName(ctype, dist, arch)) == Some((ctype, dist, arch)) <==>
            '-' !in ctype && '-' !in dist && '-' !in arch
  {
    hide SplitOn;
    FirstPieceIff(ctype);
    FirstPieceIff(dist);
    FirstPieceIff(arch);
    Single(ctype);
    Single(dist);
    Single(arch);
    assert '-' !in ALL;
    if arch != ALL {
      NamePieces(ctype, dist + "-" + arch);
      SplitHead(dist, arch);
      assert dist + ("-" + arch) == dist + "-" + arch;
      assert "versions-" + ctype + "-" + dist + "-" + arch == "versions-" + ctype + "-" + (dist + "-" + arch);
    } else {
      NamePieces(ctype, dist);
    }
  }

  /** A file name in normal form: no empty part behind the type, and no `all` at the end that could be left out. */
  predicate NormalName(name: string) {
    var items := SplitOn(name, '-');
    && 2 <= |items| <= 4 && items[0] == "versions"
    && (forall i :: 2 <= i < |items| ==> items[i] != "")
    && (|items| > 2 ==> items[|items|-1] != ALL)
  }

  /** Each type, distribution and architecture has exactly one file name in normal form, and it is the one written. */
  lemma FileNameIff(name: string, ctype: string, dist: string, arch: string)
    requires dist != "" && arch != "" && '-' !in ctype && '-' !in dist && '-' !in arch
    ensures NormalName(name) && ReadName(name) == Some((ctype, dist, arch)) <==> name == FileName(ctype, dist, arch)
  {
    hide SplitOn, JoinOn;
    var parts := ["versions", ctype] + (if arch != ALL then [dist, arch] else if dist != ALL then [dist] else []);
    FileNameParts(ctype, dist, arch);
    FileNameTripIff(ctype, dist, arch);
    JoinOfSplit(name, '-');
    JoinOfSplit(FileName(ctype, dist, arch), '-');
    if NormalName(name) && ReadName(name) == Some((ctype, dist, arch)) {
      assert SplitOn(name, '-') == parts;
    }
  }

  lemma FileNameParts(ctype: string, dist: string, arch: string)
    requires '-' !in ctype && '-' !in dist && '-' !in arch
    ensures SplitOn(FileName(ctype, dist, arch), '-') ==
            ["versions", ctype] + (if arch != ALL then [dist, arch] else if dist != ALL then [dist] else [])
  {
    hide SplitOn;
    Single(ctype);
    Single(dist);
    Single(arch);
    if arch != ALL {
      NamePieces(ctype, dist + "-" + arch);
      SplitHead(dist, arch);
      assert dist + ("-" + arch) == dist + "-" + arch;
      assert "versions-" + ctype + "-" + dist + "-" + arch == "versions-" + ctype + "-" + (dist + "-" + arch);
    } else {
      NamePieces(ctype, dist);
    }
  }

  /** What comes behind the architecture in a name is ignored, and a name without a dash is none. */
  lemma ReadNameIgnores(name: string, more: string)
    requires |SplitOn(name, '-')| >= 4
    ensures ReadName(name + "-" + more) == ReadName(name)
  {
    hide SplitOn;
    SplitHead(name, more);
    assert name + ("-" + more) == name + "-" + more;
  }

  lemma NoDashNoName(name: string)
    ensures ReadName(name) == None <==> '-' !in name
  {
    hide SplitOn;
    FirstPieceIff(name);
    Single(name);
    JoinOfSplit(name, '-');
    if |SplitOn(name, '-')| == 1 {
      JoinOnSingle(SplitOn(name, '-')[0], '-');
      assert SplitOn(name, '-') == [SplitOn(name, '-')[0]];
    }
  }

  lemma Single(t: string)
    ensures '-' !in t ==> SplitOn(t, '-') == [t]
  {
    if '-' !in t {
      SplitWhole(t, '-');
    }
  }

  // ----- lines -----

  function Line(e: (string, string)): string {
    e.0 + "==" + e.1
  }

  predicate EqualsAt(s: string, i: nat) {
    i + 1 < |s| && s[i] == '=' && s[i+1] == '='
  }

  /** The last place of "==", or none. */
  function LastEquals(s: string, n: nat): (r: Option<nat>)
    requires n <= |s|
    ensures r.Some? ==> r.value < n && EqualsAt(s, r.value)
    ensures forall j :: 0 <= j < n && EqualsAt(s, j) ==> r.Some? && j <= r.value
  {
    if n == 0 then None else if EqualsAt(s, n - 1) then Some(n - 1) else LastEquals(s, n - 1)
  }

  /** A line's package and version; Python packages are read in lower case. */
  function ReadLine(python: bool, line: string): Option<(string, string)> {
    match LastEquals(line, |line|)
    case None => None
    case Some(i) =>
      if i == 0 then None
      else
        var package := Strip(line[..i]);
        Some((if python then Lower(package) else package, Strip(line[i+2..])))
  }

  /** No "==" anywhere. */
  predicate NoEquals(s: string) {
    forall j :: 0 <= j < |s| ==> !EqualsAt(s, j)
  }

  predicate StartsEqual(s: string) {
    s != "" && s[0] == '='
  }

  predicate IsBreak(c: char) {
    c == '\n' || c == '\r'
  }

  predicate OneLine(s: string) {
    forall c :: c in s ==> !IsBreak(c)
  }

  /** A pin that can be written to a version file and read again. */
  predicate PinOk(python: bool, e: (string, string)) {
    && e.0 != "" && Trimmed(e.0) && OneLine(e.0) && (python ==> Lower(e.0) == e.0)
    && Trimmed(e.1) && OneLine(e.1) && NoEquals(e.1) && !StartsEqual(e.1)
  }

  lemma {:induction false} StripLeftSlice(s: string)
    ensures StripLeft(s) == s[|s| - |StripLeft(s)|..]
  {
    if s != "" && IsSpace(s[0]) {
      StripLeftSlice(s[1..]);
    }
  }

  /** Stripping keeps a stretch of the text. */
  lemma StripSlice(s: string) returns (k: nat)
    ensures k + |Strip(s)| <= |s| && s[k..k + |Strip(s)|] == Strip(s)
  {
    hide StripLeft, StripRight;
    var t := StripLeft(s);
    StripLeftSlice(s);
    StripRightTrims(t);
    k := |s| - |t|;
    assert s[k..k + |Strip(s)|] == t[..|Strip(s)|];
  }

  lemma SliceNoEquals(s: string, k: nat, n: nat)
    requires k + n <= |s| && NoEquals(s)
    ensures NoEquals(s[k..k + n])
  {
    var t := s[k..k + n];
    forall j | 0 <= j < |t|
      ensures !EqualsAt(t, j)
    {
      assert EqualsAt(t, j) ==> EqualsAt(s, k + j);
    }
  }

  /** After the last "==" there is none. */
  lemma AfterLast(line: string, i: nat)
    requires LastEquals(line, |line|) == Some(i)
    ensures i + 2 <= |line| && NoEquals(line[i+2..])
  {
    var rest := line[i+2..];
    forall j | 0 <= j < |rest|
      ensures !EqualsAt(rest, j)
    {
      assert EqualsAt(rest, j) ==> EqualsAt(line, i + 2 + j);
    }
  }

  lemma LowerTexts(s: string)
    ensures Lower(Lower(s)) == Lower(s)
    ensures OneLine(s) ==> OneLine(Lower(s))
    ensures Trimmed(s) ==> Trimmed(Lower(s))
  {
    assert forall i :: 0 <= i < |s| ==> Lower(s)[i] == LowerChar(s[i]);
    forall c | c in Lower(s) && OneLine(s)
      ensures !IsBreak(c)
    {
      var i :| 0 <= i < |s| && Lower(s)[i] == c;
      assert s[i] in s;
    }
  }

  /** What a line gives: a package and a version without outer blanks, and no "==" in the version. */
  lemma ReadLineShape(python: bool, line: string)
    requires ReadLine(python, line).Some?
    ensures var e := ReadLine(python, line).value;
            && Trimmed(e.0) && (python ==> Lower(e.0) == e.0) && Trimmed(e.1) && NoEquals(e.1)
            && (OneLine(line) ==> OneLine(e.0) && OneLine(e.1))
  {
    hide LastEquals, Strip, Trimmed, NoEquals, Lower;
    var i := LastEquals(line, |line|).value;
    AfterLast(line, i);
    var rest := line[i+2..];
    StripTrims(line[..i]);
    StripTrims(rest);
    LowerTexts(Strip(line[..i]));
    var k := StripSlice(rest);
    SliceNoEquals(rest, k, |Strip(rest)|);
  }

  /** Where a written line is cut. */
  lemma LineCut(e: (string, string))
    requires NoEquals(e.1)
    ensures LastEquals(Line(e), |Line(e)|) == Some(if StartsEqual(e.1) then |e.0| + 1 else |e.0|)
  {
    var line, n := Line(e), |e.0|;
    assert line[n] == '=' && line[n+1] == '=' && EqualsAt(line, n);
    assert line[n+2..] == e.1;
    if StartsEqual(e.1) {
      assert line[n+2] == '=' && EqualsAt(line, n + 1);
    }
    forall j | n + 2 <= j < |line|
      ensures !EqualsAt(line, j)
    {
      assert EqualsAt(line, j) ==> EqualsAt(e.1, j - n - 2);
    }
    assert !StartsEqual(e.1) ==> !EqualsAt(line, n + 1);
  }

  /** A written line is read back unchanged when the version does not begin with an equals sign. */
  lemma LineBack(python: bool, e: (string, string))
    requires Trimmed(e.0) && Trimmed(e.1) && NoEquals(e.1) && !StartsEqual(e.1) && (python ==> Lower(e.0) == e.0)
    ensures ReadLine(python, Line(e)) == if e.0 == "" then None else Some(e)
  {
    hide LastEquals, Strip, Trimmed, NoEquals, Lower;
    LineCut(e);
    var line, n := Line(e), |e.0|;
    assert line[..n] == e.0 && line[n+2..] == e.1;
    StripTrimmed(e.0);
    StripTrimmed(e.1);
  }

  /** A line whose version begins with an equals sign gives a shorter version. */
  lemma LineShortens(python: bool, e: (string, string))
    requires NoEquals(e.1) && StartsEqual(e.1)
    ensures ReadLine(python, Line(e)).Some? && |ReadLine(python, Line(e)).value.1| < |e.1|
  {
    hide LastEquals, Strip, NoEquals, Lower;
    LineCut(e);
    var line, n := Line(e), |e.0| + 1;
    assert line[n+2..] == e.1[1..];
    var _ := StripSlice(e.1[1..]);
  }

  // ----- files -----

  function Lines(es: seq<(string, string)>): (r: seq<string>)
    ensures |r| == |es|
  {
    if es == [] then [] else [Line(es[0])] + Lines(es[1..])
  }

  /** The text of a version file, for the pins in the order given. */
  function Dump(es: seq<(string, string)>): string {
    JoinOn(Lines(es), '\n') + "\n"
  }

  /** Every kind of line end becomes a newline. */
  function Unified(s: string): (r: string)
    ensures |r| == |s| && forall i :: 0 <= i < |s| ==> r[i] == if s[i] == '\r' then '\n' else s[i]
  {
    seq(|s|, i requires 0 <= i < |s| => if s[i] == '\r' then '\n' else s[i])
  }

  function Reads(python: bool, lines: seq<string>): seq<(string, string)> {
    if lines == [] then []
    else
      match ReadLine(python, lines[0])
      case None => Reads(python, lines[1..])
      case Some(e) => [e] + Reads(python, lines[1..])
  }

  /** The pins of a version file. */
  method GetVersions(python: bool, text: string) returns (result: map<string, string>)
    ensures result == ReadFile(python, text)
  {
    hide ReadLine, MapOf;
    var lines := SplitOn(Unified(text), '\n');
    result := map[];
    assert lines[0..] == lines;
    assert map[] + MapOf(Reads(python, lines)) == MapOf(Reads(python, lines));
    for i := 0 to |lines|
      invariant result + MapOf(Reads(python, lines[i..])) == MapOf(Reads(python, lines))
    {
      assert lines[i..][0] == lines[i] && lines[i..][1..] == lines[i+1..];
      match ReadLine(python, lines[i]) {
        case None =>
        case Some(e) =>
          MapStep(result, e, Reads(python, lines[i+1..]));
          result := result[e.0 := e.1];
      }
    }
    MapEnd(result);
  }

  lemma MapStep(m: map<string, string>, e: (string, string), rest: seq<(string, string)>)
    ensures m + MapOf([e] + rest) == m[e.0 := e.1] + MapOf(rest)
  {
    assert ([e] + rest)[1..] == rest;
  }

  lemma MapEnd(m: map<string, string>)
    ensures m + MapOf([]) == m
  {
  }

  function ReadFile(python: bool, text: string): map<string, string> {
    MapOf(Reads(python, SplitOn(Unified(text), '\n')))
  }

  lemma {:induction false} ReadsFrom(python: bool, lines: seq<string>, e: (string, string))
    requires e in Reads(python, lines)
    ensures exists line :: line in lines && ReadLine(python, line) == Some(e)
  {
    hide ReadLine;
    if ReadLine(python, lines[0]) == Some(e) {
      assert lines[0] in lines;
    } else {
      ReadsFrom(python, lines[1..], e);
      var line :| line in lines[1..] && ReadLine(python, line) == Some(e);
      assert line in lines;
    }
  }

  lemma SplitOneLine(text: string)
    ensures forall line :: line in SplitOn(Unified(text), '\n') ==> OneLine(line)
  {
    hide SplitOn;
    SplitPieces(Unified(text), '\n');
    forall line, c | line in SplitOn(Unified(text), '\n') && c in line
      ensures !IsBreak(c)
    {
      PieceChars(Unified(text), '\n', line, c);
      var i :| 0 <= i < |text| && Unified(text)[i] == c;
    }
  }

  lemma {:induction false} PieceChars(s: string, sep: char, piece: string, c: char)
    requires piece in SplitOn(s, sep) && c in piece
    ensures c in s
  {
    if s != "" {
      var r := SplitOn(s[1..], sep);
      if piece in r {
        PieceChars(s[1..], sep, piece, c);
      } else if s[0] != sep {
        assert piece == [s[0]] + r[0];
        if c in r[0] {
          PieceChars(s[1..], sep, r[0], c);
        }
      }
    }
  }

  lemma UnifiedSame(s: string)
    requires '\r' !in s
    ensures Unified(s) == s
  {
  }

  /** A file of one-line pins is split back into the lines written, and an empty one. */
  lemma DumpLines(es: seq<(string, string)>)
    requires es != [] && forall e :: e in es ==> OneLine(e.0) && OneLine(e.1)
    ensures SplitOn(Unified(Dump(es)), '\n') == Lines(es) + [""]
  {
    hide SplitOn, JoinOn, OneLine, Lines;
    var lines := Lines(es);
    LinesOneLine(es);
    JoinHasNo(lines, '\n', '\r');
    UnifiedSame(Dump(es));
    var all := lines + [""];
    JoinSnoc(lines);
    SplitOfJoin(all, '\n');
  }

  lemma {:induction false} LinesOneLine(es: seq<(string, string)>)
    requires forall e :: e in es ==> OneLine(e.0) && OneLine(e.1)
    ensures forall line :: line in Lines(es) ==> '\n' !in line && '\r' !in line
  {
    if es != [] {
      assert es[0] in es;
      LinesOneLine(es[1..]);
      LineOneLine(es[0]);
    }
  }

  lemma LineOneLine(e: (string, string))
    requires OneLine(e.0) && OneLine(e.1)
    ensures '\n' !in Line(e) && '\r' !in Line(e)
  {
    assert forall c :: c in Line(e) ==> c in e.0 || c == '=' || c in e.1;
  }

  lemma {:induction false} JoinSnoc(ts: seq<string>)
    requires ts != []
    ensures JoinOn(ts + [""], '\n') == JoinOn(ts, '\n') + "\n"
  {
    if |ts| == 1 {
      assert (ts + [""])[1..] == [""];
      assert JoinOn([""], '\n') == "";
    } else {
      JoinSnoc(ts[1..]);
      assert (ts + [""])[1..] == ts[1..] + [""];
    }
  }

  // ----- the round trip -----

  /** What the written pins are read as, one by one. */
  function Outputs(python: bool, es: seq<(string, string)>): seq<(string, string)> {
    Reads(python, Lines(es))
  }

  lemma {:induction false} ReadsAppend(python: bool, a: seq<string>, b: seq<string>)
    ensures Reads(python, a + b) == Reads(python, a) + Reads(python, b)
  {
    hide ReadLine;
    if a == [] {
      assert a + b == b;
    } else {
      ReadsAppend(python, a[1..], b);
      assert (a + b)[0] == a[0] && (a + b)[1..] == a[1..] + b;
      match ReadLine(python, a[0])
      case None =>
      case Some(e) => SeqAssoc([e], Reads(python, a[1..]), Reads(python, b));
    }
  }

  lemma FileIsOutputs(python: bool, es: seq<(string, string)>)
    requires forall e :: e in es ==> OneLine(e.0) && OneLine(e.1)
    ensures ReadFile(python, Dump(es)) == MapOf(Outputs(python, es))
  {
    hide SplitOn, OneLine, Lines, MapOf;
    if es == [] {
      EmptyFile(python);
    } else {
      DumpLines(es);
      ReadsAppend(python, Lines(es), [""]);
      BlankLine(python);
      SeqAssoc(Outputs(python, es), [], []);
    }
  }

  lemma EmptyFile(python: bool)
    ensures SplitOn(Unified(Dump([])), '\n') == [""] + [""] && Reads(python, [""] + [""]) == [] && Lines([]) == []
  {
    assert Dump([]) == "\n" && Unified("\n") == "\n";
    SplitFirst("", "", '\n');
    assert "" + ['\n'] + "" == "\n";
    assert ([""] + [""])[1..] == [""];
    BlankLine(python);
  }

  lemma BlankLine(python: bool)
    ensures Reads(python, [""]) == []
  {
    assert [""][1..] == [];
  }

  lemma {:induction false} OutputsFixed(python: bool, es: seq<(string, string)>)
    requires forall e :: e in es ==> ReadLine(python, Line(e)) == Some(e)
    ensures Outputs(python, es) == es
  {
    hide ReadLine, Line;
    if es != [] {
      assert es[0] in es;
      OutputsFixed(python, es[1..]);
      assert es == [es[0]] + es[1..];
      assert Lines(es)[0] == Line(es[0]) && Lines(es)[1..] == Lines(es[1..]);
    }
  }

  lemma {:induction false} OutputsFrom(python: bool, es: seq<(string, string)>, e: (string, string))
    requires e in Outputs(python, es)
    ensures exists f :: f in es && ReadLine(python, Line(f)) == Some(e)
  {
    hide ReadLine, Line;
    assert Lines(es)[0] == Line(es[0]) && Lines(es)[1..] == Lines(es[1..]);
    if ReadLine(python, Line(es[0])) == Some(e) {
      assert es[0] in es;
    } else {
      OutputsFrom(python, es[1..], e);
      var f :| f in es[1..] && ReadLine(python, Line(f)) == Some(e);
      assert f in es;
    }
  }

  /** Pins a file can have been read from, all of them images of one another. */
  predicate Rebuilt(python: bool, es: seq<(string, string)>) {
    forall e :: e in es ==> ReadPin(python, e) && exists f :: f in es && ReadLine(python, Line(f)) == Some(e)
  }

  predicate ReadPin(python: bool, e: (string, string)) {
    Trimmed(e.0) && (python ==> Lower(e.0) == e.0) && Trimmed(e.1) && NoEquals(e.1) && OneLine(e.0) && OneLine(e.1)
  }

  /** No version begins with an equals sign: it would come from a longer version that does, without end. */
  lemma {:induction false} NoneStartsEqual(python: bool, es: seq<(string, string)>, n: nat, e: (string, string))
    requires Rebuilt(python, es) && e in es && (forall f :: f in es ==> |f.1| <= n)
    ensures !StartsEqual(e.1)
    decreases n - |e.1|
  {
    hide ReadLine, Line, Trimmed, NoEquals, OneLine, Lower;
    if StartsEqual(e.1) {
      var f :| f in es && ReadLine(python, Line(f)) == Some(e);
      if StartsEqual(f.1) {
        LineShortens(python, f);
        NoneStartsEqual(python, es, n, f);
      } else {
        LineBack(python, f);
      }
      assert false;
    }
  }

  lemma {:induction false} Longest(es: seq<(string, string)>) returns (n: nat)
    ensures forall f :: f in es ==> |f.1| <= n
  {
    if es == [] {
      n := 0;
    } else {
      n := Longest(es[1..]);
      if n < |es[0].1| {
        n := |es[0].1|;
      }
      assert es == [es[0]] + es[1..];
    }
  }

  lemma RebuiltOk(python: bool, es: seq<(string, string)>, e: (string, string))
    requires Rebuilt(python, es) && e in es
    ensures PinOk(python, e)
  {
    hide ReadLine, Line, Trimmed, NoEquals, OneLine, Lower;
    var n := Longest(es);
    NoneStartsEqual(python, es, n, e);
    var f :| f in es && ReadLine(python, Line(f)) == Some(e);
    NoneStartsEqual(python, es, n, f);
    LineBack(python, f);
  }

  /**
   Writing pins to a file and reading the file gives the same pins exactly when each has a
   non-empty name without outer blanks, a version without outer blanks that neither begins
   with "=" nor holds "==", no line breaks, and, in Python files, a lower-case name.
   */
  lemma FileTripIff(python: bool, es: seq<(string, string)>)
    requires Distinct(es)
    ensures ReadFile(python, Dump(es)) == MapOf(es) <==> forall e :: e in es ==> PinOk(python, e)
  {
    hide ReadFile, Dump, MapOf, ReadLine, Line, Trimmed, NoEquals, OneLine, Lower, StartsEqual, Distinct, Outputs;
    if forall e :: e in es ==> PinOk(python, e) {
      FileIsOutputs(python, es);
      forall e | e in es
        ensures ReadLine(python, Line(e)) == Some(e)
      {
        LineBack(python, e);
      }
      OutputsFixed(python, es);
    }
    if ReadFile(python, Dump(es)) == MapOf(es) {
      forall e | e in es
        ensures ReadPin(python, e)
      {
        MapOfHas(es, e);
        FromFile(python, Dump(es), e);
      }
      FileIsOutputs(python, es);
      forall e | e in es
        ensures exists f :: f in es && ReadLine(python, Line(f)) == Some(e)
      {
        MapOfHas(es, e);
        MapOfFrom(Outputs(python, es), e.0);
        OutputsFrom(python, es, e);
      }
      forall e | e in es
        ensures PinOk(python, e)
      {
        RebuiltOk(python, es, e);
      }
    }
  }

  /** What is read from a file is in the form of a read pin. */
  lemma FromFile(python: bool, text: string, e: (string, string))
    requires e.0 in ReadFile(python, text) && ReadFile(python, text)[e.0] == e.1
    ensures ReadPin(python, e)
  {
    hide SplitOn, MapOf, ReadLine, Trimmed, NoEquals, OneLine, Lower, Unified;
    var lines := SplitOn(Unified(text), '\n');
    MapOfFrom(Reads(python, lines), e.0);
    ReadsFrom(python, lines, e);
    var line :| line in lines && ReadLine(python, line) == Some(e);
    SplitOneLine(text);
    ReadLineShape(python, line);
  }
}
