/**
 Leaf values on their way from ConfigDB into a YANG data tree and back.
 */
module YangValues {
  import opened Texts
  import opened Decimals
  import opened Dicts
  import opened YangSchema

  /** A ConfigDB value as it is read: a dictionary is the sequence of its items in insertion order. */
  datatype Value = Str(text: string) | Lst(items: seq<string>) | Obj(fields: seq<(string, Value)>)

  /** A ConfigDB value as it is rebuilt: the order in which a dictionary was filled does not matter. */
  datatype Config = CStr(text: string) | CLst(items: seq<string>) | CObj(fields: map<string, Config>)

  /** A JSON scalar of the data tree. */
  datatype Scalar = Text(text: string) | Num(n: int) | Flag(on: bool)

  datatype Data =
    | One(scalar: Scalar)
    | Many(scalars: seq<Scalar>)
    | Entries(entries: seq<seq<(string, Data)>>)
    | Node(fields: seq<(string, Data)>)

  /** The table being translated, and Python's text for a list or dictionary. */
  datatype Env = Env(table: string, show: Value -> string)

  /** A character that no number or boolean is printed with. */
  predicate Separates(c: char) {
    !IsDigit(c) && c !in "-.TrueFals"
  }

  /** Fields that are leaf-lists in the schema but one separated string in ConfigDB. */
  function Separator(table: string, field: string): (r: Option<char>)
    ensures r.Some? ==> Separates(r.value)
  {
    if (table, field) == ("NTP", "src_intf") then Some(';')
    else if (table, field) in {
      ("MIRROR_SESSION", "src_ip"),
      ("BGP_ALLOWED_PREFIXES", "prefixes_v4"),
      ("BGP_ALLOWED_PREFIXES", "prefixes_v6"),
      ("BUFFER_PORT_EGRESS_PROFILE_LIST", "profile_list"),
      ("BUFFER_PORT_INGRESS_PROFILE_LIST", "profile_list"),
      ("PORT", "adv_speeds"),
      ("PORT", "adv_interface_types")} then Some(',')
    else None
  }

  // ----- into the data tree -----

  function Convert(base: Base, s: string): Result<Scalar> {
    if base.Uint? then
      var n :- ReadInt(s);
      Ok(Num(n))
    else Ok(Text(s))
  }

  function ConvertAll(base: Base, ss: seq<string>): (r: Result<seq<Scalar>>)
    ensures r.Ok? ==> |r.value| == |ss|
  {
    if ss == [] then Ok([])
    else
      var x :- Convert(base, ss[0]);
      var rest :- ConvertAll(base, ss[1..]);
      Ok([x] + rest)
  }

  function Characters(s: string): seq<string> {
    seq(|s|, i requires 0 <= i < |s| => [s[i]])
  }

  function Names<V>(items: seq<(string, V)>): (r: seq<string>)
    ensures |r| == |items|
    ensures forall i :: 0 <= i < |items| ==> r[i] == items[i].0
  {
    seq(|items|, i requires 0 <= i < |items| => items[i].0)
  }

  /** What iterating over a leaf-list's value yields: a plain string falls into characters, a dictionary into names. */
  function ListItems(env: Env, leaf: Leaf, v: Value): seq<string> {
    match v
    case Str(s) =>
      (match Separator(env.table, leaf.name)
       case Some(c) => StripAll(SplitOn(s, c))
       case None => Characters(s))
    case Lst(items) => items
    case Obj(fields) => Names(fields)
  }

  /** The empty string stands for "no element" unless the schema gives a default. */
  predicate IsElement(leaf: Leaf, s: string) {
    s != "" || leaf.hasDefault
  }

  function Kept(leaf: Leaf, ss: seq<string>): (r: seq<string>)
    ensures |r| <= |ss|
    ensures forall s :: s in r ==> s in ss && IsElement(leaf, s)
  {
    if ss == [] then []
    else if IsElement(leaf, ss[0]) then [ss[0]] + Kept(leaf, ss[1..])
    else Kept(leaf, ss[1..])
  }

  function AsText(env: Env, v: Value): string {
    if v.Str? then v.text else env.show(v)
  }

  function ToData(env: Env, leaf: Leaf, v: Value): Result<Data> {
    if leaf.isList then
      var xs :- ConvertAll(leaf.base, Kept(leaf, ListItems(env, leaf, v)));
      if xs == [] && leaf.hasDefault then Err else Ok(Many(xs))
    else
      var x :- Convert(leaf.base, AsText(env, v));
      Ok(One(x))
  }

  // ----- through the data tree -----

  /** An integer, given as a JSON number or as text. */
  function Numeric(x: Scalar): Result<int> {
    if x.Num? then Ok(x.n) else if x.Text? && IsInteger(x.text) then Ok(Integer(x.text)) else Err
  }

  /**
   How the YANG library prints back what it was given, by sections 6.1 and 6.3 of RFC 7951:
   64-bit numbers and decimals become strings, other numbers JSON numbers, booleans JSON
   booleans, and every number is in its canonical form.
   */
  function Printed(base: Base, x: Scalar): Result<Scalar> {
    match base
    case Uint(wide) =>
      var n :- Numeric(x);
      if n < 0 then Err else Ok(if wide then Text(PrintInt(n)) else Num(n))
    case Int(wide) =>
      var n :- Numeric(x);
      Ok(if wide then Text(PrintInt(n)) else Num(n))
    case Decimal64 =>
      if x.Text? && IsReal(x.text) then Ok(Text(PrintReal(x.text))) else Err
    case Bool =>
      if x == Text("true") then Ok(Flag(true)) else if x == Text("false") then Ok(Flag(false)) else Err
    case Plain =>
      if x.Text? then Ok(x) else Err
  }

  function PrintedAll(base: Base, xs: seq<Scalar>): (r: Result<seq<Scalar>>)
    ensures r.Ok? ==> |r.value| == |xs|
  {
    if xs == [] then Ok([])
    else
      var x :- Printed(base, xs[0]);
      var rest :- PrintedAll(base, xs[1..]);
      Ok([x] + rest)
  }

  /** An empty leaf-list leaves no trace in the data tree. */
  function PrintedValue(leaf: Leaf, d: Data): Result<Option<Data>> {
    if leaf.isList && d.Many? then
      var xs :- PrintedAll(leaf.base, d.scalars);
      Ok(if xs == [] then None else Some(Many(xs)))
    else if !leaf.isList && d.One? then
      var x :- Printed(leaf.base, d.scalar);
      Ok(Some(One(x)))
    else Err
  }

  // ----- back to ConfigDB -----

  /** Python's str. */
  function PyStr(x: Scalar): string {
    match x
    case Text(s) => s
    case Num(n) => PrintInt(n)
    case Flag(on) => if on then "True" else "False"
  }

  predicate Truthy(x: Scalar) {
    match x
    case Text(s) => s != ""
    case Num(n) => n != 0
    case Flag(on) => on
  }

  function PyStrs(xs: seq<Scalar>): (r: seq<string>)
    ensures |r| == |xs|
  {
    if xs == [] then [] else [PyStr(xs[0])] + PyStrs(xs[1..])
  }

  function FromData(env: Env, leaf: Leaf, d: Data): Result<Config> {
    if leaf.isList && d.Many? then
      Ok(match Separator(env.table, leaf.name)
         case Some(c) => CStr(JoinOn(PyStrs(d.scalars), c))
         case None => CLst(PyStrs(d.scalars)))
    else if !leaf.isList && d.One? then
      Ok(CStr(if leaf.base.Bool? then (if Truthy(d.scalar) then "true" else "false") else PyStr(d.scalar)))
    else Err
  }

  // ----- the round trip of one scalar -----

  function Through(base: Base, s: string): Result<string> {
    var x :- Convert(base, s);
    var y :- Printed(base, x);
    Ok(PyStr(y))
  }

  function ThroughAll(base: Base, ss: seq<string>): (r: Result<seq<string>>)
    ensures r.Ok? ==> |r.value| == |ss|
  {
    if ss == [] then Ok([])
    else
      var t :- Through(base, ss[0]);
      var rest :- ThroughAll(base, ss[1..]);
      Ok([t] + rest)
  }

  predicate Fixed(base: Base, s: string) {
    match base
    case Uint(_) => Canonical(s)
    case Int(_) => CanonicalInt(s)
    case Decimal64 => CanonicalReal(s)
    case Bool => false
    case Plain => true
  }

  predicate IsNumber(base: Base) {
    base.Uint? || base.Int? || base.Decimal64?
  }

  /** A text given to the library comes back unchanged exactly when it is canonical for its type. */
  lemma SentIff(base: Base, s: string)
    ensures (Printed(base, Text(s)).Ok? && PyStr(Printed(base, Text(s)).value) == s) <==> Fixed(base, s)
  {
    hide Canonical, CanonicalInt, CanonicalReal, IsInteger, IsReal, Integer, PrintInt, PrintReal;
    if Fixed(base, s) {
      CanonicalSent(base, s);
    } else if Printed(base, Text(s)).Ok? {
      PrintedShape(base, Text(s));
    }
  }

  lemma CanonicalSent(base: Base, s: string)
    requires Fixed(base, s)
    ensures Printed(base, Text(s)).Ok? && PyStr(Printed(base, Text(s)).value) == s
  {
    hide Canonical, CanonicalReal, IsReal, PrintInt, PrintReal;
    match base
    case Uint(_) =>
      CanonicalDigits(s);
      CanonicalIntFixed(s);
    case Int(_) => CanonicalIntFixed(s);
    case Decimal64 => CanonicalRealFixed(s);
    case _ =>
  }

  /** What the library prints is canonical, the text itself, or Python's spelling of a boolean. */
  lemma PrintedShape(base: Base, x: Scalar)
    requires Printed(base, x).Ok?
    ensures var t := PyStr(Printed(base, x).value);
            && (if base.Bool? then t == "True" || t == "False" else Fixed(base, t))
            && (base.Plain? ==> x == Text(t))
  {
    hide Canonical, CanonicalReal, IsInteger, IsReal, Integer, PrintInt, PrintReal;
    match base
    case Uint(_) => PrintNatCanonical(Numeric(x).value);
    case Int(_) => PrintIntCanonical(Numeric(x).value);
    case Decimal64 => PrintRealCanonical(x.text);
    case _ =>
  }

  /** A scalar comes back unchanged exactly when it is canonical for its type. */
  lemma ThroughIff(base: Base, s: string)
    ensures Through(base, s) == Ok(s) <==> Fixed(base, s)
  {
    hide ReadInt, PrintInt, Integer, Number, Fixed, Printed;
    if base.Uint? {
      if Fixed(base, s) {
        NumeralRead(base, s);
      } else if Through(base, s).Ok? {
        PrintedShape(base, Num(ReadInt(s).value));
      }
    } else {
      SentIff(base, s);
    }
  }

  lemma NumeralRead(base: Base, s: string)
    requires base.Uint? && Fixed(base, s)
    ensures ReadInt(s).Ok? && Through(base, s) == Ok(s)
  {
    hide ReadInt, Decimal, Number, Canonical;
    CanonicalDigits(s);
    ReadNumeral(s);
    DecimalOfNumber(s);
  }

  lemma ThroughShape(base: Base, s: string)
    requires Through(base, s).Ok?
    ensures var t := Through(base, s).value;
            && (if base.Bool? then t == "True" || t == "False" else Fixed(base, t))
            && (base.Plain? ==> t == s)
  {
    hide Printed, PyStr, Fixed;
    PrintedShape(base, Convert(base, s).value);
  }

  lemma NumberIsNumeral(base: Base, s: string)
    requires IsNumber(base) && Fixed(base, s)
    ensures IsNumeral(s) && Strip(s) == s && Trimmed(s)
  {
    hide CanonicalReal, IsNumeral, Canonical, Trimmed, Strip;
    if base.Uint? {
      CanonicalDigits(s);
    }
    CanonicalNumeral(s);
    NumeralTrimmed(s);
  }

  lemma {:induction false} ThroughSteps(base: Base, ss: seq<string>)
    ensures ThroughAll(base, ss) ==
            match ConvertAll(base, ss)
            case Err => Err
            case Ok(xs) =>
              match PrintedAll(base, xs)
              case Err => Err
              case Ok(ys) => Ok(PyStrs(ys))
  {
    hide Convert, Printed, PyStr;
    if ss != [] {
      ThroughSteps(base, ss[1..]);
    }
  }

  // ----- the round trip of one value -----

  function AsConfig(v: Value): Config {
    match v
    case Str(s) => CStr(s)
    case Lst(items) => CLst(items)
    case Obj(fields) =>
      CObj(MapOf(seq(|fields|, i requires 0 <= i < |fields| => (fields[i].0, AsConfig(fields[i].1)))))
  }

  function AsBindings(fields: seq<(string, Value)>): (r: seq<(string, Config)>)
    ensures |r| == |fields|
    ensures AsConfig(Obj(fields)) == CObj(MapOf(r))
  {
    seq(|fields|, i requires 0 <= i < |fields| => (fields[i].0, AsConfig(fields[i].1)))
  }

  /** What the data tree hands back for a field; nothing for an empty leaf-list. */
  function ValueTrip(env: Env, leaf: Leaf, v: Value): Result<Option<Config>> {
    var d :- ToData(env, leaf, v);
    var p :- PrintedValue(leaf, d);
    match p
    case None => Ok(None)
    case Some(d') =>
      var c :- FromData(env, leaf, d');
      Ok(Some(c))
  }

  predicate ElementOk(leaf: Leaf, s: string) {
    Fixed(leaf.base, s) && IsElement(leaf, s)
  }

  /** A value in the form ConfigDB keeps it in. */
  predicate ValueOk(env: Env, leaf: Leaf, v: Value) {
    if leaf.isList then
      match Separator(env.table, leaf.name)
      case Some(c) => v.Str? && forall p :: p in SplitOn(v.text, c) ==> Trimmed(p) && ElementOk(leaf, p)
      case None => v.Lst? && v.items != [] && forall s :: s in v.items ==> ElementOk(leaf, s)
    else
      v.Str? && (if leaf.base.Bool? then v.text == "true" || v.text == "false" else Fixed(leaf.base, v.text))
  }

  lemma {:induction false} KeptAll(leaf: Leaf, ss: seq<string>)
    ensures |Kept(leaf, ss)| == |ss| <==> (forall s :: s in ss ==> IsElement(leaf, s))
    ensures |Kept(leaf, ss)| == |ss| ==> Kept(leaf, ss) == ss
  {
    if ss != [] {
      KeptAll(leaf, ss[1..]);
      assert ss == [ss[0]] + ss[1..];
      assert forall s :: s in ss <==> s == ss[0] || s in ss[1..];
    }
  }

  lemma {:induction false} ThroughAllIff(base: Base, ss: seq<string>)
    ensures ThroughAll(base, ss) == Ok(ss) <==> (forall s :: s in ss ==> Fixed(base, s))
  {
    hide Through, Fixed;
    if ss != [] {
      ThroughIff(base, ss[0]);
      ThroughAllIff(base, ss[1..]);
      assert ss == [ss[0]] + ss[1..];
    }
  }

  /** A leaf-list's elements come back unchanged exactly when each is kept and canonical. */
  lemma ElementsIff(leaf: Leaf, ss: seq<string>)
    ensures ThroughAll(leaf.base, Kept(leaf, ss)) == Ok(ss) <==> (forall s :: s in ss ==> ElementOk(leaf, s))
  {
    hide ThroughAll, Fixed, Kept;
    KeptAll(leaf, ss);
    ThroughAllIff(leaf.base, ss);
  }

  lemma {:induction false} ThroughFree(base: Base, ss: seq<string>, c: char)
    requires Separates(c) && (forall s :: s in ss ==> c !in s)
    requires ThroughAll(base, ss).Ok?
    ensures forall t :: t in ThroughAll(base, ss).value ==> c !in t
  {
    hide Through;
    if ss != [] {
      ThroughShape(base, ss[0]);
      ShapeFree(base, Through(base, ss[0]).value, c);
      ThroughFree(base, ss[1..], c);
    }
  }

  lemma ShapeFree(base: Base, t: string, c: char)
    requires Separates(c) && if base.Bool? then t == "True" || t == "False" else Fixed(base, t)
    ensures !base.Plain? ==> c !in t
  {
    hide Fixed;
    if IsNumber(base) {
      NumberIsNumeral(base, t);
    }
  }

  /** The trip of a leaf-list, in terms of its elements. */
  lemma ListTrip(env: Env, leaf: Leaf, v: Value)
    requires leaf.isList
    ensures ValueTrip(env, leaf, v) ==
            match ThroughAll(leaf.base, Kept(leaf, ListItems(env, leaf, v)))
            case Err => Err
            case Ok(ts) =>
              if ts == [] then (if leaf.hasDefault then Err else Ok(None))
              else
                match Separator(env.table, leaf.name)
                case Some(c) => Ok(Some(CStr(JoinOn(ts, c))))
                case None => Ok(Some(CLst(ts)))
  {
    hide ThroughAll, ConvertAll, PrintedAll, PyStrs, ListItems, Kept, Separator;
    ThroughSteps(leaf.base, Kept(leaf, ListItems(env, leaf, v)));
  }

  /** A separated string comes back unchanged exactly when its pieces do. */
  lemma SeparatedIff(leaf: Leaf, s: string, c: char)
    requires Separates(c)
    ensures var r := ThroughAll(leaf.base, Kept(leaf, StripAll(SplitOn(s, c))));
            r.Ok? && r.value != [] && JoinOn(r.value, c) == s <==>
            (forall p :: p in SplitOn(s, c) ==> Trimmed(p) && ElementOk(leaf, p))
  {
    hide ThroughAll, JoinOn, SplitOn, Kept, ElementOk, Trimmed, Strip;
    var ps := SplitOn(s, c);
    var ss := StripAll(ps);
    var r := ThroughAll(leaf.base, Kept(leaf, ss));
    SplitPieces(s, c);
    JoinOfSplit(s, c);
    ElementsIff(leaf, ss);
    if forall p :: p in ps ==> Trimmed(p) && ElementOk(leaf, p) {
      StripTrimmedAll(ps);
    }
    if r.Ok? && r.value != [] && JoinOn(r.value, c) == s {
      ThroughFree(leaf.base, Kept(leaf, ss), c);
      SplitOfJoin(r.value, c);
      assert r.value == ps;
      StrippedTrip(leaf, ps);
    }
  }

  lemma {:induction false} StripTrimmedAll(ps: seq<string>)
    requires forall p :: p in ps ==> Trimmed(p)
    ensures StripAll(ps) == ps
  {
    hide Trimmed, Strip;
    if ps != [] {
      StripTrimmed(ps[0]);
      StripTrimmedAll(ps[1..]);
    }
  }

  lemma StrippedTrip(leaf: Leaf, ps: seq<string>)
    requires ThroughAll(leaf.base, Kept(leaf, StripAll(ps))) == Ok(ps)
    ensures forall p :: p in ps ==> Trimmed(p) && ElementOk(leaf, p)
  {
    hide Trimmed, Strip, Through, Fixed, Kept;
    var ss := StripAll(ps);
    KeptAll(leaf, ss);
    forall i | 0 <= i < |ps|
      ensures Trimmed(ps[i]) && ElementOk(leaf, ps[i])
    {
      ThroughAllAt(leaf.base, ss, i);
      FixedStrip(leaf.base, ps[i]);
      assert ss[i] in ss;
    }
  }

  lemma {:induction false} ThroughAllAt(base: Base, ss: seq<string>, i: nat)
    requires ThroughAll(base, ss).Ok? && i < |ss|
    ensures Through(base, ss[i]) == Ok(ThroughAll(base, ss).value[i])
  {
    hide Through;
    if i > 0 {
      ThroughAllAt(base, ss[1..], i - 1);
    }
  }

  lemma FixedStrip(base: Base, p: string)
    requires Through(base, Strip(p)) == Ok(p)
    ensures Strip(p) == p && Trimmed(p) && Fixed(base, p)
  {
    hide Through, Strip, Trimmed, Fixed;
    ThroughShape(base, Strip(p));
    ShapeTrimmed(base, p);
    StripTrimmed(p);
    ThroughIff(base, p);
  }

  lemma ShapeTrimmed(base: Base, p: string)
    requires if base.Bool? then p == "True" || p == "False" else Fixed(base, p)
    ensures !base.Plain? ==> Trimmed(p) && p != ""
  {
    hide Fixed;
    if IsNumber(base) {
      NumberIsNumeral(base, p);
    }
  }

  /** A field's value comes back unchanged exactly when it has ConfigDB's form for its type. */
  lemma ValueTripIff(env: Env, leaf: Leaf, v: Value)
    ensures ValueTrip(env, leaf, v) == Ok(Some(AsConfig(v))) <==> ValueOk(env, leaf, v)
  {
    hide ThroughAll, ConvertAll, PrintedAll, PyStrs, Kept, Separator, StripAll, SplitOn, JoinOn, MapOf;
    if leaf.isList {
      ListTrip(env, leaf, v);
      match Separator(env.table, leaf.name)
      case Some(c) =>
        if v.Str? {
          SeparatedIff(leaf, v.text, c);
        }
      case None =>
        if v.Lst? {
          ElementsIff(leaf, v.items);
        }
    } else {
      ScalarTripIff(env, leaf, v);
    }
  }

  lemma ScalarTripIff(env: Env, leaf: Leaf, v: Value)
    requires !leaf.isList
    ensures ValueTrip(env, leaf, v) == Ok(Some(AsConfig(v))) <==> ValueOk(env, leaf, v)
  {
    hide Fixed, MapOf;
    ThroughIff(leaf.base, AsText(env, v));
  }

  // ----- what comes back is in ConfigDB's form -----

  /** A separated leaf-list is given as one string. */
  predicate Settled(env: Env, leaf: Leaf, v: Value) {
    leaf.isList && Separator(env.table, leaf.name).Some? ==> v.Str?
  }

  lemma {:induction false} ConvertAllOk(base: Base, ss: seq<string>)
    requires base.Uint? ==> forall s :: s in ss ==> Canonical(s)
    ensures ConvertAll(base, ss).Ok?
  {
    hide ReadInt, Canonical;
    if ss != [] {
      assert ss[0] in ss;
      if base.Uint? {
        CanonicalDigits(ss[0]);
        ReadNumeral(ss[0]);
      }
      ConvertAllOk(base, ss[1..]);
    }
  }

  lemma ToDataOk(env: Env, leaf: Leaf, v: Value)
    requires leaf.isList && ListItems(env, leaf, v) != []
    requires leaf.base.Uint? ==> forall s :: s in ListItems(env, leaf, v) ==> Canonical(s)
    ensures ToData(env, leaf, v).Ok?
  {
    hide ConvertAll, Kept, Canonical, ListItems;
    var items := ListItems(env, leaf, v);
    ConvertAllOk(leaf.base, Kept(leaf, items));
    KeptAll(leaf, items);
  }

  /** Elements that came back are elements in canonical form, unless they are booleans. */
  lemma ElementsSettle(leaf: Leaf, ss: seq<string>)
    requires ThroughAll(leaf.base, Kept(leaf, ss)).Ok?
    ensures var ts := ThroughAll(leaf.base, Kept(leaf, ss)).value;
            forall t :: t in ts ==>
              && IsElement(leaf, t)
              && (leaf.base.Uint? ==> Canonical(t))
              && (if leaf.base.Bool? then Through(leaf.base, t).Err? else ElementOk(leaf, t))
              && (leaf.base.Plain? ==> t in ss)
  {
    hide ThroughAll, Kept, Through, Canonical;
    var kept := Kept(leaf, ss);
    var ts := ThroughAll(leaf.base, kept).value;
    forall t | t in ts
      ensures IsElement(leaf, t)
      ensures leaf.base.Uint? ==> Canonical(t)
      ensures if leaf.base.Bool? then Through(leaf.base, t).Err? else ElementOk(leaf, t)
      ensures leaf.base.Plain? ==> t in ss
    {
      var i :| 0 <= i < |ts| && ts[i] == t;
      ThroughAllAt(leaf.base, kept, i);
      ThroughShape(leaf.base, kept[i]);
      assert kept[i] in kept;
      BoolStops(leaf.base, t);
      ShapeTrimmed(leaf.base, t);
    }
  }

  lemma BoolStops(base: Base, t: string)
    ensures base.Bool? && (t == "True" || t == "False") ==> Through(base, t).Err?
  {
  }

  lemma {:induction false} ThroughAllOk(base: Base, ss: seq<string>)
    requires ThroughAll(base, ss).Ok?
    ensures forall s :: s in ss ==> Through(base, s).Ok?
  {
    hide Through;
    if ss != [] {
      ThroughAllOk(base, ss[1..]);
    }
  }

  lemma SettledList(env: Env, leaf: Leaf, v: Value, w: Value)
    requires leaf.isList && Separator(env.table, leaf.name).None?
    requires ValueTrip(env, leaf, v) == Ok(Some(AsConfig(w)))
    ensures ToData(env, leaf, w).Ok?
    ensures ValueTrip(env, leaf, w).Ok? ==> ValueOk(env, leaf, w)
  {
    hide ThroughAll, Kept, Through, Canonical, Separator, ToData, ElementOk, ValueTrip, MapOf;
    ListTrip(env, leaf, v);
    var items := ListItems(env, leaf, v);
    var ts := ThroughAll(leaf.base, Kept(leaf, items)).value;
    assert w == Lst(ts);
    ElementsSettle(leaf, items);
    ToDataOk(env, leaf, w);
    if ValueTrip(env, leaf, w).Ok? && leaf.base.Bool? {
      ListTrip(env, leaf, w);
      KeptAll(leaf, ts);
      ThroughAllOk(leaf.base, ts);
    }
  }

  lemma SettledPieces(leaf: Leaf, s: string, c: char)
    requires Separates(c)
    requires var r := ThroughAll(leaf.base, Kept(leaf, StripAll(SplitOn(s, c)))); r.Ok? && r.value != []
    ensures var ts := ThroughAll(leaf.base, Kept(leaf, StripAll(SplitOn(s, c)))).value;
            SplitOn(JoinOn(ts, c), c) == ts && StripAll(ts) == ts && forall t :: t in ts ==> Trimmed(t)
  {
    hide ThroughAll, Kept, StripAll, SplitOn, JoinOn, Trimmed, Through;
    var ss := StripAll(SplitOn(s, c));
    var ts := ThroughAll(leaf.base, Kept(leaf, ss)).value;
    SplitPieces(s, c);
    ThroughFree(leaf.base, Kept(leaf, ss), c);
    SplitOfJoin(ts, c);
    forall t | t in ts
      ensures Trimmed(t)
    {
      var i :| 0 <= i < |ts| && ts[i] == t;
      ThroughAllAt(leaf.base, Kept(leaf, ss), i);
      assert Kept(leaf, ss)[i] in ss;
      ThroughTrimmed(leaf.base, SplitOn(s, c), Kept(leaf, ss)[i]);
    }
    StripTrimmedAll(ts);
  }

  lemma ThroughTrimmed(base: Base, ps: seq<string>, s: string)
    requires s in StripAll(ps) && Through(base, s).Ok?
    ensures Trimmed(Through(base, s).value)
  {
    hide Through, Trimmed, Strip;
    var i :| 0 <= i < |ps| && StripAll(ps)[i] == s;
    StripTrims(ps[i]);
    ThroughShape(base, s);
    ShapeTrimmed(base, Through(base, s).value);
  }

  lemma SettledString(env: Env, leaf: Leaf, v: Value, w: Value, c: char)
    requires leaf.isList && Separator(env.table, leaf.name) == Some(c) && v.Str?
    requires ValueTrip(env, leaf, v) == Ok(Some(AsConfig(w)))
    ensures ToData(env, leaf, w).Ok?
    ensures ValueTrip(env, leaf, w).Ok? ==> ValueOk(env, leaf, w)
  {
    hide ThroughAll, Kept, Through, Canonical, Separator, ToData, ElementOk, ValueTrip, MapOf, Trimmed, StripAll,
      SplitOn, JoinOn;
    ListTrip(env, leaf, v);
    var items := ListItems(env, leaf, v);
    var ts := ThroughAll(leaf.base, Kept(leaf, items)).value;
    assert w == Str(JoinOn(ts, c));
    ElementsSettle(leaf, items);
    SettledPieces(leaf, v.text, c);
    assert ListItems(env, leaf, w) == ts;
    ToDataOk(env, leaf, w);
    if ValueTrip(env, leaf, w).Ok? && leaf.base.Bool? {
      ListTrip(env, leaf, w);
      KeptAll(leaf, ts);
      ThroughAllOk(leaf.base, ts);
    }
  }

  lemma SettledSeparated(env: Env, leaf: Leaf, v: Value, w: Value, c: char)
    requires leaf.isList && Separator(env.table, leaf.name) == Some(c)
    requires ValueTrip(env, leaf, v) == Ok(Some(AsConfig(w)))
    ensures w.Str? && ToData(env, leaf, w).Ok?
  {
    hide ThroughAll, Kept, Through, Canonical, Separator, ToData, ElementOk, ValueTrip, MapOf, Trimmed, SplitOn, JoinOn;
    ListTrip(env, leaf, v);
    var items := ListItems(env, leaf, v);
    var ts := ThroughAll(leaf.base, Kept(leaf, items)).value;
    assert w == Str(JoinOn(ts, c));
    ElementsSettle(leaf, items);
    if leaf.base.Uint? {
      forall t | t in ts
        ensures c !in t && Trimmed(t)
      {
        CanonicalDigits(t);
        NumberIsNumeral(leaf.base, t);
      }
      SplitOfJoin(ts, c);
      StripTrimmedAll(ts);
    }
    ToDataOk(env, leaf, w);
  }

  lemma SettledScalar(env: Env, leaf: Leaf, v: Value, w: Value)
    requires !leaf.isList && ValueTrip(env, leaf, v) == Ok(Some(AsConfig(w)))
    ensures ToData(env, leaf, w).Ok? && ValueOk(env, leaf, w)
  {
    hide Through, Fixed, MapOf, ReadInt, Printed, PyStr;
    if !leaf.base.Bool? {
      ScalarThrough(env, leaf, v);
      ThroughShape(leaf.base, AsText(env, v));
      if leaf.base.Uint? {
        NumeralRead(leaf.base, w.text);
      }
    } else {
      FlagBack(env, leaf, v, w);
    }
  }

  lemma FlagBack(env: Env, leaf: Leaf, v: Value, w: Value)
    requires !leaf.isList && leaf.base.Bool? && ValueTrip(env, leaf, v) == Ok(Some(AsConfig(w)))
    ensures w.Str? && (w.text == "true" || w.text == "false")
  {
    hide MapOf;
  }

  lemma ScalarThrough(env: Env, leaf: Leaf, v: Value)
    requires !leaf.isList && !leaf.base.Bool?
    ensures ValueTrip(env, leaf, v) ==
            match Through(leaf.base, AsText(env, v))
            case Err => Err
            case Ok(t) => Ok(Some(CStr(t)))
  {
    hide Printed, PyStr, Convert;
  }

  /**
   A value that came back is accepted again; and if the value it came from was given in the
   usual shape, it is in ConfigDB's form unless the data tree refuses it.
   */
  lemma ValueSettles(env: Env, leaf: Leaf, v: Value, w: Value)
    requires ValueTrip(env, leaf, v) == Ok(Some(AsConfig(w)))
    ensures ToData(env, leaf, w).Ok? && Settled(env, leaf, w)
    ensures Settled(env, leaf, v) && ValueTrip(env, leaf, w).Ok? ==> ValueOk(env, leaf, w)
  {
    hide ToData, ValueTrip, ValueOk, Separator, AsConfig;
    if !leaf.isList {
      SettledScalar(env, leaf, v, w);
    } else {
      match Separator(env.table, leaf.name)
      case None => SettledList(env, leaf, v, w);
      case Some(c) =>
        SettledSeparated(env, leaf, v, w, c);
        if v.Str? {
          SettledString(env, leaf, v, w, c);
        }
    }
  }
}
