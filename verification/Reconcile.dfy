/** Bringing the client certificate settings of CONFIG_DB to their desired state with a JSON patch. */
module Reconcile {
  import opened Texts
  import JsonPointers

  datatype Json = JStr(text: string) | JList(items: seq<string>) | JObj(fields: map<string, Json>)

  datatype Kind = Add | Replace

  datatype Op = Op(kind: Kind, path: string, value: Json)

  datatype Cert = Cert(cname: string, role: seq<string>)

  const CERTS := "GNMI_CLIENT_CERT"
  const AUTH_PATH := "/" + "TELEMETRY" + "/" + "gnmi" + "/" + "user_auth"

  // ----- JSON patch, for object members (sections 4.1 and 4.3 of RFC 6902) -----

  function SetAt(doc: Json, tokens: seq<string>, v: Json, mustExist: bool): Result<Json>
    decreases |tokens|
  {
    if tokens == [] then Ok(v)
    else if !doc.JObj? then Err
    else if |tokens| == 1 then
      if mustExist && tokens[0] !in doc.fields then Err else Ok(JObj(doc.fields[tokens[0] := v]))
    else if tokens[0] !in doc.fields then Err
    else
      var inner :- SetAt(doc.fields[tokens[0]], tokens[1..], v, mustExist);
      Ok(JObj(doc.fields[tokens[0] := inner]))
  }

  function Apply(doc: Json, op: Op): Result<Json> {
    var tokens :- JsonPointers.Parse(op.path);
    SetAt(doc, tokens, op.value, op.kind.Replace?)
  }

  function ApplyAll(doc: Json, ops: seq<Op>): Result<Json>
    decreases |ops|
  {
    if ops == [] then Ok(doc)
    else
      var next :- Apply(doc, ops[0]);
      ApplyAll(next, ops[1..])
  }

  // ----- reading the database -----

  /** The object under a name, empty when there is none. */
  function Member(doc: Json, name: string): map<string, Json> {
    if doc.JObj? && name in doc.fields && doc.fields[name].JObj? then doc.fields[name].fields else map[]
  }

  function Certificates(doc: Json): map<string, Json> {
    Member(doc, CERTS)
  }

  function Gnmi(doc: Json): map<string, Json> {
    Member(JObj(Member(doc, "TELEMETRY")), "gnmi")
  }

  predicate AuthSet(doc: Json) {
    "user_auth" in Gnmi(doc) && Gnmi(doc)["user_auth"] == JStr("cert")
  }

  /** A stored list of roles without blanks and empty roles. */
  function NormalizeRole(role: seq<string>): (r: seq<string>)
    ensures forall t :: t in r ==> t != "" && Trimmed(t)
  {
    if role == [] then []
    else
      StripTrims(role[0]);
      if Strip(role[0]) == "" then NormalizeRole(role[1..]) else [Strip(role[0])] + NormalizeRole(role[1..])
  }

  /** The entry exists and its roles, which must be stored as a list, are the wanted ones in any order. */
  predicate UpToDate(doc: Json, c: Cert) {
    && c.cname in Certificates(doc)
    && var e := Certificates(doc)[c.cname];
       && e.JObj? && "role" in e.fields && e.fields["role"].JList?
       && multiset(NormalizeRole(e.fields["role"].items)) == multiset(c.role)
  }

  // ----- what the database grants -----

  /** The value at a place in a document. */
  function Lookup(doc: Json, names: seq<string>): Option<Json>
    decreases |names|
  {
    if names == [] then Some(doc)
    else if doc.JObj? && names[0] in doc.fields then Lookup(doc.fields[names[0]], names[1..])
    else None
  }

  /** How many of the texts are `t` without their outer blanks. */
  function Times(role: seq<string>, t: string): nat {
    if role == [] then 0 else (if Strip(role[0]) == t then 1 else 0) + Times(role[1..], t)
  }

  /** The stored texts, stripped and without the empty ones, are the wanted roles, each as often. */
  ghost predicate SameRoles(stored: seq<string>, wanted: seq<string>) {
    forall t :: multiset(wanted)[t] == if t == "" then 0 else Times(stored, t)
  }

  /** A list of the wanted roles is stored for the client. */
  ghost predicate Granted(doc: Json, c: Cert) {
    match Lookup(doc, ["GNMI_CLIENT_CERT", c.cname, "role"])
    case Some(JList(items)) => SameRoles(items, c.role)
    case _ => false
  }

  lemma LookupStep(doc: Json, name: string, names: seq<string>)
    ensures Lookup(doc, [name] + names) == if doc.JObj? && name in doc.fields then Lookup(doc.fields[name], names) else None
  {
    assert ([name] + names)[1..] == names;
  }

  lemma LookupThree(doc: Json, a: string, b: string, c: string)
    ensures Lookup(doc, [a, b, c]) ==
            if b in Member(doc, a) && Member(doc, a)[b].JObj? && c in Member(doc, a)[b].fields
            then Some(Member(doc, a)[b].fields[c]) else None
  {
    assert [a, b, c] == [a] + [b, c] && [b, c] == [b] + [c] && [c] == [c] + [];
    LookupStep(doc, a, [b, c]);
    if doc.JObj? && a in doc.fields {
      LookupStep(doc.fields[a], b, [c]);
      if doc.fields[a].JObj? && b in doc.fields[a].fields {
        LookupStep(doc.fields[a].fields[b], c, []);
      }
    }
  }

  lemma {:induction false} NormalizeCounts(role: seq<string>, t: string)
    ensures multiset(NormalizeRole(role))[t] == if t == "" then 0 else Times(role, t)
  {
    hide Strip, Trimmed;
    if role != [] {
      NormalizeCounts(role[1..], t);
      var rest := NormalizeRole(role[1..]);
      assert multiset([Strip(role[0])] + rest) == multiset{Strip(role[0])} + multiset(rest);
    }
  }

  /** An entry counts as up to date exactly when the wanted roles are granted. */
  lemma UpToDateIff(doc: Json, c: Cert)
    ensures UpToDate(doc, c) <==> Granted(doc, c)
  {
    hide Times, NormalizeRole, Lookup;
    LookupThree(doc, CERTS, c.cname, "role");
    if c.cname in Certificates(doc) && Certificates(doc)[c.cname].JObj? && "role" in Certificates(doc)[c.cname].fields &&
       Certificates(doc)[c.cname].fields["role"].JList? {
      var items := Certificates(doc)[c.cname].fields["role"].items;
      forall t
        ensures multiset(NormalizeRole(items))[t] == if t == "" then 0 else Times(items, t)
      {
        NormalizeCounts(items, t);
      }
      SameCounts(multiset(NormalizeRole(items)), multiset(c.role));
    }
  }

  lemma SameCounts(a: multiset<string>, b: multiset<string>)
    ensures a == b <==> forall t :: b[t] == a[t]
  {
  }

  /** Authentication by certificate is set. */
  ghost predicate Authenticated(doc: Json) {
    Lookup(doc, ["TELEMETRY", "gnmi", "user_auth"]) == Some(JStr("cert"))
  }

  lemma AuthSetIff(doc: Json)
    ensures AuthSet(doc) <==> Authenticated(doc)
  {
    hide Lookup;
    LookupThree(doc, "TELEMETRY", "gnmi", "user_auth");
  }

  // ----- the patch -----

  function Needed(doc: Json, certs: seq<Cert>): (r: seq<Cert>)
    ensures forall c :: c in r <==> c in certs && !UpToDate(doc, c)
  {
    if certs == [] then []
    else
      assert forall c :: c in certs <==> c == certs[0] || c in certs[1..];
      if UpToDate(doc, certs[0]) then Needed(doc, certs[1..]) else [certs[0]] + Needed(doc, certs[1..])
  }

  function Entry(c: Cert): Json {
    JObj(map["role" := JList(c.role)])
  }

  function TableOf(certs: seq<Cert>): map<string, Json> {
    if certs == [] then map[] else map[certs[0].cname := Entry(certs[0])] + TableOf(certs[1..])
  }

  lemma {:induction false} TableNames(certs: seq<Cert>, n: string)
    ensures n in TableOf(certs) <==> exists c :: c in certs && c.cname == n
  {
    if certs != [] {
      TableNames(certs[1..], n);
      assert forall c :: c in certs <==> c == certs[0] || c in certs[1..];
    }
  }

  function EntryOp(existing: set<string>, c: Cert): Op {
    Op(if c.cname in existing then Replace else Add, "/" + CERTS + "/" + c.cname, Entry(c))
  }

  function EntryOps(existing: set<string>, certs: seq<Cert>): seq<Op> {
    if certs == [] then [] else [EntryOp(existing, certs[0])] + EntryOps(existing, certs[1..])
  }

  function CertOps(doc: Json, needed: seq<Cert>): seq<Op> {
    if needed == [] then []
    else if Certificates(doc) == map[] then [Op(Add, "/" + CERTS, JObj(TableOf(needed)))]
    else EntryOps(Certificates(doc).Keys, needed)
  }

  function AuthOps(doc: Json): seq<Op> {
    if AuthSet(doc) then [] else [Op(Add, AUTH_PATH, JStr("cert"))]
  }

  function EnabledPatch(doc: Json, certs: seq<Cert>): seq<Op> {
    AuthOps(doc) + CertOps(doc, Needed(doc, certs))
  }

  method BuildEnabledPatch(doc: Json, certs: seq<Cert>) returns (patch: seq<Op>)
    ensures patch == EnabledPatch(doc, certs)
  {
    hide AuthSet, Certificates, Needed, EntryOps, TableOf;
    patch := [];
    if !AuthSet(doc) {
      patch := patch + [Op(Add, AUTH_PATH, JStr("cert"))];
    }
    var needed := EntriesNeeded(doc, certs);
    SeqAssoc(patch, [], []);
    if needed != [] {
      if Certificates(doc) == map[] {
        patch := patch + [Op(Add, "/" + CERTS, JObj(TableOf(needed)))];
      } else {
        patch := AppendEntries(patch, Certificates(doc).Keys, needed);
      }
    }
  }

  method EntriesNeeded(doc: Json, certs: seq<Cert>) returns (needed: seq<Cert>)
    ensures needed == Needed(doc, certs)
  {
    hide UpToDate;
    needed := [];
    assert certs[0..] == certs;
    for i := 0 to |certs|
      invariant needed + Needed(doc, certs[i..]) == Needed(doc, certs)
    {
      assert certs[i..][0] == certs[i] && certs[i..][1..] == certs[i+1..];
      if !UpToDate(doc, certs[i]) {
        SeqAssoc(needed, [certs[i]], Needed(doc, certs[i+1..]));
        needed := needed + [certs[i]];
      }
    }
    SeqAssoc(needed, [], []);
  }

  method AppendEntries(before: seq<Op>, existing: set<string>, needed: seq<Cert>) returns (patch: seq<Op>)
    ensures patch == before + EntryOps(existing, needed)
  {
    hide EntryOp;
    patch := before;
    assert needed[0..] == needed;
    for i := 0 to |needed|
      invariant patch + EntryOps(existing, needed[i..]) == before + EntryOps(existing, needed)
    {
      assert needed[i..][0] == needed[i] && needed[i..][1..] == needed[i+1..];
      SeqAssoc(patch, [EntryOp(existing, needed[i])], EntryOps(existing, needed[i+1..]));
      patch := patch + [EntryOp(existing, needed[i])];
    }
    SeqAssoc(patch, [], []);
  }

  // ----- applying it -----

  predicate PathSafe(name: string) {
    '/' !in name && '~' !in name
  }

  /** The gNMI settings exist, and certificates, if there are any, are objects in a table. */
  predicate WellFormed(doc: Json) {
    && doc.JObj?
    && "TELEMETRY" in doc.fields && doc.fields["TELEMETRY"].JObj?
    && "gnmi" in doc.fields["TELEMETRY"].fields && doc.fields["TELEMETRY"].fields["gnmi"].JObj?
    && (CERTS in doc.fields ==> doc.fields[CERTS].JObj?)
  }

  function WithCertificates(doc: Json, table: map<string, Json>): Json
    requires doc.JObj?
  {
    JObj(doc.fields[CERTS := JObj(table)])
  }

  lemma {:induction false} SafeUnchanged(name: string)
    requires PathSafe(name)
    ensures JsonPointers.Escape(name) == name
  {
    if name != "" {
      assert name[0] in name;
      SafeUnchanged(name[1..]);
      assert name == [name[0]] + name[1..];
    }
  }

  lemma OneToken(name: string)
    requires PathSafe(name)
    ensures JsonPointers.Parse("/" + name) == Ok([name])
  {
    hide JsonPointers.Parse, JsonPointers.Escape;
    SafeUnchanged(name);
    JsonPointers.ParseFormat([name]);
    assert [name][1..] == [] && JsonPointers.Format([]) == "";
    SeqAssoc("/" + name, [], []);
  }

  lemma TwoTokens(a: string, b: string)
    requires PathSafe(a) && PathSafe(b)
    ensures JsonPointers.Parse("/" + a + "/" + b) == Ok([a, b])
  {
    hide JsonPointers.Parse, JsonPointers.Escape;
    SafeUnchanged(a);
    SafeUnchanged(b);
    JsonPointers.ParseFormat([a, b]);
    assert [a, b][1..] == [b] && [b][1..] == [] && JsonPointers.Format([]) == "";
    SeqAssoc("/" + b, [], []);
    assert JsonPointers.Format([b]) == "/" + b;
    SeqAssoc("/" + a, "/", b);
  }

  lemma {:induction false} EscapeLength(t: string)
    ensures |JsonPointers.Escape(t)| >= |t|
    ensures |JsonPointers.Escape(t)| == |t| ==> PathSafe(t)
  {
    if t != "" {
      EscapeLength(t[1..]);
      assert t == [t[0]] + t[1..];
    }
  }

  /** The path of an entry reaches that entry exactly when its name needs no escaping. */
  lemma EntryPathIff(name: string)
    ensures JsonPointers.Parse("/" + CERTS + "/" + name) == Ok([CERTS, name]) <==> PathSafe(name)
  {
    hide JsonPointers.Parse, JsonPointers.Escape, PathSafe;
    var path := "/" + CERTS + "/" + name;
    assert PathSafe(CERTS) by { CertsSafe(); }
    if PathSafe(name) {
      TwoTokens(CERTS, name);
    } else if JsonPointers.Parse(path) == Ok([CERTS, name]) {
      JsonPointers.FormatParse(path);
      EntryFormat(name);
      EscapeLength(name);
      assert false;
    }
  }

  lemma EntryFormat(name: string)
    ensures |JsonPointers.Format([CERTS, name])| == 1 + |CERTS| + 1 + |JsonPointers.Escape(name)|
  {
    hide JsonPointers.Escape;
    SafeUnchanged(CERTS);
    assert [CERTS, name][1..] == [name] && [name][1..] == [];
    assert JsonPointers.Format([name]) == "/" + JsonPointers.Escape(name) + "";
  }

  lemma CertsSafe()
    ensures PathSafe(CERTS)
  {
  }

  lemma FormatSafe(t: string, ts: seq<string>)
    requires PathSafe(t)
    ensures JsonPointers.Format([t] + ts) == "/" + t + JsonPointers.Format(ts)
  {
    hide JsonPointers.Escape;
    SafeUnchanged(t);
    assert ([t] + ts)[1..] == ts;
  }

  lemma ThreeTokens(a: string, b: string, c: string)
    requires PathSafe(a) && PathSafe(b) && PathSafe(c)
    ensures JsonPointers.Parse("/" + a + "/" + b + "/" + c) == Ok([a, b, c])
  {
    hide JsonPointers.Parse, JsonPointers.Format, PathSafe;
    var ts := [a] + ([b] + ([c] + []));
    FormatNone();
    FormatSafe(c, []);
    FormatSafe(b, [c] + []);
    FormatSafe(a, [b] + ([c] + []));
    assert "/" + a + ("/" + b + ("/" + c + "")) == "/" + a + "/" + b + "/" + c;
    JsonPointers.ParseFormat(ts);
    assert ts == [a, b, c];
  }

  lemma AuthSafe()
    ensures PathSafe("TELEMETRY") && PathSafe("gnmi") && PathSafe("user_auth")
  {
  }

  lemma AuthTokens()
    ensures JsonPointers.Parse(AUTH_PATH) == Ok(["TELEMETRY", "gnmi", "user_auth"])
  {
    hide JsonPointers.Parse, PathSafe;
    AuthSafe();
    ThreeTokens("TELEMETRY", "gnmi", "user_auth");
  }

  lemma FormatNone()
    ensures JsonPointers.Format([]) == ""
  {
  }

  predicate HasTable(doc: Json) {
    doc.JObj? && CERTS in doc.fields && doc.fields[CERTS].JObj?
  }

  lemma SetEntry(doc: Json, name: string, v: Json, mustExist: bool)
    requires HasTable(doc) && (mustExist ==> name in Certificates(doc))
    ensures SetAt(doc, [CERTS, name], v, mustExist) == Ok(WithCertificates(doc, Certificates(doc)[name := v]))
  {
    assert [CERTS, name][1..] == [name];
    assert SetAt(doc.fields[CERTS], [name], v, mustExist) == Ok(JObj(Certificates(doc)[name := v]));
  }

  lemma ApplyEntry(doc: Json, existing: set<string>, c: Cert)
    requires HasTable(doc) && PathSafe(c.cname) && existing <= Certificates(doc).Keys
    ensures Apply(doc, EntryOp(existing, c)) == Ok(WithCertificates(doc, Certificates(doc)[c.cname := Entry(c)]))
  {
    hide JsonPointers.Parse, Entry, SetAt, Certificates;
    TwoTokens(CERTS, c.cname);
    SetEntry(doc, c.cname, Entry(c), c.cname in existing);
  }

  lemma TableAgain(doc: Json, a: map<string, Json>, b: map<string, Json>)
    requires doc.JObj?
    ensures HasTable(WithCertificates(doc, a)) && Certificates(WithCertificates(doc, a)) == a
    ensures WithCertificates(WithCertificates(doc, a), b) == WithCertificates(doc, b)
  {
    assert doc.fields[CERTS := JObj(a)][CERTS := JObj(b)] == doc.fields[CERTS := JObj(b)];
  }

  lemma {:induction false} ApplyEntries(doc: Json, existing: set<string>, certs: seq<Cert>)
    requires HasTable(doc) && existing <= Certificates(doc).Keys
    requires forall c :: c in certs ==> PathSafe(c.cname)
    ensures ApplyAll(doc, EntryOps(existing, certs)) == Ok(WithCertificates(doc, Certificates(doc) + TableOf(certs)))
    decreases |certs|
  {
    hide Apply, EntryOp, Entry, Certificates, WithCertificates, TableOf;
    var table := Certificates(doc);
    if certs == [] {
      EmptyTable(table, certs);
      SameTable(doc);
    } else {
      var c := certs[0];
      assert c in certs;
      ApplyEntry(doc, existing, c);
      var grown := table[c.cname := Entry(c)];
      var next := WithCertificates(doc, grown);
      TableAgain(doc, grown, grown + TableOf(certs[1..]));
      ApplyEntries(next, existing, certs[1..]);
      assert EntryOps(existing, certs)[1..] == EntryOps(existing, certs[1..]);
      TableStep(table, certs);
    }
  }

  lemma TableStep(table: map<string, Json>, certs: seq<Cert>)
    requires certs != []
    ensures table[certs[0].cname := Entry(certs[0])] + TableOf(certs[1..]) == table + TableOf(certs)
  {
  }

  lemma EmptyTable(table: map<string, Json>, certs: seq<Cert>)
    requires certs == []
    ensures table + TableOf(certs) == table
  {
  }

  lemma SameTable(doc: Json)
    requires HasTable(doc)
    ensures WithCertificates(doc, Certificates(doc)) == doc
  {
    assert doc.fields[CERTS := doc.fields[CERTS]] == doc.fields;
  }

  lemma ApplyCerts(doc: Json, needed: seq<Cert>)
    requires WellFormed(doc) && (Certificates(doc) == map[] || forall c :: c in needed ==> PathSafe(c.cname))
    ensures ApplyAll(doc, CertOps(doc, needed)) ==
            Ok(if needed == [] then doc else WithCertificates(doc, Certificates(doc) + TableOf(needed)))
  {
    hide EntryOps, Apply, TableOf;
    if needed == [] {
    } else if Certificates(doc) == map[] {
      var op := Op(Add, "/" + CERTS, JObj(TableOf(needed)));
      ApplyTable(doc, op.value);
      assert [op][1..] == [];
      assert map[] + TableOf(needed) == TableOf(needed);
    } else {
      ApplyEntries(doc, Certificates(doc).Keys, needed);
    }
  }

  lemma ApplyTable(doc: Json, v: Json)
    requires doc.JObj?
    ensures Apply(doc, Op(Add, "/" + CERTS, v)) == Ok(JObj(doc.fields[CERTS := v]))
  {
    hide JsonPointers.Parse;
    OneToken(CERTS);
  }

  function WithAuth(doc: Json): Json
    requires WellFormed(doc)
  {
    var telemetry := doc.fields["TELEMETRY"].fields;
    var gnmi := telemetry["gnmi"].fields;
    JObj(doc.fields["TELEMETRY" := JObj(telemetry["gnmi" := JObj(gnmi["user_auth" := JStr("cert")])])])
  }

  lemma ApplyAuth(doc: Json)
    requires WellFormed(doc)
    ensures Apply(doc, Op(Add, AUTH_PATH, JStr("cert"))) == Ok(WithAuth(doc))
  {
    hide JsonPointers.Parse;
    AuthTokens();
    var ts := ["TELEMETRY", "gnmi", "user_auth"];
    assert ts[1..] == ["gnmi", "user_auth"] && ["gnmi", "user_auth"][1..] == ["user_auth"];
    var gnmi := doc.fields["TELEMETRY"].fields["gnmi"];
    assert SetAt(gnmi, ["user_auth"], JStr("cert"), false) == Ok(JObj(gnmi.fields["user_auth" := JStr("cert")]));
    assert SetAt(doc.fields["TELEMETRY"], ["gnmi", "user_auth"], JStr("cert"), false) ==
           Ok(JObj(doc.fields["TELEMETRY"].fields["gnmi" := JObj(gnmi.fields["user_auth" := JStr("cert")])]));
  }

  lemma {:induction false} ApplyAppend(doc: Json, a: seq<Op>, b: seq<Op>)
    ensures ApplyAll(doc, a + b) ==
            match ApplyAll(doc, a)
            case Err => Err
            case Ok(next) => ApplyAll(next, b)
    decreases |a|
  {
    hide Apply;
    if a == [] {
      assert a + b == b;
    } else {
      assert (a + b)[1..] == a[1..] + b;
      if Apply(doc, a[0]).Ok? {
        ApplyAppend(Apply(doc, a[0]).value, a[1..], b);
      }
    }
  }

  /** The state the patch leads to. */
  function Reconciled(doc: Json, certs: seq<Cert>): Json
    requires WellFormed(doc)
  {
    var next := if AuthSet(doc) then doc else WithAuth(doc);
    var needed := Needed(doc, certs);
    if needed == [] then next else WithCertificates(next, Certificates(doc) + TableOf(needed))
  }

  /** Every operation of the patch applies, in order; names matter only when entries are patched one by one. */
  lemma PatchApplies(doc: Json, certs: seq<Cert>)
    requires WellFormed(doc) && (Certificates(doc) == map[] || forall c :: c in Needed(doc, certs) ==> PathSafe(c.cname))
    ensures ApplyAll(doc, EnabledPatch(doc, certs)) == Ok(Reconciled(doc, certs))
  {
    hide Apply, Needed, EntryOps, UpToDate, TableOf;
    var needed := Needed(doc, certs);
    ApplyAppend(doc, AuthOps(doc), CertOps(doc, needed));
    var next := if AuthSet(doc) then doc else WithAuth(doc);
    if !AuthSet(doc) {
      ApplyAuth(doc);
      var op := Op(Add, AUTH_PATH, JStr("cert"));
      assert [op][1..] == [] && ApplyAll(next, []) == Ok(next);
    }
    assert CertOps(next, needed) == CertOps(doc, needed);
    ApplyCerts(next, needed);
  }

  // ----- convergence -----

  predicate CleanRole(role: seq<string>) {
    forall t :: t in role ==> t != "" && Trimmed(t)
  }

  lemma {:induction false} NormalizeClean(role: seq<string>)
    requires CleanRole(role)
    ensures NormalizeRole(role) == role
  {
    hide Strip, Trimmed;
    if role != [] {
      assert role[0] in role;
      StripTrimmed(role[0]);
      NormalizeClean(role[1..]);
      assert role == [role[0]] + role[1..];
    }
  }

  /** Normalising keeps the roles exactly when they have no blanks around them and none is empty. */
  lemma NormalizeIff(role: seq<string>, other: seq<string>)
    ensures multiset(NormalizeRole(role)) == multiset(role) <==> CleanRole(role)
    ensures multiset(NormalizeRole(other)) == multiset(role) ==> CleanRole(role)
  {
    hide Trimmed;
    if CleanRole(role) {
      NormalizeClean(role);
    }
    forall r: seq<string> | multiset(NormalizeRole(r)) == multiset(role)
      ensures CleanRole(role)
    {
      forall t | t in role
        ensures t != "" && Trimmed(t)
      {
        assert t in multiset(role);
        assert t in NormalizeRole(r);
      }
    }
  }

  predicate DistinctNames(certs: seq<Cert>) {
    forall i, j :: 0 <= i < j < |certs| ==> certs[i].cname != certs[j].cname
  }

  lemma {:induction false} TableEntry(certs: seq<Cert>, c: Cert)
    requires c in certs && forall d :: d in certs && d.cname == c.cname ==> d == c
    ensures c.cname in TableOf(certs) && TableOf(certs)[c.cname] == Entry(c)
  {
    hide Entry;
    if c in certs[1..] {
      TableEntry(certs[1..], c);
    } else {
      assert c == certs[0];
      assert forall d :: d in certs[1..] ==> d in certs;
      TableNames(certs[1..], c.cname);
    }
  }

  /**
   The patch sets authentication and every listed entry: an entry that granted the wanted
   roles is left alone, any other holds exactly these roles. Nothing else changes.
   */
  lemma ReconciledExact(doc: Json, certs: seq<Cert>, c: Cert)
    requires WellFormed(doc) && DistinctNames(certs)
    ensures var next := Reconciled(doc, certs);
            && Authenticated(next) && Gnmi(next) == Gnmi(doc)["user_auth" := JStr("cert")]
            && (c in certs ==>
                  && c.cname in Certificates(next)
                  && (if Granted(doc, c) then c.cname in Certificates(doc) && Certificates(next)[c.cname] == Certificates(doc)[c.cname]
                      else Certificates(next)[c.cname] == JObj(map["role" := JList(c.role)])))
            && (forall n :: (forall d :: d in certs ==> d.cname != n) ==>
                  (n in Certificates(next) <==> n in Certificates(doc)) &&
                  (n in Certificates(doc) ==> Certificates(next)[n] == Certificates(doc)[n]))
            && (forall t :: t in doc.fields && t != CERTS && t != "TELEMETRY" ==> t in next.fields && next.fields[t] == doc.fields[t])
  {
    hide UpToDate, Granted, Authenticated, TableOf, DistinctNames;
    var needed := Needed(doc, certs);
    var next := Reconciled(doc, certs);
    assert Gnmi(doc)["user_auth" := JStr("cert")] == Gnmi(next);
    AuthSetIff(next);
    UpToDateIff(doc, c);
    forall n | forall d :: d in certs ==> d.cname != n
      ensures n !in TableOf(needed)
    {
      TableNames(needed, n);
    }
    if c in certs {
      NamesDiffer(certs, c);
      if UpToDate(doc, c) {
        StaysInPlace(doc, certs, c);
      } else {
        TableEntry(needed, c);
      }
    }
  }

  lemma NamesDiffer(certs: seq<Cert>, c: Cert)
    requires DistinctNames(certs) && c in certs
    ensures forall d :: d in certs && d.cname == c.cname ==> d == c
  {
  }

  lemma StaysInPlace(doc: Json, certs: seq<Cert>, c: Cert)
    requires UpToDate(doc, c) && forall d :: d in certs && d.cname == c.cname ==> d == c
    ensures c.cname in Certificates(doc) && c.cname !in TableOf(Needed(doc, certs))
  {
    hide TableOf;
    TableNames(Needed(doc, certs), c.cname);
  }

  /**
   After the patch is applied the next patch is empty if and only if no wanted role is
   empty or has blanks around it.
   */
  lemma ConvergesIff(doc: Json, certs: seq<Cert>)
    requires WellFormed(doc) && DistinctNames(certs)
    ensures EnabledPatch(Reconciled(doc, certs), certs) == [] <==> forall c :: c in certs ==> CleanRole(c.role)
  {
    hide Reconciled, EnabledPatch, WellFormed, DistinctNames, Authenticated, Granted, CleanRole;
    var next := Reconciled(doc, certs);
    ReconciledExact(doc, certs, Cert("", []));
    forall c | c in certs
      ensures Granted(next, c) <==> CleanRole(c.role)
    {
      SettledIff(doc, certs, c);
    }
    PatchEmptyIff(next, certs);
  }

  /** There is nothing to patch exactly when authentication is set and every wanted role is granted. */
  lemma PatchEmptyIff(doc: Json, certs: seq<Cert>)
    ensures EnabledPatch(doc, certs) == [] <==> Authenticated(doc) && forall c :: c in certs ==> Granted(doc, c)
  {
    hide AuthSet, UpToDate, Certificates, TableOf, Granted, Authenticated;
    var needed := Needed(doc, certs);
    AuthSetIff(doc);
    forall c | c in certs
      ensures UpToDate(doc, c) <==> Granted(doc, c)
    {
      UpToDateIff(doc, c);
    }
    if needed != [] {
      assert needed[0] in needed;
    }
  }

  /**
   The patched database authenticates by certificate and grants every client its wanted roles,
   unless one of these is empty or has blanks around it.
   */
  lemma PatchGrants(doc: Json, certs: seq<Cert>, c: Cert)
    requires WellFormed(doc) && DistinctNames(certs) && c in certs
    requires Certificates(doc) == map[] || forall d :: d in certs && !Granted(doc, d) ==> PathSafe(d.cname)
    ensures var next := ApplyAll(doc, EnabledPatch(doc, certs));
            && next.Ok? && Authenticated(next.value)
            && (Granted(next.value, c) <==> CleanRole(c.role))
  {
    hide ApplyAll, EnabledPatch, Reconciled, WellFormed, DistinctNames, Granted, Authenticated, UpToDate, CleanRole, Certificates;
    forall d | d in Needed(doc, certs)
      ensures d in certs && !Granted(doc, d)
    {
      UpToDateIff(doc, d);
    }
    PatchApplies(doc, certs);
    ReconciledExact(doc, certs, c);
    SettledIff(doc, certs, c);
  }

  /** The clients in order whose wanted roles are not granted. */
  ghost function Missing(doc: Json, certs: seq<Cert>): seq<Cert> {
    if certs == [] then []
    else if Granted(doc, certs[0]) then Missing(doc, certs[1..])
    else [certs[0]] + Missing(doc, certs[1..])
  }

  lemma {:induction false} NeededIsMissing(doc: Json, certs: seq<Cert>)
    ensures Needed(doc, certs) == Missing(doc, certs)
  {
    hide UpToDate, Granted;
    if certs != [] {
      UpToDateIff(doc, certs[0]);
      NeededIsMissing(doc, certs[1..]);
    }
  }

  lemma {:induction false} EntryOpsAt(existing: set<string>, certs: seq<Cert>, i: nat)
    requires i < |certs|
    ensures |EntryOps(existing, certs)| == |certs| && EntryOps(existing, certs)[i] == EntryOp(existing, certs[i])
  {
    hide EntryOp;
    if i > 0 {
      EntryOpsAt(existing, certs[1..], i - 1);
    } else if |certs| > 1 {
      EntryOpsAt(existing, certs[1..], 0);
    }
  }

  /**
   The patch itself: where the table has entries, one operation per client whose roles are
   missing, in order, that replaces what is there and adds what is not.
   */
  lemma PatchOps(doc: Json, certs: seq<Cert>, i: nat)
    requires Certificates(doc) != map[] && i < |Missing(doc, certs)|
    ensures var patch, first := EnabledPatch(doc, certs), if Authenticated(doc) then 0 else 1;
            var c := Missing(doc, certs)[i];
            && |patch| == first + |Missing(doc, certs)|
            && (!Authenticated(doc) ==> patch[0] == Op(Add, "/TELEMETRY/gnmi/user_auth", JStr("cert")))
            && patch[first + i] == Op(if c.cname in Certificates(doc) then Replace else Add, "/GNMI_CLIENT_CERT/" + c.cname,
                                      JObj(map["role" := JList(c.role)]))
  {
    hide Needed, Missing, Granted, Authenticated, AuthSet, Certificates, EntryOps, TableOf;
    NeededIsMissing(doc, certs);
    AuthSetIff(doc);
    EntryOpsAt(Certificates(doc).Keys, Needed(doc, certs), i);
    assert AUTH_PATH == "/TELEMETRY/gnmi/user_auth" && "/" + CERTS + "/" == "/GNMI_CLIENT_CERT/";
  }

  /** Where the table is empty or absent, one operation that adds it with exactly the missing entries. */
  lemma PatchTable(doc: Json, certs: seq<Cert>)
    requires Certificates(doc) == map[] && Missing(doc, certs) != [] && DistinctNames(certs)
    ensures var patch := EnabledPatch(doc, certs);
            && |patch| == (if Authenticated(doc) then 1 else 2)
            && (!Authenticated(doc) ==> patch[0] == Op(Add, "/TELEMETRY/gnmi/user_auth", JStr("cert")))
            && var last := patch[|patch|-1];
               && last.kind == Add && last.path == "/GNMI_CLIENT_CERT" && last.value.JObj?
               && (forall n :: n in last.value.fields <==> exists c :: c in Missing(doc, certs) && c.cname == n)
               && forall c :: c in Missing(doc, certs) ==>
                    c.cname in last.value.fields && last.value.fields[c.cname] == JObj(map["role" := JList(c.role)])
  {
    hide Needed, Missing, Granted, Authenticated, AuthSet, Certificates, EntryOps, TableOf, DistinctNames;
    NeededIsMissing(doc, certs);
    AuthSetIff(doc);
    assert AUTH_PATH == "/TELEMETRY/gnmi/user_auth" && "/" + CERTS == "/GNMI_CLIENT_CERT";
    var missing := Missing(doc, certs);
    forall n
      ensures n in TableOf(missing) <==> exists c :: c in missing && c.cname == n
    {
      TableNames(missing, n);
    }
    MissingFrom(doc, certs);
    forall c | c in missing
      ensures c.cname in TableOf(missing) && TableOf(missing)[c.cname] == Entry(c)
    {
      NamesDiffer(certs, c);
      TableEntry(missing, c);
    }
  }

  lemma {:induction false} MissingFrom(doc: Json, certs: seq<Cert>)
    ensures forall c :: c in Missing(doc, certs) <==> c in certs && !Granted(doc, c)
  {
    hide Granted;
    if certs != [] {
      MissingFrom(doc, certs[1..]);
      assert forall c :: c in certs <==> c == certs[0] || c in certs[1..];
    }
  }

  lemma SettledIff(doc: Json, certs: seq<Cert>, c: Cert)
    requires WellFormed(doc) && DistinctNames(certs) && c in certs
    ensures Granted(Reconciled(doc, certs), c) <==> CleanRole(c.role)
  {
    hide Reconciled, WellFormed, DistinctNames, CleanRole, NormalizeRole, Certificates, Granted;
    ReconciledExact(doc, certs, c);
    UpToDateIff(doc, c);
    UpToDateIff(Reconciled(doc, certs), c);
    if UpToDate(doc, c) {
      NormalizeIff(c.role, Certificates(doc)[c.cname].fields["role"].items);
    } else {
      NormalizeIff(c.role, []);
    }
  }
}
