/** Merging component lists: the first component of a group wins, later ones lend it their CPEs. */
module SbomMerge {
  import opened Texts
  import opened BuildVersions

  /** A component record; the empty string or list stands for an absent field, `rest` for all other fields. */
  datatype Component = Component(
    purl: string, bomRef: string, name: string, version: string, arch: string,
    cpe: string, cpes: seq<string>, rest: map<string, string>)

  datatype Key =
    | Purl(purl: string)
    | BomRef(bomRef: string)
    | Exact(name: string, version: string, arch: string)
    | Normal(name: string, version: string, arch: string)

  /** The version compared across builds. */
  function BuildVersion(v: string): string {
    if NormalVersion(v) == "" then v else NormalVersion(v)
  }

  function DedupeKeys(c: Component): seq<Key> {
    (if c.purl != "" then [Purl(c.purl)] else [])
    + (if c.bomRef != "" && c.bomRef != c.purl then [BomRef(c.bomRef)] else [])
    + (if c.name != "" && c.version != "" then
         [Exact(Lower(c.name), c.version, c.arch), Normal(Lower(c.name), BuildVersion(c.version), c.arch)]
       else [])
  }

  /** The winner takes the CPE data it lacks. */
  function Promoted(winner: Component, loser: Component): (r: Component)
    ensures DedupeKeys(r) == DedupeKeys(winner)
  {
    winner.(cpe := if winner.cpe == "" then loser.cpe else winner.cpe,
            cpes := if winner.cpes == [] then loser.cpes else winner.cpes)
  }

  // ----- one component at a time -----

  datatype State = State(seen: map<Key, nat>, out: seq<Component>)

  function FirstSeen(seen: map<Key, nat>, keys: seq<Key>): (r: Option<nat>)
    ensures r.None? <==> forall k :: k in keys ==> k !in seen
    ensures r.Some? ==> exists k :: k in keys && k in seen && seen[k] == r.value
  {
    if keys == [] then None
    else if keys[0] in seen then
      assert keys[0] in keys;
      Some(seen[keys[0]])
    else
      var r := FirstSeen(seen, keys[1..]);
      assert forall k :: k in keys <==> k == keys[0] || k in keys[1..];
      r
  }

  function Recorded(seen: map<Key, nat>, keys: seq<Key>, n: nat): (r: map<Key, nat>)
    ensures forall k :: k in r <==> k in seen || k in keys
    ensures forall k :: k in r ==> r[k] == if k in keys then n else seen[k]
    decreases |keys|
  {
    if keys == [] then seen else Recorded(seen[keys[0] := n], keys[1..], n)
  }

  /** Every kept component is found by all its keys and by nothing else. */
  ghost predicate Valid(st: State) {
    && (forall k :: k in st.seen ==> st.seen[k] < |st.out| && k in DedupeKeys(st.out[st.seen[k]]))
    && (forall i, k :: 0 <= i < |st.out| && k in DedupeKeys(st.out[i]) ==> k in st.seen && st.seen[k] == i)
    && (forall i :: 0 <= i < |st.out| ==> DedupeKeys(st.out[i]) != [])
  }

  /** Where a component goes: nowhere without keys, to the component already found by its first known key, or to a new place. */
  function Place(st: State, c: Component): Option<nat> {
    if DedupeKeys(c) == [] then None
    else
      match FirstSeen(st.seen, DedupeKeys(c))
      case Some(w) => Some(w)
      case None => Some(|st.out|)
  }

  function Step(st: State, c: Component): State {
    match Place(st, c)
    case None => st
    case Some(w) =>
      if w < |st.out| then State(st.seen, st.out[w := Promoted(st.out[w], c)])
      else State(Recorded(st.seen, DedupeKeys(c), |st.out|), st.out + [c])
  }

  function MergeFrom(st: State, cs: seq<Component>): State
    decreases |cs|
  {
    if cs == [] then st else MergeFrom(Step(st, cs[0]), cs[1..])
  }

  function Merge(cs: seq<Component>): seq<Component> {
    MergeFrom(State(map[], []), cs).out
  }

  function Flatten(sources: seq<seq<Component>>): seq<Component> {
    if sources == [] then [] else sources[0] + Flatten(sources[1..])
  }

  method MergeComponents(sources: seq<seq<Component>>) returns (out: seq<Component>)
    ensures out == Merge(Flatten(sources))
  {
    var seen: map<Key, nat> := map[];
    out := [];
    ghost var all := Flatten(sources);
    assert sources[0..] == sources;
    for i := 0 to |sources|
      invariant Valid(State(seen, out))
      invariant MergeFrom(State(seen, out), Flatten(sources[i..])) == MergeFrom(State(map[], []), all)
    {
      seen, out := MergeSource(sources[i], seen, out, Flatten(sources[i+1..]));
      assert sources[i..][0] == sources[i] && sources[i..][1..] == sources[i+1..];
    }
  }

  method MergeSource(source: seq<Component>, before: map<Key, nat>, kept: seq<Component>, ghost later: seq<Component>)
    returns (seen: map<Key, nat>, out: seq<Component>)
    requires Valid(State(before, kept))
    ensures Valid(State(seen, out))
    ensures State(seen, out) == MergeFrom(State(before, kept), source)
    ensures MergeFrom(State(seen, out), later) == MergeFrom(State(before, kept), source + later)
  {
    hide Valid, DedupeKeys;
    seen, out := before, kept;
    assert source[0..] == source;
    for i := 0 to |source|
      invariant Valid(State(seen, out))
      invariant MergeFrom(State(seen, out), source[i..]) == MergeFrom(State(before, kept), source)
    {
      var c := source[i];
      assert source[i..][0] == c && source[i..][1..] == source[i+1..];
      StepValid(State(seen, out), c);
      ghost var st := State(seen, out);
      var keys := DedupeKeys(c);
      if keys != [] {
        var winner := FirstSeen(seen, keys);
        match winner {
          case Some(w) =>
            SeenBound(st, c, w);
            out := out[w := Promoted(out[w], c)];
          case None =>
            seen := Recorded(seen, keys, |out|);
            out := out + [c];
        }
      }
      assert State(seen, out) == Step(st, c);
    }
    MergeAppend(State(before, kept), source, later);
  }

  lemma SeenBound(st: State, c: Component, w: nat)
    requires Valid(st) && FirstSeen(st.seen, DedupeKeys(c)) == Some(w)
    ensures w < |st.out|
  {
    hide DedupeKeys;
  }

  lemma StepValid(st: State, c: Component)
    requires Valid(st)
    ensures Valid(Step(st, c))
  {
    hide Valid, DedupeKeys, Recorded, Promoted;
    match Place(st, c)
    case None =>
    case Some(w) =>
      PlaceBound(st, c);
      if w < |st.out| {
        PromoteValid(st, w, c);
      } else {
        NewPlace(st, c);
        AppendValid(st, c);
      }
  }

  lemma NewPlace(st: State, c: Component)
    requires Valid(st) && Place(st, c) == Some(|st.out|)
    ensures DedupeKeys(c) != [] && forall k :: k in DedupeKeys(c) ==> k !in st.seen
  {
    hide DedupeKeys;
  }

  lemma PromoteValid(st: State, w: nat, c: Component)
    requires Valid(st) && w < |st.out|
    ensures Valid(State(st.seen, st.out[w := Promoted(st.out[w], c)]))
  {
    hide DedupeKeys, Promoted;
  }

  lemma AppendValid(st: State, c: Component)
    requires Valid(st) && DedupeKeys(c) != [] && forall k :: k in DedupeKeys(c) ==> k !in st.seen
    ensures Valid(State(Recorded(st.seen, DedupeKeys(c), |st.out|), st.out + [c]))
  {
    hide DedupeKeys, Recorded;
    var next := State(Recorded(st.seen, DedupeKeys(c), |st.out|), st.out + [c]);
    forall i, k | 0 <= i < |next.out| && k in DedupeKeys(next.out[i])
      ensures k in next.seen && next.seen[k] == i
    {
      if i < |st.out| {
        assert next.out[i] == st.out[i];
        assert k in st.seen && st.seen[k] == i;
      }
    }
  }

  lemma {:induction false} MergeValid(st: State, cs: seq<Component>)
    requires Valid(st)
    ensures Valid(MergeFrom(st, cs))
    decreases |cs|
  {
    hide Valid, Step;
    if cs != [] {
      StepValid(st, cs[0]);
      MergeValid(Step(st, cs[0]), cs[1..]);
    }
  }

  lemma {:induction false} MergeAppend(st: State, a: seq<Component>, b: seq<Component>)
    ensures MergeFrom(st, a + b) == MergeFrom(MergeFrom(st, a), b)
    decreases |a|
  {
    hide Step;
    if a == [] {
      assert a + b == b;
    } else {
      MergeAppend(Step(st, a[0]), a[1..], b);
      assert (a + b)[1..] == a[1..] + b;
    }
  }

  // ----- the greedy law -----

  lemma KeyPlace(st: State, i: nat, k: Key)
    requires Valid(st) && i < |st.out| && k in DedupeKeys(st.out[i])
    ensures k in st.seen && st.seen[k] == i
  {
    hide DedupeKeys;
  }

  /** The merged components have pairwise disjoint, non-empty key sets. */
  lemma KeptDisjoint(cs: seq<Component>, i: nat, j: nat, k: Key)
    requires i < |Merge(cs)| && j < |Merge(cs)| && k in DedupeKeys(Merge(cs)[i]) && k in DedupeKeys(Merge(cs)[j])
    ensures i == j
  {
    hide DedupeKeys, MergeFrom;
    MergeValid(State(map[], []), cs);
    var st := MergeFrom(State(map[], []), cs);
    KeyPlace(st, i, k);
    KeyPlace(st, j, k);
  }

  /** The place each component goes to. */
  function Places(st: State, cs: seq<Component>): (r: seq<Option<nat>>)
    ensures |r| == |cs|
    decreases |cs|
  {
    if cs == [] then [] else [Place(st, cs[0])] + Places(Step(st, cs[0]), cs[1..])
  }

  /** The components that go to place `i`, in order. */
  function Group(st: State, cs: seq<Component>, i: nat): seq<Component>
    decreases |cs|
  {
    if cs == [] then []
    else
      var rest := Group(Step(st, cs[0]), cs[1..], i);
      if Place(st, cs[0]) == Some(i) then [cs[0]] + rest else rest
  }

  /** The CPE data a winner ends up with: its own, else that of the first of the others that has any. */
  function PromotedBy(winner: Component, losers: seq<Component>): Component
    decreases |losers|
  {
    if losers == [] then winner else PromotedBy(Promoted(winner, losers[0]), losers[1..])
  }

  lemma {:induction false} MergeGrows(st: State, cs: seq<Component>)
    ensures |MergeFrom(st, cs).out| >= |st.out|
    decreases |cs|
  {
    hide DedupeKeys;
    if cs != [] {
      MergeGrows(Step(st, cs[0]), cs[1..]);
    }
  }

  /**
   Each merged component is the first of its group, with CPE data from the rest of the
   group; the places already filled keep their components as winners.
   */
  lemma {:induction false} GroupLaw(st: State, cs: seq<Component>, i: nat)
    requires Valid(st) && i < |MergeFrom(st, cs).out|
    ensures var g := Group(st, cs, i);
            if i < |st.out| then MergeFrom(st, cs).out[i] == PromotedBy(st.out[i], g)
            else g != [] && MergeFrom(st, cs).out[i] == PromotedBy(g[0], g[1..])
    decreases |cs|
  {
    hide Valid, DedupeKeys, Promoted, FirstSeen, Recorded;
    if cs != [] {
      var next := Step(st, cs[0]);
      StepValid(st, cs[0]);
      GroupLaw(next, cs[1..], i);
      PlaceBound(st, cs[0]);
      var g, rest := Group(st, cs, i), Group(next, cs[1..], i);
      if Place(st, cs[0]) == Some(i) {
        assert g[0] == cs[0] && g[1..] == rest;
      }
    }
  }

  lemma PlaceBound(st: State, c: Component)
    requires Valid(st)
    ensures Place(st, c).Some? ==> Place(st, c).value <= |st.out|
  {
    hide DedupeKeys;
  }

  /** A component goes nowhere exactly when it has no keys; otherwise it shares a key with the winner of its group. */
  lemma {:induction false} PlaceLaw(st: State, cs: seq<Component>, j: nat)
    requires Valid(st) && j < |cs|
    ensures var p := Places(st, cs)[j];
            && (p.None? <==> DedupeKeys(cs[j]) == [])
            && (p.Some? ==>
                  && p.value < |MergeFrom(st, cs).out|
                  && exists k :: k in DedupeKeys(cs[j]) && k in DedupeKeys(MergeFrom(st, cs).out[p.value]))
    decreases |cs|
  {
    hide Valid, DedupeKeys;
    var next := Step(st, cs[0]);
    StepValid(st, cs[0]);
    if j > 0 {
      PlaceLaw(next, cs[1..], j - 1);
    } else if DedupeKeys(cs[0]) != [] {
      var w := Place(st, cs[0]).value;
      SharesKey(st, cs[0]);
      MergeGrows(next, cs[1..]);
      KeysStay(next, cs[1..], w);
    }
  }

  lemma {:induction false} FirstSeenIs(seen: map<Key, nat>, keys: seq<Key>, i: nat)
    requires i < |keys| && keys[i] in seen && forall j :: 0 <= j < i ==> keys[j] !in seen
    ensures FirstSeen(seen, keys) == Some(seen[keys[i]])
  {
    if i > 0 {
      assert keys[0] !in seen;
      FirstSeenIs(seen, keys[1..], i - 1);
    }
  }

  /** A kept component has this key. */
  ghost predicate Kept(st: State, k: Key) {
    exists i :: 0 <= i < |st.out| && k in DedupeKeys(st.out[i])
  }

  /** Package URLs go before references, exact versions and versions up to epoch and suffixes. */
  function Rank(k: Key): nat {
    match k
    case Purl(_) => 0
    case BomRef(_) => 1
    case Exact(_, _, _) => 2
    case Normal(_, _, _) => 3
  }

  lemma RanksAscend(c: Component)
    ensures forall i, j :: 0 <= i < j < |DedupeKeys(c)| ==> Rank(DedupeKeys(c)[i]) < Rank(DedupeKeys(c)[j])
  {
    hide Lower, BuildVersion;
  }

  /** A component joins the kept one that has its first known key, in order of rank. */
  lemma Precedence(st: State, c: Component, k: Key, w: nat)
    requires Valid(st) && w < |st.out| && k in DedupeKeys(c) && k in DedupeKeys(st.out[w])
    requires forall l :: l in DedupeKeys(c) && Rank(l) < Rank(k) ==> !Kept(st, l)
    ensures Place(st, c) == Some(w)
  {
    hide DedupeKeys, Kept;
    var keys := DedupeKeys(c);
    var i :| 0 <= i < |keys| && keys[i] == k;
    RanksAscend(c);
    SeenIsKept(st, k);
    forall j | 0 <= j < i
      ensures keys[j] !in st.seen
    {
      assert keys[j] in keys;
      SeenIsKept(st, keys[j]);
    }
    FirstSeenIs(st.seen, keys, i);
  }

  lemma SeenIsKept(st: State, k: Key)
    requires Valid(st)
    ensures k in st.seen <==> Kept(st, k)
    ensures forall w :: 0 <= w < |st.out| && k in DedupeKeys(st.out[w]) ==> k in st.seen && st.seen[k] == w
  {
    hide DedupeKeys;
  }

  lemma SharesKey(st: State, c: Component)
    requires Valid(st) && DedupeKeys(c) != []
    ensures var w := Place(st, c).value;
            w < |Step(st, c).out| && exists k :: k in DedupeKeys(c) && k in DedupeKeys(Step(st, c).out[w])
  {
    hide DedupeKeys;
    match FirstSeen(st.seen, DedupeKeys(c))
    case Some(w) =>
      var k :| k in DedupeKeys(c) && k in st.seen && st.seen[k] == w;
      assert k in DedupeKeys(Step(st, c).out[w]);
    case None =>
      assert DedupeKeys(c)[0] in DedupeKeys(c);
  }

  lemma {:induction false} KeysStay(st: State, cs: seq<Component>, i: nat)
    requires i < |st.out|
    ensures i < |MergeFrom(st, cs).out| && DedupeKeys(MergeFrom(st, cs).out[i]) == DedupeKeys(st.out[i])
    decreases |cs|
  {
    hide DedupeKeys, FirstSeen, Recorded;
    if cs != [] {
      KeysStay(Step(st, cs[0]), cs[1..], i);
    }
  }

  function FirstCpe(cs: seq<Component>): string {
    if cs == [] then "" else if cs[0].cpe != "" then cs[0].cpe else FirstCpe(cs[1..])
  }

  function FirstCpes(cs: seq<Component>): seq<string> {
    if cs == [] then [] else if cs[0].cpes != [] then cs[0].cpes else FirstCpes(cs[1..])
  }

  /** Promotion changes nothing but absent CPE data, which it takes from the first of the group that has any. */
  lemma {:induction false} PromotionLaw(winner: Component, losers: seq<Component>)
    ensures PromotedBy(winner, losers) ==
            winner.(cpe := FirstCpe([winner] + losers), cpes := FirstCpes([winner] + losers))
    decreases |losers|
  {
    hide DedupeKeys;
    var all := [winner] + losers;
    assert all[1..] == losers;
    if losers == [] {
      assert FirstCpe(losers) == "" && FirstCpes(losers) == [];
    } else {
      var next := Promoted(winner, losers[0]);
      PromotionLaw(next, losers[1..]);
      assert ([next] + losers[1..])[1..] == losers[1..];
    }
  }

  // ----- merging in stages -----

  /** The state restricted to its first `n` components. */
  ghost predicate IsPart(part: State, st: State, n: nat)
    requires n <= |st.out|
  {
    && part.out == st.out[..n]
    && (forall k :: k in part.seen <==> k in st.seen && st.seen[k] < n)
    && (forall k :: k in part.seen ==> part.seen[k] == st.seen[k])
  }

  lemma PartStep(part: State, st: State, n: nat)
    requires Valid(st) && n < |st.out| && IsPart(part, st, n)
    ensures IsPart(Step(part, st.out[n]), st, n + 1)
  {
    hide DedupeKeys, Recorded;
    var c := st.out[n];
    forall k | k in DedupeKeys(c)
      ensures k in st.seen && st.seen[k] == n && k !in part.seen
    {
      assert k in DedupeKeys(st.out[n]);
    }
    assert FirstSeen(part.seen, DedupeKeys(c)).None?;
    assert Step(part, c) == State(Recorded(part.seen, DedupeKeys(c), n), part.out + [c]);
    assert st.out[..n+1] == st.out[..n] + [c];
    PartKeys(st, n);
  }

  lemma PartKeys(st: State, n: nat)
    requires Valid(st) && n < |st.out|
    ensures forall k :: k in st.seen && st.seen[k] == n <==> k in DedupeKeys(st.out[n])
  {
    hide DedupeKeys;
  }

  /** Merging the components of a state again rebuilds the state. */
  lemma {:induction false} Refold(st: State, n: nat)
    requires Valid(st) && n <= |st.out|
    ensures IsPart(MergeFrom(State(map[], []), st.out[..n]), st, n)
  {
    hide DedupeKeys, Valid, Step;
    if n > 0 {
      Refold(st, n - 1);
      var before, c := st.out[..n-1], st.out[n-1];
      assert st.out[..n] == before + [c];
      var part := MergeFrom(State(map[], []), before);
      PartStep(part, st, n - 1);
      MergeAppend(State(map[], []), before, [c]);
      assert MergeFrom(part, [c]) == Step(part, c) by {
        assert [c][1..] == [];
      }
    }
  }

  lemma RefoldWhole(st: State)
    requires Valid(st)
    ensures MergeFrom(State(map[], []), st.out) == st
  {
    hide DedupeKeys, MergeFrom;
    Refold(st, |st.out|);
    assert st.out[..|st.out|] == st.out;
    assert MergeFrom(State(map[], []), st.out).seen == st.seen;
  }

  /** Merging in stages is the same as merging at once. */
  lemma MergeInStages(a: seq<Component>, b: seq<Component>)
    ensures Merge(Merge(a) + b) == Merge(a + b)
  {
    hide Valid, MergeFrom;
    var empty := State(map[], []);
    assert Valid(empty) by { EmptyValid(); }
    MergeValid(empty, a);
    RefoldWhole(MergeFrom(empty, a));
    MergeAppend(empty, Merge(a), b);
    MergeAppend(empty, a, b);
  }

  lemma {:induction false} FlattenAppend(a: seq<seq<Component>>, b: seq<seq<Component>>)
    ensures Flatten(a + b) == Flatten(a) + Flatten(b)
  {
    if a == [] {
      assert a + b == b;
    } else {
      FlattenAppend(a[1..], b);
      assert (a + b)[1..] == a[1..] + b;
      SeqAssoc(a[0], Flatten(a[1..]), Flatten(b));
    }
  }

  /** One more source is merged behind what all earlier sources gave. */
  lemma SourcesInOrder(sources: seq<seq<Component>>, last: seq<Component>)
    ensures Merge(Flatten(sources + [last])) == Merge(Merge(Flatten(sources)) + last)
  {
    hide Merge;
    FlattenAppend(sources, [last]);
    assert [last][1..] == [] && Flatten([]) == [] && last + [] == last;
    MergeInStages(Flatten(sources), last);
  }

  lemma EmptyValid()
    ensures Valid(State(map[], []))
  {
  }

  // ----- what counts as the same component -----

  predicate Versioned(c: Component) {
    c.name != "" && c.version != ""
  }

  lemma KeyMembers(c: Component, k: Key)
    ensures k in DedupeKeys(c) <==>
            match k
            case Purl(p) => c.purl == p != ""
            case BomRef(b) => c.bomRef == b != "" && b != c.purl
            case Exact(n, v, a) => Versioned(c) && n == Lower(c.name) && v == c.version && a == c.arch
            case Normal(n, v, a) => Versioned(c) && n == Lower(c.name) && v == BuildVersion(c.version) && a == c.arch
  {
    hide Lower, BuildVersion;
  }

  /**
   Two components share a key exactly when they have the same package URL, the same
   reference of its own, or the same name and architecture with versions that agree up to
   epoch and build suffixes.
   */
  lemma SharesKeyIff(c: Component, d: Component)
    ensures (exists k :: k in DedupeKeys(c) && k in DedupeKeys(d)) <==>
            || c.purl == d.purl != ""
            || (c.bomRef == d.bomRef != "" && c.bomRef != c.purl && d.bomRef != d.purl)
            || (&& c.name != "" && c.version != "" && d.name != "" && d.version != ""
                && Lower(c.name) == Lower(d.name) && c.arch == d.arch
                && (if NormalVersion(c.version) == "" then c.version else NormalVersion(c.version)) ==
                   (if NormalVersion(d.version) == "" then d.version else NormalVersion(d.version)))
  {
    hide DedupeKeys, Lower, NormalVersion;
    if exists k :: k in DedupeKeys(c) && k in DedupeKeys(d) {
      var k :| k in DedupeKeys(c) && k in DedupeKeys(d);
      KeyMembers(c, k);
      KeyMembers(d, k);
    }
    KeyMembers(c, Purl(c.purl));
    KeyMembers(d, Purl(c.purl));
    KeyMembers(c, BomRef(c.bomRef));
    KeyMembers(d, BomRef(c.bomRef));
    KeyMembers(c, Normal(Lower(c.name), BuildVersion(c.version), c.arch));
    KeyMembers(d, Normal(Lower(c.name), BuildVersion(c.version), c.arch));
  }

  /** The recipe's version and the same one with an epoch and build suffixes, of one package, always share a key. */
  lemma NoiseShares(c: Component, d: Component, n: string, ts: seq<string>)
    requires c.name != "" && c.version != "" && |c.name| == |d.name| && c.arch == d.arch
    requires forall i :: 0 <= i < |c.name| ==> SameLetter(c.name[i], d.name[i])
    requires SomeDigits(n) && (forall t :: t in ts ==> SuffixText(t)) && !HasEpoch(c.version) && NormalVersion(c.version) != ""
    requires d.version == n + ":" + c.version + ChainOf(ts)
    ensures exists k :: k in DedupeKeys(c) && k in DedupeKeys(d)
  {
    hide DedupeKeys, Lower, NormalVersion, HasEpoch, SuffixText, ChainOf;
    NoiseIgnored(n, c.version, ts);
    LowerIff(c.name, d.name);
    SharesKeyIff(c, d);
  }
}
