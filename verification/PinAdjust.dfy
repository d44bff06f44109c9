/**
 Laws of `adjust`: what it preserves, its normal form, and exactly when it changes meaning.
 */
module PinAdjust {
  import opened PinLayers
  import opened PinModules

  /** The levels strictly more generic than `k`. */
  function Below(k: Key): seq<Key> {
    Levels(k)[..|Levels(k)|-1]
  }

  lemma BelowLevels(k: Key)
    requires Named(k)
    ensures Ascending(Below(k))
    ensures k !in Below(k) && Levels(k)[|Below(k)|] == k
    ensures forall b :: b in Below(k) ==> !KeyLeq(k, b)
  {
    LevelsAscending(k);
    KeyTotal(k, k);
    assert Levels(k)[|Levels(k)|-1] == k;
  }

  lemma AdjustSortedSorted(ls: seq<Layer>)
    requires Sorted(ls)
    ensures Sorted(AdjustSorted(ls))
  {
  }

  // ----- the layers at one key -----

  /** Every layer at `k` that pins `p` pins it to `v`. */
  predicate Echoes(ls: seq<Layer>, k: Key, p: string, v: string) {
    forall x :: x in ls && x.key == k && p in x.versions ==> x.versions[p] == v
  }

  /** The pins at `k` other than those that all layers there take over from `base`. */
  function Kept(ls: seq<Layer>, k: Key, base: Pins): Pins {
    map p | p in At(ls, k) && !(p in base && Echoes(ls, k, p, base[p])) :: At(ls, k)[p]
  }

  /** A pin at a key is some layer's there. */
  lemma {:induction false} AtFrom(ls: seq<Layer>, k: Key, p: string)
    ensures p in At(ls, k) ==> exists x :: x in ls && x.key == k && p in x.versions && x.versions[p] == At(ls, k)[p]
    ensures p !in At(ls, k) ==> forall x :: x in ls && x.key == k ==> p !in x.versions
  {
    hide At;
    if ls == [] {
      AtAbsent(ls, k);
    } else {
      var n := |ls| - 1;
      var t, x := ls[..n], ls[n];
      AtFrom(t, k, p);
      LastSplit(ls);
      AtSnoc(t, x, k);
      if p in At(ls, k) && !(x.key == k && p in x.versions) {
        var y :| y in t && y.key == k && p in y.versions && y.versions[p] == At(t, k)[p];
        assert y in ls;
      }
    }
  }

  lemma EchoesValue(ls: seq<Layer>, k: Key, p: string, v: string)
    requires Echoes(ls, k, p, v)
    ensures p in At(ls, k) ==> At(ls, k)[p] == v
  {
    hide At;
    AtFrom(ls, k, p);
  }

  lemma EchoesSnoc(ls: seq<Layer>, x: Layer, k: Key, p: string, v: string)
    ensures Echoes(ls + [x], k, p, v) <==> Echoes(ls, k, p, v) && (x.key == k && p in x.versions ==> x.versions[p] == v)
  {
    assert forall y :: y in ls + [x] <==> y in ls || y == x;
  }

  /** On top of the base, nothing is lost. */
  lemma KeptOverride(ls: seq<Layer>, k: Key, base: Pins)
    ensures base + Kept(ls, k, base) == base + At(ls, k)
  {
    hide At, Echoes;
    forall p | p in At(ls, k) && p in base && Echoes(ls, k, p, base[p])
      ensures At(ls, k)[p] == base[p]
    {
      EchoesValue(ls, k, p, base[p]);
    }
  }

  lemma KeptNone(ls: seq<Layer>, k: Key, base: Pins)
    ensures At(ls, k) == map[] ==> Kept(ls, k, base) == map[]
    ensures Kept(ls, k, map[]) == At(ls, k)
  {
    hide At, Echoes;
  }

  /** One more layer at the key loses what the base and the earlier layers leave. */
  lemma KeptSnoc(ls: seq<Layer>, x: Layer, base: Pins)
    ensures var kept := Kept(ls, x.key, base);
            Kept(ls + [x], x.key, base) == kept + Minus(x.versions, base + kept)
  {
    hide At, Echoes;
    var k := x.key;
    var kept := Kept(ls, k, base);
    AtSnoc(ls, x, k);
    KeptOverride(ls, k, base);
    forall p
      ensures p in base ==> (Echoes(ls + [x], k, p, base[p]) <==>
                Echoes(ls, k, p, base[p]) && (p in x.versions ==> x.versions[p] == base[p]))
      ensures p in base && p !in At(ls, k) ==> Echoes(ls, k, p, base[p])
      ensures p in base && p in At(ls, k) && Echoes(ls, k, p, base[p]) ==> At(ls, k)[p] == base[p]
    {
      if p in base {
        EchoesSnoc(ls, x, k, p, base[p]);
        NoneEchoes(ls, k, p, base[p]);
        if Echoes(ls, k, p, base[p]) {
          EchoesValue(ls, k, p, base[p]);
        }
      }
    }
    var left, right := Kept(ls + [x], k, base), kept + Minus(x.versions, base + kept);
    assert forall p :: p in left <==> p in right;
    assert forall p :: p in left ==> left[p] == right[p];
  }

  lemma NoneEchoes(ls: seq<Layer>, k: Key, p: string, v: string)
    ensures p !in At(ls, k) ==> Echoes(ls, k, p, v)
  {
    hide At;
    AtFrom(ls, k, p);
  }

  lemma KeptElsewhere(ls: seq<Layer>, x: Layer, k: Key, base: Pins)
    requires x.key != k
    ensures Kept(ls + [x], k, base) == Kept(ls, k, base)
  {
    hide At, Echoes;
    AtSnoc(ls, x, k);
    forall p | p in base
      ensures Echoes(ls + [x], k, p, base[p]) <==> Echoes(ls, k, p, base[p])
    {
      EchoesSnoc(ls, x, k, p, base[p]);
    }
  }

  /** The pins kept at a key depend on the layers there only. */
  lemma KeptSame(a: seq<Layer>, b: seq<Layer>, k: Key, base: Pins)
    requires At(a, k) == At(b, k) && forall x: Layer :: x.key == k ==> (x in a <==> x in b)
    ensures Kept(a, k, base) == Kept(b, k, base)
  {
    hide At;
  }

  // ----- adjusting a sorted list -----

  /** What is left at a key are the pins its layers do not take over from the reduced levels below. */
  lemma {:induction false} AdjustSortedAt(ls: seq<Layer>, k: Key)
    requires Sorted(ls) && Named(k)
    ensures At(AdjustSorted(ls), k) == Kept(ls, k, Stack(AdjustSorted(ls), Below(k)))
  {
    hide At, Kept;
    if ls == [] {
      AtAbsent([], k);
      KeptNone([], k, Stack(AdjustSorted(ls), Below(k)));
    } else {
      var n := |ls| - 1;
      var t, x := ls[..n], ls[n];
      var a := AdjustSorted(t);
      var x' := Layer(x.key, Minus(x.versions, Inherited(a, x.key)));
      LastSplit(ls);
      assert AdjustSorted(ls) == a + [x'];
      AdjustSortedAt(t, k);
      AdjustSortedSorted(t);
      KeysBefore(a, t, x);
      if x.key == k {
        AdjustStepSame(t, a, x);
      } else {
        AdjustStepOther(t, a, x, x', k);
      }
    }
  }

  lemma InheritedParts(a: seq<Layer>, k: Key)
    requires Sorted(a) && Named(k)
    ensures Inherited(a, k) == Stack(a, Below(k)) + At(a, k)
  {
    hide At;
    SortedInherited(a, k);
    BelowLevels(k);
    assert Levels(k) == Below(k) + [k];
    StackSnoc(a, Below(k), k);
  }

  lemma AdjustStepSame(t: seq<Layer>, a: seq<Layer>, x: Layer)
    requires Named(x.key) && Sorted(a) && At(a, x.key) == Kept(t, x.key, Stack(a, Below(x.key)))
    requires forall y :: y in a ==> KeyLeq(y.key, x.key)
    ensures var x' := Layer(x.key, Minus(x.versions, Inherited(a, x.key)));
            At(a + [x'], x.key) == Kept(t + [x], x.key, Stack(a + [x'], Below(x.key)))
  {
    hide At, Kept, Stack, Levels;
    var k := x.key;
    var x' := Layer(k, Minus(x.versions, Inherited(a, k)));
    AtSnoc(a, x', k);
    BelowLevels(k);
    StackPush(a, x', Below(k));
    InheritedParts(a, k);
    KeptSnoc(t, x, Stack(a, Below(k)));
  }

  lemma AdjustStepOther(t: seq<Layer>, a: seq<Layer>, x: Layer, x': Layer, k: Key)
    requires Named(k) && x.key == x'.key != k
    requires forall y :: y in a || y in t ==> KeyLeq(y.key, x.key)
    requires At(a, k) == Kept(t, k, Stack(a, Below(k)))
    ensures At(a + [x'], k) == Kept(t + [x], k, Stack(a + [x'], Below(k)))
  {
    hide At, Levels, Kept;
    AtSnoc(a, x', k);
    BelowLevels(k);
    StackPush(a, x', Below(k));
    KeptElsewhere(t, x, k, Stack(a + [x'], Below(k)));
    if x.key in Below(k) {
      AtAbsent(t, k);
      KeptNone(t, k, Stack(a, Below(k)));
      KeptNone(t, k, Stack(a + [x'], Below(k)));
    }
  }

  lemma KeysBefore(a: seq<Layer>, t: seq<Layer>, x: Layer)
    requires |a| == |t| && forall i :: 0 <= i < |t| ==> a[i].key == t[i].key
    requires forall i :: 0 <= i < |t| ==> KeyLeq(t[i].key, x.key)
    ensures forall y :: y in a ==> KeyLeq(y.key, x.key)
    ensures forall y :: y in t ==> KeyLeq(y.key, x.key)
  {
  }

  // ----- the closed form -----

  lemma StackSnoc(ls: seq<Layer>, levels: seq<Key>, k: Key)
    ensures Stack(ls, levels + [k]) == Stack(ls, levels) + At(ls, k)
  {
    assert (levels + [k])[..|levels|] == levels;
  }

  /** The meaning written out for each of the four shapes of a query. */
  function Meaning(ls: seq<Layer>, q: Key): Pins {
    var g := At(ls, Generic(q));
    if q == Generic(q) then g
    else if q.dist == ALL || q.arch == ALL then g + At(ls, q)
    else g + At(ls, ArchOnly(q)) + At(ls, DistOnly(q)) + At(ls, q)
  }

  lemma StackIsMeaning(ls: seq<Layer>, q: Key)
    ensures Stack(ls, Levels(q)) == Meaning(ls, q)
  {
    StackSnoc(ls, [], Generic(q));
    OverrideEmpty(At(ls, Generic(q)));
    assert [] + [Generic(q)] == [Generic(q)];
    if q == Generic(q) {
      assert Levels(q) == [Generic(q)];
    } else if q.dist == ALL || q.arch == ALL {
      assert Levels(q) == [Generic(q)] + [q];
      StackSnoc(ls, [Generic(q)], q);
    } else {
      var two := [Generic(q)] + [ArchOnly(q)];
      var three := two + [DistOnly(q)];
      assert Levels(q) == three + [q];
      StackSnoc(ls, [Generic(q)], ArchOnly(q));
      StackSnoc(ls, two, DistOnly(q));
      StackSnoc(ls, three, q);
    }
  }

  /**
   The pins a query sees once the module has been adjusted: a distribution-level pin
   that only repeats the generic one is gone, and an architecture-level pin shows through.
   */
  function Resolved(ls: seq<Layer>, q: Key): Pins {
    var g := At(ls, Generic(q));
    if q == Generic(q) then g
    else if q.dist == ALL || q.arch == ALL then g + At(ls, q)
    else g + At(ls, ArchOnly(q)) + Kept(ls, DistOnly(q), g) + At(ls, q)
  }

  function Reduced(ls: seq<Layer>, ct: string): seq<Layer> {
    AdjustSorted(Sort(Select(ls, OfCtype(ct))))
  }

  lemma GroupMembers(ls: seq<Layer>, ct: string)
    ensures forall x :: x in Sort(Select(ls, OfCtype(ct))) <==> x in ls && x.key.ctype == ct
  {
    var g := Select(ls, OfCtype(ct));
    SelectIn(ls, OfCtype(ct));
    SortMembers(g);
    forall x | x in ls && x.key.ctype == ct
      ensures x in g
    {
      SelectMember(ls, OfCtype(ct), x);
    }
  }

  lemma ReducedAt(ls: seq<Layer>, k: Key)
    requires Named(k)
    ensures At(Reduced(ls, k.ctype), k) == Kept(ls, k, Stack(Reduced(ls, k.ctype), Below(k)))
  {
    hide At, Kept, Sort, Select;
    var g := Select(ls, OfCtype(k.ctype));
    SortSorted(g);
    AdjustSortedAt(Sort(g), k);
    GroupAt(ls, k.ctype, k);
    GroupMembers(ls, k.ctype);
    KeptSame(Sort(g), ls, k, Stack(Reduced(ls, k.ctype), Below(k)));
  }

  lemma AdjustedAt(ls: seq<Layer>, k: Key)
    requires Named(k)
    ensures At(Adjust(ls), k) == Kept(ls, k, Stack(Adjust(ls), Below(k)))
  {
    ReducedAt(ls, k);
    ReducedIsAdjusted(ls, k.ctype, k);
    var a, r := Adjust(ls), Reduced(ls, k.ctype);
    forall b | b in Below(k) ensures At(a, b) == At(r, b) {
      BelowCtype(k, b);
      ReducedIsAdjusted(ls, k.ctype, b);
    }
    StackCong(a, r, Below(k));
  }

  lemma ReducedIsAdjusted(ls: seq<Layer>, ct: string, k: Key)
    requires k.ctype == ct
    ensures At(Adjust(ls), k) == At(Reduced(ls, ct), k)
  {
    AdjustAt(ls, k);
  }

  lemma BelowCtype(k: Key, b: Key)
    requires b in Below(k)
    ensures b.ctype == k.ctype
  {
    assert b in Levels(k);
  }

  /** Adjusting a module computes the closed form, at every query. */
  lemma AdjustMeaning(ls: seq<Layer>, q: Key)
    requires Named(q)
    ensures Stack(Adjust(ls), Levels(q)) == Resolved(ls, q)
  {
    hide At, Kept;
    var a := Adjust(ls);
    StackIsMeaning(a, q);
    var g := Generic(q);
    AdjustedAt(ls, g);
    assert Below(g) == [];
    KeptNone(ls, g, map[]);
    if q == g {
    } else if q.dist == ALL || q.arch == ALL {
      AdjustedOneUp(ls, q);
    } else {
      AdjustedOneUp(ls, ArchOnly(q));
      AdjustedOneUp(ls, DistOnly(q));
      AdjustedAt(ls, q);
      StackBelow(a, q);
      KeptOverride(ls, q, At(a, g) + At(a, ArchOnly(q)) + At(a, DistOnly(q)));
    }
  }

  lemma AdjustedOneUp(ls: seq<Layer>, k: Key)
    requires Named(k)
    requires k != Generic(k) && (k.dist == ALL || k.arch == ALL)
    requires At(Adjust(ls), Generic(k)) == At(ls, Generic(k))
    ensures At(Adjust(ls), k) == Kept(ls, k, At(ls, Generic(k)))
    ensures At(ls, Generic(k)) + At(Adjust(ls), k) == At(ls, Generic(k)) + At(ls, k)
  {
    hide At, Kept;
    AdjustedAt(ls, k);
    assert Below(k) == [] + [Generic(k)];
    StackSnoc(Adjust(ls), [], Generic(k));
    OverrideEmpty(At(Adjust(ls), Generic(k)));
    KeptOverride(ls, k, At(ls, Generic(k)));
  }

  lemma StackBelow(a: seq<Layer>, q: Key)
    requires q.dist != ALL && q.arch != ALL
    ensures Stack(a, Below(q)) == At(a, Generic(q)) + At(a, ArchOnly(q)) + At(a, DistOnly(q))
  {
    assert Below(q) == (([] + [Generic(q)]) + [ArchOnly(q)]) + [DistOnly(q)];
    StackSnoc(a, [], Generic(q));
    OverrideEmpty(At(a, Generic(q)));
    StackSnoc(a, [] + [Generic(q)], ArchOnly(q));
    StackSnoc(a, ([] + [Generic(q)]) + [ArchOnly(q)], DistOnly(q));
  }

  // ----- when adjusting preserves the meaning -----

  /**
   Every layer of a distribution that pins `p` pins it back to its generic version, over an
   architecture-level pin that differs, and the exact level is silent.
   */
  predicate MaskedPin(ls: seq<Layer>, q: Key, p: string) {
    var g, a := At(ls, Generic(q)), At(ls, ArchOnly(q));
    && p in g && p in a && a[p] != g[p] && p !in At(ls, q)
    && p in At(ls, DistOnly(q)) && Echoes(ls, DistOnly(q), p, g[p])
  }

  ghost predicate Masked(ls: seq<Layer>, q: Key) {
    q.dist != ALL && q.arch != ALL && exists p :: MaskedPin(ls, q, p)
  }

  /** Adjusting keeps the effective pins of a query exactly when no pin is masked there. */
  lemma AdjustPreservesIff(ls: seq<Layer>, q: Key)
    requires Named(q)
    ensures Effective(Adjust(ls), q) == Effective(ls, q) <==> !Masked(ls, q)
  {
    hide At, Kept, Effective, Adjust, Levels;
    EffectiveIsStack(Adjust(ls), q);
    EffectiveIsStack(ls, q);
    AdjustMeaning(ls, q);
    StackIsMeaning(ls, q);
    if q.dist != ALL && q.arch != ALL {
      if exists p :: MaskedPin(ls, q, p) {
        var p :| MaskedPin(ls, q, p);
        MaskedDiffers(ls, q, p);
      } else {
        UnmaskedAgrees(ls, q);
      }
    }
  }

  lemma MaskedDiffers(ls: seq<Layer>, q: Key, p: string)
    requires q.dist != ALL && q.arch != ALL && MaskedPin(ls, q, p)
    ensures Meaning(ls, q) != Resolved(ls, q)
  {
    hide At;
    var g, a, d, s := At(ls, Generic(q)), At(ls, ArchOnly(q)), At(ls, DistOnly(q)), At(ls, q);
    EchoesValue(ls, DistOnly(q), p, g[p]);
    assert (g + a + d + s)[p] == g[p];
    assert (g + a + Kept(ls, DistOnly(q), g) + s)[p] == a[p];
  }

  lemma UnmaskedAt(ls: seq<Layer>, q: Key, p: string)
    requires q.dist != ALL && q.arch != ALL && !MaskedPin(ls, q, p)
    ensures p in Meaning(ls, q) <==> p in Resolved(ls, q)
    ensures p in Meaning(ls, q) ==> Meaning(ls, q)[p] == Resolved(ls, q)[p]
  {
    hide At, Echoes;
    var g, k := At(ls, Generic(q)), DistOnly(q);
    if p in g && Echoes(ls, k, p, g[p]) {
      EchoesValue(ls, k, p, g[p]);
    }
  }

  lemma UnmaskedAgrees(ls: seq<Layer>, q: Key)
    requires q.dist != ALL && q.arch != ALL && forall p :: !MaskedPin(ls, q, p)
    ensures Meaning(ls, q) == Resolved(ls, q)
  {
    hide Meaning, Resolved, MaskedPin;
    forall p
      ensures p in Meaning(ls, q) <==> p in Resolved(ls, q)
      ensures p in Meaning(ls, q) ==> Meaning(ls, q)[p] == Resolved(ls, q)[p]
    {
      UnmaskedAt(ls, q, p);
    }
    SameMaps(Meaning(ls, q), Resolved(ls, q));
  }

  /** No layer is specific to an architecture but not to a distribution. */
  predicate ChainShaped(ls: seq<Layer>) {
    forall x :: x in ls ==> x.key.dist == ALL ==> x.key.arch == ALL
  }

  lemma ChainNeverMasked(ls: seq<Layer>, q: Key)
    requires ChainShaped(ls)
    ensures !Masked(ls, q)
  {
    if q.arch != ALL {
      AtAbsent(ls, ArchOnly(q));
    }
  }

  lemma ThreeLayersAt(x: Layer, y: Layer, z: Layer, k: Key)
    requires DistinctKeys([x, y, z])
    ensures At([x, y, z], k) == if k == x.key then x.versions else if k == y.key then y.versions
                                else if k == z.key then z.versions else map[]
  {
    var a, b := [x], [x, y];
    assert [x, y, z] == b + [z] && b == a + [y] && a == [] + [x];
    assert x.key == [x, y, z][0].key != [x, y, z][1].key == y.key;
    assert [x, y, z][2].key == z.key;
    AtSnoc([], x, k); AtSnoc(a, y, k); AtSnoc(b, z, k);
    OverrideEmpty(x.versions); OverrideEmpty(y.versions); OverrideEmpty(z.versions);
  }

  /** The names in the examples differ. */
  lemma ExampleNames()
    ensures ALL != "buster" && ALL != "amd64" && "1" != "2" && "1" != "3"
  {
    assert "all"[0] != "buster"[0] && |"all"| != |"amd64"| && "1"[0] != "2"[0] && "1"[0] != "3"[0];
  }

  /** A module of three layers with a masked pin. */
  lemma ThreeLayersMask(q: Key, p: string, v: string, w: string)
    requires q.dist != ALL && q.arch != ALL && v != w
    ensures var ls := [Layer(Generic(q), map[p := v]), Layer(ArchOnly(q), map[p := w]), Layer(DistOnly(q), map[p := v])];
            DistinctKeys(ls) && Masked(ls, q)
  {
    hide At;
    var x, y, z := Layer(Generic(q), map[p := v]), Layer(ArchOnly(q), map[p := w]), Layer(DistOnly(q), map[p := v]);
    ThreeLayersAt(x, y, z, Generic(q)); ThreeLayersAt(x, y, z, ArchOnly(q));
    ThreeLayersAt(x, y, z, DistOnly(q)); ThreeLayersAt(x, y, z, q);
    assert MaskedPin([x, y, z], q, p);
  }

  /** The shape needed is real: one architecture-level layer is enough to change a meaning. */
  lemma AdjustCanChangeMeaning()
    ensures var q := Key("deb", "buster", "amd64");
            var ls := [Layer(Generic(q), map["p" := "1"]), Layer(ArchOnly(q), map["p" := "2"]),
                       Layer(DistOnly(q), map["p" := "1"])];
            DistinctKeys(ls) && Effective(Adjust(ls), q) != Effective(ls, q)
  {
    hide At, Effective, Adjust, Masked, Generic, ArchOnly, DistOnly, DistinctKeys;
    var q := Key("deb", "buster", "amd64");
    ExampleNames();
    ThreeLayersMask(q, "p", "1", "2");
    AdjustPreservesIff([Layer(Generic(q), map["p" := "1"]), Layer(ArchOnly(q), map["p" := "2"]), Layer(DistOnly(q), map["p" := "1"])], q);
  }
}
