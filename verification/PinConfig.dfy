/**
 Overwriting one module with another, the configuration generated from a module and a
 default module, and subtracting a default module.
 */
module PinConfig {
  import opened PinLayers
  import opened PinModules
  import opened PinAdjust
  import opened PinNormalForm

  // ----- overwrite -----

  /** Whether a component at `k` can be overwritten by an incoming component at `m`. */
  predicate Overwritable(k: Key, m: Key, allDist: bool, allArch: bool) {
    && k.ctype == m.ctype
    && (k.dist == m.dist || (allDist && k.dist == ALL))
    && (k.arch == m.arch || (allArch && k.arch == ALL))
  }

  /** Where an incoming component lands when nothing could be overwritten. */
  function Cleaned(k: Key, cleanDist: bool, cleanArch: bool): Key {
    Key(k.ctype, if cleanDist && k.ctype != "deb" then ALL else k.dist, if cleanArch then ALL else k.arch)
  }

  function MergedLayer(x: Layer, m: Layer, allDist: bool, allArch: bool): Layer {
    if Overwritable(x.key, m.key, allDist, allArch) then Layer(x.key, x.versions + m.versions) else x
  }

  function MergedLayers(ls: seq<Layer>, m: Layer, allDist: bool, allArch: bool): (r: seq<Layer>)
    ensures |r| == |ls|
    ensures forall i :: 0 <= i < |ls| ==> r[i] == MergedLayer(ls[i], m, allDist, allArch)
  {
    if ls == [] then [] else
    var n := |ls| - 1;
    MergedLayers(ls[..n], m, allDist, allArch) + [MergedLayer(ls[n], m, allDist, allArch)]
  }

  predicate CanMerge(ls: seq<Layer>, m: Layer, allDist: bool, allArch: bool) {
    exists x :: x in ls && Overwritable(x.key, m.key, allDist, allArch)
  }

  function MergeOne(ls: seq<Layer>, m: Layer, allDist: bool, allArch: bool): seq<Layer> {
    if CanMerge(ls, m, allDist, allArch) then MergedLayers(ls, m, allDist, allArch)
    else ls + [Layer(Cleaned(m.key, allDist, allArch), m.versions)]
  }

  function MergeAll(ls: seq<Layer>, ms: seq<Layer>, allDist: bool, allArch: bool): seq<Layer> {
    if ms == [] then ls
    else MergeOne(MergeAll(ls, ms[..|ms|-1], allDist, allArch), ms[|ms|-1], allDist, allArch)
  }

  function Overwrite(ls: seq<Layer>, ms: seq<Layer>, allDist: bool, allArch: bool): seq<Layer> {
    Adjust(MergeAll(ls, Sort(ms), allDist, allArch))
  }

  lemma MergeOneDistinct(ls: seq<Layer>, m: Layer, allDist: bool, allArch: bool)
    requires DistinctKeys(ls)
    ensures DistinctKeys(MergeOne(ls, m, allDist, allArch))
  {
    if !CanMerge(ls, m, allDist, allArch) {
      forall x | x in ls ensures x.key != Cleaned(m.key, allDist, allArch) {
        assert !Overwritable(x.key, m.key, allDist, allArch);
      }
    }
  }

  /** Overwriting never stores two components under one key, whatever the flags. */
  lemma {:induction false} MergeAllDistinct(ls: seq<Layer>, ms: seq<Layer>, allDist: bool, allArch: bool)
    requires DistinctKeys(ls)
    ensures DistinctKeys(MergeAll(ls, ms, allDist, allArch))
  {
    if ms != [] {
      MergeAllDistinct(ls, ms[..|ms|-1], allDist, allArch);
      MergeOneDistinct(MergeAll(ls, ms[..|ms|-1], allDist, allArch), ms[|ms|-1], allDist, allArch);
    }
  }

  predicate HasKey(ls: seq<Layer>, k: Key) {
    exists x :: x in ls && x.key == k
  }

  lemma HasKeySnoc(t: seq<Layer>, x: Layer, k: Key)
    ensures HasKey(t + [x], k) <==> HasKey(t, k) || x.key == k
  {
    assert x in t + [x];
  }

  lemma {:induction false} MergedAt(ls: seq<Layer>, m: Layer, allDist: bool, allArch: bool, k: Key)
    ensures At(MergedLayers(ls, m, allDist, allArch), k) ==
            if Overwritable(k, m.key, allDist, allArch) && HasKey(ls, k) then At(ls, k) + m.versions else At(ls, k)
  {
    hide At, Overwritable, HasKey;
    if ls == [] {
      NoKey(k);
    } else {
      var n := |ls| - 1;
      var t, x := ls[..n], ls[n];
      var r, y := MergedLayers(t, m, allDist, allArch), MergedLayer(x, m, allDist, allArch);
      MergedAt(t, m, allDist, allArch, k);
      LastSplit(ls);
      HasKeySnoc(t, x, k);
      AtSnoc(t, x, k); AtSnoc(r, y, k);
      PushTwice(At(t, k), x.versions, m.versions);
      if !HasKey(t, k) { KeyAbsent(t, k); }
    }
  }

  lemma NoKey(k: Key)
    ensures !HasKey([], k)
  {
  }

  lemma KeyAbsent(t: seq<Layer>, k: Key)
    requires !HasKey(t, k)
    ensures At(t, k) == map[]
  {
    AtAbsent(t, k);
  }

  lemma PushTwice(a: Pins, x: Pins, v: Pins)
    ensures a + v + (x + v) == a + x + v
    ensures a + (x + v) == a + x + v
  {
  }

  /** With default flags an incoming component changes the pins at its own key only. */
  lemma MergeOneAt(ls: seq<Layer>, m: Layer, k: Key)
    ensures At(MergeOne(ls, m, false, false), k) == if m.key == k then At(ls, k) + m.versions else At(ls, k)
  {
    if CanMerge(ls, m, false, false) {
      MergedAt(ls, m, false, false, k);
    } else {
      AtSnoc(ls, Layer(m.key, m.versions), k);
    }
  }

  lemma {:induction false} MergeAllAt(ls: seq<Layer>, ms: seq<Layer>, k: Key)
    ensures At(MergeAll(ls, ms, false, false), k) == At(ls, k) + At(ms, k)
  {
    hide At, MergeOne;
    if ms == [] {
      AtAbsent(ms, k);
      OverrideEmpty(At(ls, k));
    } else {
      var n := |ms| - 1;
      MergeAllAt(ls, ms[..n], k);
      MergeOneAt(MergeAll(ls, ms[..n], false, false), ms[n], k);
      LastSplit(ms);
      AtSnoc(ms[..n], ms[n], k);
      OverrideAssociative(At(ls, k), At(ms[..n], k), ms[n].versions);
    }
  }

  /** The layer law: each key holds its old pins overridden by the incoming pins of the same key. */
  lemma OverwriteLayerLaw(ls: seq<Layer>, ms: seq<Layer>, k: Key)
    ensures At(MergeAll(ls, Sort(ms), false, false), k) == At(ls, k) + At(ms, k)
  {
    MergeAllAt(ls, Sort(ms), k);
    SortAt(ms, k);
  }

  lemma MergedEchoes(ls: seq<Layer>, r: seq<Layer>, m: Layer, j: nat, k: Key, p: string, v: string)
    requires |r| == |ls| && j < |ls| && ls[j].key == m.key
    requires forall i :: 0 <= i < |ls| ==>
               r[i] == if ls[i].key == m.key then Layer(ls[i].key, ls[i].versions + m.versions) else ls[i]
    ensures Echoes(r, k, p, v) <==> if m.key == k && p in m.versions then m.versions[p] == v else Echoes(ls, k, p, v)
  {
    assert r[j] in r;
    if m.key == k && p in m.versions {
      assert m.versions[p] == v ==> Echoes(r, k, p, v);
    } else {
      forall i | 0 <= i < |ls|
        ensures r[i].key == ls[i].key && (ls[i].key == k ==> (p in r[i].versions <==> p in ls[i].versions))
        ensures ls[i].key == k && p in ls[i].versions ==> r[i].versions[p] == ls[i].versions[p]
        ensures r[i] in r && ls[i] in ls
      {
      }
    }
  }

  lemma MergeOneEchoes(ls: seq<Layer>, m: Layer, k: Key, p: string, v: string)
    ensures Echoes(MergeOne(ls, m, false, false), k, p, v) <==>
            if m.key == k && p in m.versions then m.versions[p] == v else Echoes(ls, k, p, v)
  {
    hide Echoes;
    if CanMerge(ls, m, false, false) {
      var y :| y in ls && Overwritable(y.key, m.key, false, false);
      var j :| 0 <= j < |ls| && ls[j] == y;
      MergedEchoes(ls, MergeOne(ls, m, false, false), m, j, k, p, v);
    } else {
      EchoesSnoc(ls, Layer(m.key, m.versions), k, p, v);
      if m.key == k {
        forall x | x in ls ensures x.key != k {
          assert !Overwritable(x.key, m.key, false, false);
        }
        NothingEchoes(ls, k, p, v);
      }
    }
  }

  lemma NothingEchoes(ls: seq<Layer>, k: Key, p: string, v: string)
    requires forall x :: x in ls ==> x.key != k
    ensures Echoes(ls, k, p, v)
  {
  }

  /** Every component at a key pins `p` to `v` once the default components there are overridden. */
  predicate EchoesBoth(ds: seq<Layer>, ms: seq<Layer>, k: Key, p: string, v: string) {
    if p in At(ms, k) then At(ms, k)[p] == v else Echoes(ds, k, p, v)
  }

  lemma {:induction false} MergeAllEchoes(ls: seq<Layer>, ms: seq<Layer>, k: Key, p: string, v: string)
    ensures Echoes(MergeAll(ls, ms, false, false), k, p, v) <==> EchoesBoth(ls, ms, k, p, v)
  {
    hide At, MergeOne, Echoes;
    if ms == [] {
      AtAbsent(ms, k);
    } else {
      var n := |ms| - 1;
      MergeAllEchoes(ls, ms[..n], k, p, v);
      MergeOneEchoes(MergeAll(ls, ms[..n], false, false), ms[n], k, p, v);
      LastSplit(ms);
      AtSnoc(ms[..n], ms[n], k);
    }
  }

  function Overwrites(k: Key, allDist: bool, allArch: bool): Layer -> bool {
    (m: Layer) => Overwritable(k, m.key, allDist, allArch)
  }

  lemma MergeOneKeepsKey(ls: seq<Layer>, m: Layer, allDist: bool, allArch: bool, k: Key)
    requires HasKey(ls, k)
    ensures HasKey(MergeOne(ls, m, allDist, allArch), k)
  {
    var x :| x in ls && x.key == k;
    var i :| 0 <= i < |ls| && ls[i] == x;
    var r := MergeOne(ls, m, allDist, allArch);
    assert r[i] in r && r[i].key == k;
  }

  /**
   With any flags, a component that is already there takes, in sorted order, the pins of
   every incoming component that may overwrite it.
   */
  lemma {:induction false} MergeAllFlagged(ls: seq<Layer>, ms: seq<Layer>, allDist: bool, allArch: bool, k: Key)
    requires HasKey(ls, k)
    ensures HasKey(MergeAll(ls, ms, allDist, allArch), k)
    ensures At(MergeAll(ls, ms, allDist, allArch), k) == At(ls, k) + Fold(Select(ms, Overwrites(k, allDist, allArch)))
  {
    if ms == [] {
      OverrideEmpty(At(ls, k));
    } else {
      var n := |ms| - 1;
      var m, before := ms[n], MergeAll(ls, ms[..n], allDist, allArch);
      MergeAllFlagged(ls, ms[..n], allDist, allArch, k);
      MergeOneKeepsKey(before, m, allDist, allArch, k);
      var chosen := Select(ms[..n], Overwrites(k, allDist, allArch));
      if Overwritable(k, m.key, allDist, allArch) {
        assert CanMerge(before, m, allDist, allArch);
        MergedAt(before, m, allDist, allArch, k);
        FoldSnoc(chosen, m);
        OverrideAssociative(At(ls, k), Fold(chosen), m.versions);
      } else {
        MergeOneElsewhere(before, m, allDist, allArch, k);
      }
    }
  }

  lemma MergeOneElsewhere(ls: seq<Layer>, m: Layer, allDist: bool, allArch: bool, k: Key)
    requires HasKey(ls, k) && !Overwritable(k, m.key, allDist, allArch)
    ensures At(MergeOne(ls, m, allDist, allArch), k) == At(ls, k)
  {
    if CanMerge(ls, m, allDist, allArch) {
      MergedAt(ls, m, allDist, allArch, k);
    } else {
      AtSnoc(ls, Layer(Cleaned(m.key, allDist, allArch), m.versions), k);
    }
  }

  // ----- generated configuration -----

  /** The pins at `q` generated from module `ms` on top of the default module `ds`. */
  function Config(ds: seq<Layer>, ms: seq<Layer>, q: Key): Pins {
    Effective(Overwrite(ds, ms, false, false), q)
  }

  function ConfigGroup(dist: string, arch: string): seq<Layer> -> seq<Layer> {
    g => ConfiguredGroup(dist, arch, g)
  }

  function ConfiguredGroup(dist: string, arch: string, g: seq<Layer>): seq<Layer> {
    if g == [] then []
    else var q := Defaulted(Key(g[0].key.ctype, dist, arch)); [Layer(q, ConfigForCtype(g, q))]
  }

  /** The generated module: one component per component type. */
  function ConfigModule(ds: seq<Layer>, ms: seq<Layer>, dist: string, arch: string): seq<Layer> {
    var over := Overwrite(ds, ms, false, false);
    PerCtype(over, Ctypes(over), ConfigGroup(dist, arch))
  }

  lemma ConfiguredOne(over: seq<Layer>, ct: string, dist: string, arch: string)
    requires Select(over, OfCtype(ct)) != []
    ensures var q := Defaulted(Key(ct, dist, arch));
            ConfigGroup(dist, arch)(Select(over, OfCtype(ct))) == [Layer(q, Effective(over, q))]
  {
    SelectIn(over, OfCtype(ct));
    assert Select(over, OfCtype(ct))[0] in Select(over, OfCtype(ct));
  }

  lemma ConfigKeepsCtypes(over: seq<Layer>, dist: string, arch: string)
    ensures KeepsCtypes(over, ConfigGroup(dist, arch))
  {
    hide Select, Effective, Config;
    forall ct ensures HasCtype(ConfigGroup(dist, arch)(Select(over, OfCtype(ct))), ct) {
      if Select(over, OfCtype(ct)) != [] {
        ConfiguredOne(over, ct, dist, arch);
      }
    }
  }

  /** A generated module holds the effective pins of each component type, and nothing else. */
  lemma ConfigModuleExact(ds: seq<Layer>, ms: seq<Layer>, dist: string, arch: string, ct: string)
    ensures var q := Defaulted(Key(ct, dist, arch));
            Select(ConfigModule(ds, ms, dist, arch), OfCtype(ct)) ==
            if ct in Ctypes(Overwrite(ds, ms, false, false)) then [Layer(q, Config(ds, ms, q))] else []
    ensures ct !in Ctypes(Overwrite(ds, ms, false, false)) ==>
              Config(ds, ms, Defaulted(Key(ct, dist, arch))) == map[]
  {
    var over := Overwrite(ds, ms, false, false);
    CtypesExact(over);
    ConfigKeepsCtypes(over, dist, arch);
    PerCtypeSelect(over, Ctypes(over), ConfigGroup(dist, arch), ct);
    if ct in Ctypes(over) {
      var x :| x in over && x.key.ctype == ct;
      SelectMember(over, OfCtype(ct), x);
      ConfiguredOne(over, ct, dist, arch);
    } else {
      SelectNone(over, OfCtype(ct));
    }
  }

  /** The default pins at a key overridden by the module's own. */
  function Both(ds: seq<Layer>, ms: seq<Layer>, k: Key): Pins {
    At(ds, k) + At(ms, k)
  }

  /** The pins at `k` other than those that all components there take over from `base`. */
  function KeptBoth(ds: seq<Layer>, ms: seq<Layer>, k: Key, base: Pins): Pins {
    map p | p in Both(ds, ms, k) && !(p in base && EchoesBoth(ds, ms, k, p, base[p])) :: Both(ds, ms, k)[p]
  }

  /** The generated pins in closed form, from the components at the levels of `q` only. */
  function ConfigValue(ds: seq<Layer>, ms: seq<Layer>, q: Key): Pins {
    var g := Both(ds, ms, Generic(q));
    if q == Generic(q) then g
    else if q.dist == ALL || q.arch == ALL then g + Both(ds, ms, q)
    else g + Both(ds, ms, ArchOnly(q)) + KeptBoth(ds, ms, DistOnly(q), g) + Both(ds, ms, q)
  }

  lemma MergedKept(ds: seq<Layer>, ms: seq<Layer>, k: Key, base: Pins)
    ensures Kept(MergeAll(ds, Sort(ms), false, false), k, base) == KeptBoth(ds, ms, k, base)
  {
    hide At, Echoes;
    OverwriteLayerLaw(ds, ms, k);
    SortAt(ms, k);
    forall p | p in base
      ensures Echoes(MergeAll(ds, Sort(ms), false, false), k, p, base[p]) <==> EchoesBoth(ds, ms, k, p, base[p])
    {
      MergeAllEchoes(ds, Sort(ms), k, p, base[p]);
    }
  }

  lemma ConfigClosedForm(ds: seq<Layer>, ms: seq<Layer>, q: Key)
    requires Named(q)
    ensures Config(ds, ms, q) == ConfigValue(ds, ms, q)
  {
    hide At, Kept, KeptBoth, Effective, MergeAll;
    var merged := MergeAll(ds, Sort(ms), false, false);
    EffectiveIsStack(Adjust(merged), q);
    AdjustMeaning(merged, q);
    OverwriteLayerLaw(ds, ms, Generic(q));
    OverwriteLayerLaw(ds, ms, ArchOnly(q));
    OverwriteLayerLaw(ds, ms, q);
    MergedKept(ds, ms, DistOnly(q), Both(ds, ms, Generic(q)));
  }

  lemma {:induction false} MergeAllChain(ls: seq<Layer>, ms: seq<Layer>)
    requires ChainShaped(ls) && ChainShaped(ms)
    ensures ChainShaped(MergeAll(ls, ms, false, false))
  {
    if ms != [] {
      var n := |ms| - 1;
      assert ChainShaped(ms[..n]);
      MergeAllChain(ls, ms[..n]);
      var before := MergeAll(ls, ms[..n], false, false);
      var r := MergeOne(before, ms[n], false, false);
      forall x | x in r ensures x.key.dist == ALL ==> x.key.arch == ALL {
        var i :| 0 <= i < |r| && r[i] == x;
        if i < |before| {
          assert before[i] in before && x.key == before[i].key;
        } else {
          assert ms[n] in ms && x.key == ms[n].key;
        }
      }
    }
  }

  function StackBoth(ds: seq<Layer>, ms: seq<Layer>, levels: seq<Key>): Pins {
    if levels == [] then map[]
    else StackBoth(ds, ms, levels[..|levels|-1]) + Both(ds, ms, levels[|levels|-1])
  }

  lemma {:induction false} StackBothIsStack(ds: seq<Layer>, ms: seq<Layer>, levels: seq<Key>)
    ensures Stack(MergeAll(ds, Sort(ms), false, false), levels) == StackBoth(ds, ms, levels)
  {
    if levels != [] {
      StackBothIsStack(ds, ms, levels[..|levels|-1]);
      OverwriteLayerLaw(ds, ms, levels[|levels|-1]);
    }
  }

  /**
   On chain-shaped modules an overwrite, adjustment included, gives every query the
   generic-to-specific fold of the old layers, each overridden by the incoming one.
   */
  lemma OverwriteChainLaw(ls: seq<Layer>, ms: seq<Layer>, q: Key)
    requires ChainShaped(ls) && ChainShaped(ms) && Named(q)
    ensures Effective(Overwrite(ls, ms, false, false), q) == StackBoth(ls, ms, Levels(q))
  {
    SortMembers(ms);
    MergeAllChain(ls, Sort(ms));
    var merged := MergeAll(ls, Sort(ms), false, false);
    AdjustPreservesChain(merged, q);
    EffectiveIsStack(merged, q);
    StackBothIsStack(ls, ms, Levels(q));
  }

  /** What a query sees is unchanged by leaving out files its levels do not mention. */
  function Loaded(ls: seq<Layer>, dist: string, arch: string): seq<Layer> {
    Select(ls, MatchesFilter(dist, arch))
  }

  function MatchesFilter(dist: string, arch: string): Layer -> bool {
    (x: Layer) =>
      && (dist == "" || x.key.dist == dist || x.key.dist == ALL)
      && (arch == "" || x.key.arch == arch || x.key.arch == ALL)
  }

  /** A filtered load keeps exactly the components that some query with the given names inherits. */
  lemma LoadedExact(ls: seq<Layer>, dist: string, arch: string, x: Layer)
    ensures x in Loaded(ls, dist, arch) <==>
            x in ls && exists q: Key :: (dist == "" || q.dist == dist) && (arch == "" || q.arch == arch) && Inheritable(q, x.key)
  {
    SelectIn(ls, MatchesFilter(dist, arch));
    if x in ls && MatchesFilter(dist, arch)(x) {
      SelectMember(ls, MatchesFilter(dist, arch), x);
      var q := Key(x.key.ctype, if dist == "" then x.key.dist else dist, if arch == "" then x.key.arch else arch);
      assert Inheritable(q, x.key);
    }
  }

  lemma LoadedAt(ls: seq<Layer>, q: Key, k: Key)
    requires k in Levels(q)
    ensures At(Loaded(ls, q.dist, q.arch), k) == At(ls, k)
    ensures forall x: Layer :: x.key == k ==> (x in Loaded(ls, q.dist, q.arch) <==> x in ls)
  {
    var f := MatchesFilter(q.dist, q.arch);
    SelectSelect(ls, f, IsKey(k));
    SelectIn(ls, f);
    forall x: Layer | x.key == k && x in ls
      ensures x in Loaded(ls, q.dist, q.arch)
    {
      SelectMember(ls, f, x);
    }
  }

  lemma ConfigValueCong(ds: seq<Layer>, ms: seq<Layer>, ds': seq<Layer>, ms': seq<Layer>, q: Key)
    requires forall k :: k in Levels(q) ==> At(ds, k) == At(ds', k) && At(ms, k) == At(ms', k)
    requires forall x: Layer :: x.key == DistOnly(q) ==> (x in ds <==> x in ds')
    ensures ConfigValue(ds, ms, q) == ConfigValue(ds', ms', q)
  {
    hide At;
    LevelsContain(q);
    KeptBothSame(ds, ms, ds', ms', DistOnly(q), Both(ds, ms, Generic(q)));
  }

  lemma KeptBothSame(ds: seq<Layer>, ms: seq<Layer>, ds': seq<Layer>, ms': seq<Layer>, k: Key, base: Pins)
    requires At(ds, k) == At(ds', k) && At(ms, k) == At(ms', k) && forall x: Layer :: x.key == k ==> (x in ds <==> x in ds')
    ensures KeptBoth(ds, ms, k, base) == KeptBoth(ds', ms', k, base)
  {
    hide At;
  }

  lemma LevelsContain(q: Key)
    ensures Generic(q) in Levels(q) && ArchOnly(q) in Levels(q) && DistOnly(q) in Levels(q) && q in Levels(q)
  {
    if q.dist != ALL && q.arch != ALL {
      assert Levels(q) == [Generic(q), ArchOnly(q), DistOnly(q), q];
    } else if q.dist != ALL {
      assert Levels(q) == [Generic(q), DistOnly(q)];
    } else if q.arch != ALL {
      assert Levels(q) == [Generic(q), ArchOnly(q)];
    } else {
      assert Levels(q) == [Generic(q)];
    }
  }

  /** Loading only the files that match the query generates the same configuration. */
  lemma FilteredLoadLossless(ds: seq<Layer>, ms: seq<Layer>, q: Key)
    requires Named(q)
    ensures Config(Loaded(ds, q.dist, q.arch), Loaded(ms, q.dist, q.arch), q) == Config(ds, ms, q)
  {
    hide At, Config, ConfigValue, Loaded, Levels;
    var ds', ms' := Loaded(ds, q.dist, q.arch), Loaded(ms, q.dist, q.arch);
    ConfigClosedForm(ds, ms, q);
    ConfigClosedForm(ds', ms', q);
    forall k | k in Levels(q) ensures At(ds, k) == At(ds', k) && At(ms, k) == At(ms', k) {
      LoadedAt(ds, q, k);
      LoadedAt(ms, q, k);
    }
    LevelsContain(q);
    LoadedAt(ds, q, DistOnly(q));
    ConfigValueCong(ds, ms, ds', ms', q);
  }

  // ----- subtract -----

  function ConfigOver(ds: seq<Layer>): (seq<Layer>, Key) -> Pins {
    (done: seq<Layer>, k: Key) => Config(ds, done, k)
  }

  /** Each layer in turn loses what the default and the reduced layers before it generate. */
  function SubtractSorted(ds: seq<Layer>, ls: seq<Layer>): seq<Layer> {
    ReduceSorted(ls, ConfigOver(ds))
  }

  function ReducedAgainst(ds: seq<Layer>, group: seq<Layer>): seq<Layer> {
    Select(SubtractSorted(ds, Sort(group)), NonEmpty())
  }

  function SubtractGroup(ds: seq<Layer>): seq<Layer> -> seq<Layer> {
    g => ReducedAgainst(ds, g)
  }

  function Subtract(ms: seq<Layer>, ds: seq<Layer>): seq<Layer> {
    PerCtype(ms, Ctypes(ms), SubtractGroup(ds))
  }

  /** What a query inherits from the levels below it. */
  function Under(ds: seq<Layer>, ms: seq<Layer>, q: Key): Pins {
    var g := Both(ds, ms, Generic(q));
    if q == Generic(q) then map[]
    else if q.dist == ALL || q.arch == ALL then g
    else g + Both(ds, ms, ArchOnly(q)) + KeptBoth(ds, ms, DistOnly(q), g)
  }

  lemma ConfigParts(ds: seq<Layer>, ms: seq<Layer>, q: Key)
    requires Named(q)
    ensures Config(ds, ms, q) == Under(ds, ms, q) + At(ds, q) + At(ms, q)
  {
    hide At, KeptBoth, Config;
    ConfigClosedForm(ds, ms, q);
    OverrideEmpty(Both(ds, ms, q));
    OverrideEmpty(At(ds, q));
    OverrideAssociative(Under(ds, ms, q), At(ds, q), At(ms, q));
  }

  lemma UnderCong(ds: seq<Layer>, a: seq<Layer>, b: seq<Layer>, q: Key)
    requires forall k :: k in Below(q) ==> At(a, k) == At(b, k)
    ensures Under(ds, a, q) == Under(ds, b, q)
  {
    hide At;
    if q == Generic(q) {
    } else if q.dist == ALL || q.arch == ALL {
      assert Below(q)[0] == Generic(q);
    } else {
      assert Below(q) == [Generic(q), ArchOnly(q), DistOnly(q)];
      assert Below(q)[0] == Generic(q) && Below(q)[1] == ArchOnly(q) && Below(q)[2] == DistOnly(q);
      KeptBothSame(ds, a, ds, b, DistOnly(q), Both(ds, a, Generic(q)));
    }
  }

  lemma UnderPush(ds: seq<Layer>, a: seq<Layer>, x: Layer, q: Key)
    requires x.key !in Below(q)
    ensures Under(ds, a + [x], q) == Under(ds, a, q)
  {
    hide At, Under;
    forall k | k in Below(q)
      ensures At(a + [x], k) == At(a, k)
    {
      AtSnoc(a, x, k);
    }
    UnderCong(ds, a + [x], a, q);
  }

  // ----- the subtracted module repeats nothing -----

  /** No component is empty or repeats what the default module and the components before it generate. */
  ghost predicate Needed(ds: seq<Layer>, ls: seq<Layer>) {
    forall i :: 0 <= i < |ls| ==>
      |ls[i].versions| > 0 &&
      forall p :: p in ls[i].versions ==>
        !(p in Config(ds, ls[..i], ls[i].key) && Config(ds, ls[..i], ls[i].key)[p] == ls[i].versions[p])
  }

  lemma NeededSnoc(ds: seq<Layer>, ls: seq<Layer>, x: Layer)
    requires Needed(ds, ls) && |x.versions| > 0
    requires forall p :: p in x.versions ==> !(p in Config(ds, ls, x.key) && Config(ds, ls, x.key)[p] == x.versions[p])
    ensures Needed(ds, ls + [x])
  {
    hide Config;
    var r := ls + [x];
    forall i | 0 <= i < |ls| ensures r[..i] == ls[..i] {}
    assert r[..|ls|] == ls;
  }

  lemma ConfigNonEmpty(ds: seq<Layer>, ls: seq<Layer>, q: Key)
    requires Named(q)
    ensures Config(ds, Select(ls, NonEmpty()), q) == Config(ds, ls, q)
  {
    hide At, Config, ConfigValue, Levels;
    forall k | k in Levels(q)
      ensures At(Select(ls, NonEmpty()), k) == At(ls, k)
    {
      AtNonEmpty(ls, k);
    }
    ConfigClosedForm(ds, ls, q);
    ConfigClosedForm(ds, Select(ls, NonEmpty()), q);
    ConfigValueCong(ds, Select(ls, NonEmpty()), ds, ls, q);
  }

  lemma AtNonEmpty(ls: seq<Layer>, k: Key)
    ensures At(Select(ls, NonEmpty()), k) == At(ls, k)
  {
    FoldSelectNonEmpty(ls, IsKey(k));
  }

  lemma {:induction false} SubtractSortedNeeded(ds: seq<Layer>, ls: seq<Layer>)
    requires forall x :: x in ls ==> Named(x.key)
    ensures Needed(ds, Select(SubtractSorted(ds, ls), NonEmpty()))
  {
    hide Config;
    if ls != [] {
      var n := |ls| - 1;
      var a := SubtractSorted(ds, ls[..n]);
      var x' := Layer(ls[n].key, Minus(ls[n].versions, Config(ds, a, ls[n].key)));
      SubtractSortedNeeded(ds, ls[..n]);
      assert SubtractSorted(ds, ls) == a + [x'];
      SelectSnoc(a, x', NonEmpty());
      ConfigNonEmpty(ds, a, ls[n].key);
      if |x'.versions| > 0 {
        NeededSnoc(ds, Select(a, NonEmpty()), x');
      }
    }
  }

  /** Of each type, the subtracted module keeps no empty component and no pin that would be generated anyway. */
  lemma SubtractIrredundant(ms: seq<Layer>, ds: seq<Layer>, ct: string)
    requires forall x :: x in ms ==> Named(x.key)
    ensures Needed(ds, Select(Subtract(ms, ds), OfCtype(ct)))
  {
    hide SubtractSorted, Needed;
    var g := Select(ms, OfCtype(ct));
    CtypesExact(ms);
    SubtractKeepsCtypes(ms, ds);
    PerCtypeSelect(ms, Ctypes(ms), SubtractGroup(ds), ct);
    if ct in Ctypes(ms) {
      SelectIn(ms, OfCtype(ct));
      SortMembers(g);
      SubtractSortedNeeded(ds, Sort(g));
    } else {
      NothingNeeded(ds);
    }
  }

  lemma NothingNeeded(ds: seq<Layer>)
    ensures Needed(ds, [])
  {
  }

  // ----- the subtracted module loses nothing -----

  /** What is left at a key are the pins its layers do not take over from the default and the levels below. */
  lemma {:induction false} SubtractSortedAt(ds: seq<Layer>, ls: seq<Layer>, k: Key)
    requires Sorted(ls) && Named(k)
    ensures At(SubtractSorted(ds, ls), k) == Kept(ls, k, Under(ds, SubtractSorted(ds, ls), k) + At(ds, k))
  {
    hide At, Kept, Config, Under;
    if ls == [] {
      AtAbsent([], k);
      KeptNone([], k, Under(ds, SubtractSorted(ds, ls), k) + At(ds, k));
    } else {
      var n := |ls| - 1;
      var t, x := ls[..n], ls[n];
      LastSplit(ls);
      var a := SubtractSorted(ds, t);
      var x' := Layer(x.key, Minus(x.versions, Config(ds, a, x.key)));
      assert SubtractSorted(ds, ls) == a + [x'];
      SubtractSortedAt(ds, t, k);
      KeysBefore(a, t, x);
      AtSnoc(a, x', k);
      BelowLevels(k);
      if x.key == k {
        ConfigParts(ds, a, k);
        UnderPush(ds, a, x', k);
        KeptSnoc(t, x, Under(ds, a, k) + At(ds, k));
      } else {
        SubtractStepOther(ds, t, a, x, x', k);
      }
    }
  }

  lemma SubtractStepOther(ds: seq<Layer>, t: seq<Layer>, a: seq<Layer>, x: Layer, x': Layer, k: Key)
    requires Named(k) && x.key == x'.key != k
    requires forall y :: y in t ==> KeyLeq(y.key, x.key)
    requires At(a, k) == Kept(t, k, Under(ds, a, k) + At(ds, k))
    ensures At(a, k) == Kept(t + [x], k, Under(ds, a + [x'], k) + At(ds, k))
  {
    hide At, Kept, Under, Levels;
    BelowLevels(k);
    KeptElsewhere(t, x, k, Under(ds, a + [x'], k) + At(ds, k));
    if x.key in Below(k) {
      AtAbsent(t, k);
      KeptNone(t, k, Under(ds, a, k) + At(ds, k));
      KeptNone(t, k, Under(ds, a + [x'], k) + At(ds, k));
    } else {
      UnderPush(ds, a, x', k);
    }
  }

  lemma RekeyedCtype(a: seq<Layer>, ls: seq<Layer>, ct: string)
    requires |a| == |ls| && forall i :: 0 <= i < |ls| ==> a[i].key == ls[i].key
    requires HasCtype(ls, ct)
    ensures HasCtype(Select(a, NonEmpty()), ct)
  {
    SelectIn(a, NonEmpty());
    forall x | x in a ensures x.key.ctype == ct {
      var i :| 0 <= i < |a| && a[i] == x;
      assert ls[i] in ls;
    }
  }

  lemma SubtractKeepsCtypes(ms: seq<Layer>, ds: seq<Layer>)
    ensures KeepsCtypes(ms, SubtractGroup(ds))
  {
    forall ct ensures HasCtype(SubtractGroup(ds)(Select(ms, OfCtype(ct))), ct) {
      var g := Select(ms, OfCtype(ct));
      SelectIn(ms, OfCtype(ct));
      SortMembers(g);
      RekeyedCtype(SubtractSorted(ds, Sort(g)), Sort(g), ct);
    }
  }

  lemma ReducedAgainstAt(ds: seq<Layer>, group: seq<Layer>, k: Key)
    ensures At(ReducedAgainst(ds, group), k) == At(SubtractSorted(ds, Sort(group)), k)
  {
    FoldSelectNonEmpty(SubtractSorted(ds, Sort(group)), IsKey(k));
  }

  lemma SubtractAt(ms: seq<Layer>, ds: seq<Layer>, ct: string, k: Key)
    requires k.ctype == ct
    ensures At(Subtract(ms, ds), k) == At(SubtractSorted(ds, Sort(Select(ms, OfCtype(ct)))), k)
  {
    CtypesExact(ms);
    SubtractKeepsCtypes(ms, ds);
    PerCtypeAt(ms, Ctypes(ms), SubtractGroup(ds), k);
    if ct in Ctypes(ms) {
      ReducedAgainstAt(ds, Select(ms, OfCtype(ct)), k);
    } else {
      SelectNone(ms, OfCtype(ct));
    }
  }

  /** The same for the subtracted module. */
  lemma SubtractedAt(ms: seq<Layer>, ds: seq<Layer>, k: Key)
    requires Named(k)
    ensures At(Subtract(ms, ds), k) == Kept(ms, k, Under(ds, Subtract(ms, ds), k) + At(ds, k))
  {
    hide At, Kept, Under, Subtract, SubtractSorted, Sort, Select;
    var r, sorted := Subtract(ms, ds), Sort(Select(ms, OfCtype(k.ctype)));
    var t := SubtractSorted(ds, sorted);
    SortSorted(Select(ms, OfCtype(k.ctype)));
    SubtractSortedAt(ds, sorted, k);
    SubtractAt(ms, ds, k.ctype, k);
    forall b | b in Below(k)
      ensures At(r, b) == At(t, b)
    {
      BelowCtype(k, b);
      SubtractAt(ms, ds, k.ctype, b);
    }
    UnderCong(ds, r, t, k);
    GroupAt(ms, k.ctype, k);
    GroupMembers(ms, k.ctype);
    KeptSame(sorted, ms, k, Under(ds, t, k) + At(ds, k));
  }

  /** Each level with what lies below it generates what it did before. */
  lemma SubtractedLevel(ms: seq<Layer>, ds: seq<Layer>, k: Key)
    requires Named(k)
    ensures var r := Subtract(ms, ds); Under(ds, r, k) + Both(ds, r, k) == Under(ds, r, k) + Both(ds, ms, k)
  {
    hide At, Kept, Under, Subtract;
    var r := Subtract(ms, ds);
    SubtractedAt(ms, ds, k);
    KeptOverride(ms, k, Under(ds, r, k) + At(ds, k));
    OverrideAssociative(Under(ds, r, k), At(ds, k), At(r, k));
    OverrideAssociative(Under(ds, r, k), At(ds, k), At(ms, k));
  }

  /** The generic and one-sided levels generate exactly what they did. */
  lemma SubtractedGeneric(ms: seq<Layer>, ds: seq<Layer>, k: Key)
    requires Named(k) && (k.dist == ALL || k.arch == ALL)
    ensures var r := Subtract(ms, ds);
            && Both(ds, r, Generic(k)) == Both(ds, ms, Generic(k))
            && Both(ds, r, Generic(k)) + Both(ds, r, k) == Both(ds, ms, Generic(k)) + Both(ds, ms, k)
  {
    hide At, Subtract;
    var r, g := Subtract(ms, ds), Generic(k);
    SubtractedLevel(ms, ds, g);
    OverrideEmpty(Both(ds, r, g));
    OverrideEmpty(Both(ds, ms, g));
    SubtractedLevel(ms, ds, k);
  }

  /**
   A pin of a distribution that the subtraction takes away from the module although the
   default module does not repeat it throughout, over an architecture-level pin that differs.
   */
  predicate Resurfaces(ms: seq<Layer>, ds: seq<Layer>, q: Key, p: string) {
    var g, a, k := Both(ds, ms, Generic(q)), Both(ds, ms, ArchOnly(q)), DistOnly(q);
    && q.dist != ALL && q.arch != ALL
    && p in g && p in a && a[p] != g[p] && p !in Both(ds, ms, q)
    && p in At(ms, k) && Echoes(ms, k, p, g[p])
    && p in At(ds, k) && At(ds, k)[p] == g[p] && !Echoes(ds, k, p, g[p])
  }

  /** What the subtracted module keeps at the distribution level. */
  lemma SubtractedKept(ms: seq<Layer>, ds: seq<Layer>, k: Key, g: Pins, p: string)
    requires var r := Subtract(ms, ds); At(r, k) == Kept(ms, k, g + At(ds, k)) && g + Both(ds, r, k) == g + Both(ds, ms, k)
    ensures var kept, again := KeptBoth(ds, ms, k, g), KeptBoth(ds, Subtract(ms, ds), k, g);
            if p in g && p in At(ms, k) && Echoes(ms, k, p, g[p]) && p in At(ds, k) && At(ds, k)[p] == g[p] && !Echoes(ds, k, p, g[p])
            then p !in kept && p in again && again[p] == g[p]
            else (p in kept <==> p in again) && (p in kept ==> kept[p] == again[p])
  {
    hide At, Subtract, Echoes;
    var r, d := Subtract(ms, ds), At(ds, k);
    var base := g + d;
    assert (g + Both(ds, r, k)).Keys == (g + Both(ds, ms, k)).Keys;
    if p in At(ms, k) && p in base && Echoes(ms, k, p, base[p]) {
      EchoesValue(ms, k, p, base[p]);
    }
    if p in g && Echoes(ds, k, p, g[p]) {
      EchoesValue(ds, k, p, g[p]);
    }
    if p in g && p in At(ms, k) && Echoes(ms, k, p, g[p]) {
      EchoesValue(ms, k, p, g[p]);
    }
  }

  /** The closed form after the subtraction, up to the pins kept at the distribution level. */
  lemma SubtractedValue(ms: seq<Layer>, ds: seq<Layer>, q: Key)
    requires Named(q) && q.dist != ALL && q.arch != ALL
    ensures var g, a, k := Both(ds, ms, Generic(q)), Both(ds, ms, ArchOnly(q)), DistOnly(q);
            ConfigValue(ds, Subtract(ms, ds), q) == g + a + KeptBoth(ds, Subtract(ms, ds), k, g) + Both(ds, ms, q)
  {
    hide At, Subtract, KeptBoth;
    SubtractedGeneric(ms, ds, ArchOnly(q));
    SubtractedLevel(ms, ds, q);
  }

  /**
   Subtracting the default module loses no pin of a generated configuration exactly when
   none resurfaces there.
   */
  lemma SubtractLosslessIff(ms: seq<Layer>, ds: seq<Layer>, q: Key)
    requires Named(q)
    ensures Config(ds, Subtract(ms, ds), q) == Config(ds, ms, q) <==> !exists p :: Resurfaces(ms, ds, q, p)
  {
    hide At, Subtract, Config, KeptBoth, Under, Echoes;
    ConfigClosedForm(ds, ms, q);
    ConfigClosedForm(ds, Subtract(ms, ds), q);
    if q.dist == ALL || q.arch == ALL {
      SubtractedGeneric(ms, ds, q);
    } else {
      SubtractedValue(ms, ds, q);
      ResurfacingDiffers(ms, ds, q);
    }
  }

  /** Where the generated pins stay the same and where they do not. */
  lemma ResurfacesAt(ms: seq<Layer>, ds: seq<Layer>, q: Key, p: string)
    requires Named(q) && q.dist != ALL && q.arch != ALL
    ensures var g, a, s, k := Both(ds, ms, Generic(q)), Both(ds, ms, ArchOnly(q)), Both(ds, ms, q), DistOnly(q);
            var x, y := g + a + KeptBoth(ds, ms, k, g) + s, g + a + KeptBoth(ds, Subtract(ms, ds), k, g) + s;
            && (p in x <==> p in y)
            && (p in x ==> (x[p] != y[p] <==> Resurfaces(ms, ds, q, p)))
            && (Resurfaces(ms, ds, q, p) ==> p in x)
  {
    hide At, Subtract, KeptBoth, Both, Echoes;
    DistLevel(ms, ds, q);
    SubtractedKept(ms, ds, DistOnly(q), Both(ds, ms, Generic(q)), p);
  }

  lemma ResurfacingDiffers(ms: seq<Layer>, ds: seq<Layer>, q: Key)
    requires Named(q) && q.dist != ALL && q.arch != ALL
    ensures var g, a, s, k := Both(ds, ms, Generic(q)), Both(ds, ms, ArchOnly(q)), Both(ds, ms, q), DistOnly(q);
            g + a + KeptBoth(ds, Subtract(ms, ds), k, g) + s == g + a + KeptBoth(ds, ms, k, g) + s <==>
            !exists p :: Resurfaces(ms, ds, q, p)
  {
    hide At, Subtract, KeptBoth, Both, Resurfaces;
    var g, a, s, k := Both(ds, ms, Generic(q)), Both(ds, ms, ArchOnly(q)), Both(ds, ms, q), DistOnly(q);
    var x, y := g + a + KeptBoth(ds, ms, k, g) + s, g + a + KeptBoth(ds, Subtract(ms, ds), k, g) + s;
    forall p
      ensures (p in x <==> p in y) && (p in x ==> (x[p] != y[p] <==> Resurfaces(ms, ds, q, p))) && (Resurfaces(ms, ds, q, p) ==> p in x)
    {
      ResurfacesAt(ms, ds, q, p);
    }
    SameMaps(x, y);
  }

  lemma DistLevel(ms: seq<Layer>, ds: seq<Layer>, q: Key)
    requires Named(q) && q.dist != ALL && q.arch != ALL
    ensures var g, k, r := Both(ds, ms, Generic(q)), DistOnly(q), Subtract(ms, ds);
            At(r, k) == Kept(ms, k, g + At(ds, k)) && g + Both(ds, r, k) == g + Both(ds, ms, k)
  {
    hide At, Kept, Subtract;
    SubtractedGeneric(ms, ds, DistOnly(q));
    SubtractedAt(ms, ds, DistOnly(q));
  }

  /**
   Subtracting the default module loses no pin of any generated configuration if both
   modules are chain-shaped, or the default module has one component under each key.
   */
  lemma SubtractLossless(ms: seq<Layer>, ds: seq<Layer>, q: Key)
    requires Named(q) && (DistinctKeys(ds) || (ChainShaped(ds) && ChainShaped(ms)))
    ensures Config(ds, Subtract(ms, ds), q) == Config(ds, ms, q)
  {
    hide At, Config, Subtract;
    SubtractLosslessIff(ms, ds, q);
    forall p
      ensures !Resurfaces(ms, ds, q, p)
    {
      if DistinctKeys(ds) {
        OneEchoes(ds, DistOnly(q), p);
      } else if q.arch != ALL {
        AtAbsent(ds, ArchOnly(q));
        AtAbsent(ms, ArchOnly(q));
      }
    }
  }

  /** A single component under a key agrees with itself. */
  lemma OneEchoes(ls: seq<Layer>, k: Key, p: string)
    requires DistinctKeys(ls)
    ensures p in At(ls, k) ==> Echoes(ls, k, p, At(ls, k)[p])
  {
    hide At;
    AtFrom(ls, k, p);
  }

  /** A default module with two components under one key, and a module from which a pin resurfaces. */
  lemma TwiceKeyedResurfaces(q: Key, p: string, v: string, w: string, u: string)
    requires q.dist != ALL && q.arch != ALL && v != w && v != u
    ensures var ds := [Layer(Generic(q), map[p := v]), Layer(ArchOnly(q), map[p := w]), Layer(DistOnly(q), map[p := u]),
                       Layer(DistOnly(q), map[p := v])];
            Resurfaces([Layer(DistOnly(q), map[p := v])], ds, q, p)
  {
    hide At;
    var x, y, z := Layer(Generic(q), map[p := v]), Layer(ArchOnly(q), map[p := w]), Layer(DistOnly(q), map[p := u]);
    var m := Layer(DistOnly(q), map[p := v]);
    var ds, ms := [x, y, z, m], [m];
    TwiceKeyedAt(x, y, z, m, Generic(q));
    TwiceKeyedAt(x, y, z, m, ArchOnly(q));
    TwiceKeyedAt(x, y, z, m, DistOnly(q));
    TwiceKeyedAt(x, y, z, m, q);
    assert z in ds && !Echoes(ds, m.key, p, v);
  }

  lemma TwiceKeyedAt(x: Layer, y: Layer, z: Layer, m: Layer, k: Key)
    requires DistinctKeys([x, y, z]) && z.key == m.key && z.versions.Keys == m.versions.Keys
    ensures At([m], k) == if k == m.key then m.versions else map[]
    ensures At([x, y, z, m], k) == if k == x.key then x.versions else if k == y.key then y.versions
                                   else if k == m.key then m.versions else map[]
  {
    hide At;
    assert [] + [m] == [m] && [x, y, z] + [m] == [x, y, z, m];
    AtAbsent([], k);
    AtSnoc([], m, k);
    OverrideEmpty(m.versions);
    ThreeLayersAt(x, y, z, k);
    AtSnoc([x, y, z], m, k);
    assert z.versions + m.versions == m.versions;
    assert [x, y, z][0] == x && [x, y, z][1] == y && [x, y, z][2] == z;
  }

  /** Two default components under one key are enough to lose a pin. */
  lemma SubtractCanLose()
    ensures var q := Key("deb", "buster", "amd64");
            var ds := [Layer(Generic(q), map["p" := "1"]), Layer(ArchOnly(q), map["p" := "2"]),
                       Layer(DistOnly(q), map["p" := "3"]), Layer(DistOnly(q), map["p" := "1"])];
            var ms := [Layer(DistOnly(q), map["p" := "1"])];
            Config(ds, Subtract(ms, ds), q) != Config(ds, ms, q)
  {
    hide Config, Subtract, Resurfaces, Generic, ArchOnly, DistOnly;
    var q := Key("deb", "buster", "amd64");
    var ds := [Layer(Generic(q), map["p" := "1"]), Layer(ArchOnly(q), map["p" := "2"]), Layer(DistOnly(q), map["p" := "3"]),
               Layer(DistOnly(q), map["p" := "1"])];
    ExampleNames();
    TwiceKeyedResurfaces(q, "p", "1", "2", "3");
    SubtractLosslessIff([Layer(DistOnly(q), map["p" := "1"])], ds, q);
  }
}
