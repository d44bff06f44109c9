/**
 The operations of a version module on values, and the laws they obey.

 A query names a component type, a distribution and an architecture. Its effective
 pins are the fold, from generic to specific, of all layers it inherits.
 */
module PinModules {
  import opened Texts
  import opened PinLayers

  // ----- effective pins -----

  /** The constructor's defaults: a missing distribution or architecture means "all". */
  function Defaulted(k: Key): (r: Key)
    ensures Named(r)
    ensures Named(k) ==> r == k
  {
    Key(k.ctype, if k.dist == "" then ALL else k.dist, if k.arch == "" then ALL else k.arch)
  }

  /** What a component says without a distribution or an architecture goes for all of them. */
  lemma DefaultedForAll(q: Key, dist: string, arch: string)
    ensures Inheritable(q, Defaulted(Key(q.ctype, "", "")))
    ensures Inheritable(q, Defaulted(Key(q.ctype, dist, ""))) <==> dist == "" || dist == ALL || dist == q.dist
    ensures Inheritable(q, Defaulted(Key(q.ctype, "", arch))) <==> arch == "" || arch == ALL || arch == q.arch
  {
  }

  /** Pins of a group of layers of one component type, as configured for `q`. */
  function ConfigForCtype(group: seq<Layer>, q: Key): Pins {
    Fold(Select(Sort(group), InheritedBy(q)))
  }

  /** Effective pins of a module at `q`. */
  function Effective(ls: seq<Layer>, q: Key): Pins {
    ConfigForCtype(Select(ls, OfCtype(q.ctype)), q)
  }

  function Generic(q: Key): Key { Key(q.ctype, ALL, ALL) }
  function ArchOnly(q: Key): Key { Key(q.ctype, ALL, q.arch) }
  function DistOnly(q: Key): Key { Key(q.ctype, q.dist, ALL) }

  /** The levels a query inherits from, most generic first. */
  function Levels(q: Key): seq<Key> {
    [Generic(q)]
    + (if q.arch != ALL then [ArchOnly(q)] else [])
    + (if q.dist != ALL then [DistOnly(q)] else [])
    + (if q.arch != ALL && q.dist != ALL then [q] else [])
  }

  /** The reference meaning of a module: the pins stored at each level, later levels win. */
  function Stack(ls: seq<Layer>, levels: seq<Key>): Pins {
    if levels == [] then map[]
    else Stack(ls, levels[..|levels|-1]) + At(ls, levels[|levels|-1])
  }

  /** No component is stored under an empty name: the constructor turns "" into "all". */
  predicate Named(k: Key) {
    k.dist != "" && k.arch != ""
  }

  /** `levels` is strictly increasing in the sort order. */
  ghost predicate Ascending(levels: seq<Key>) {
    forall i, j :: 0 <= i < j < |levels| ==> !KeyLeq(levels[j], levels[i])
  }

  lemma LevelsAscending(q: Key)
    requires Named(q)
    ensures Ascending(Levels(q))
    ensures forall k :: k in Levels(q) <==> Inheritable(q, k)
  {
    hide KeyLeq;
    LevelsOrdered(q);
    forall k | Inheritable(q, k) ensures k in Levels(q) {
      LevelListed(q, k);
    }
  }

  lemma LevelsOrdered(q: Key)
    requires Named(q)
    ensures Ascending(Levels(q))
  {
  }

  lemma LevelListed(q: Key, k: Key)
    requires Inheritable(q, k)
    ensures k in Levels(q)
  {
    var ls := Levels(q);
    assert Generic(q) == ls[0];
    if k == q && q.arch != ALL && q.dist != ALL { assert ls[3] == q; }
    else if k == DistOnly(q) && q.dist != ALL { assert ls[if q.arch != ALL then 2 else 1] == k; }
    else if k == ArchOnly(q) && q.arch != ALL { assert ls[1] == k; }
  }

  /** Appending the largest layer of a sorted list overrides the meaning with its pins. */
  lemma {:induction false} StackPush(t: seq<Layer>, x: Layer, levels: seq<Key>)
    requires Ascending(levels)
    requires forall y :: y in t ==> KeyLeq(y.key, x.key)
    ensures Stack(t + [x], levels) ==
            if x.key in levels then Stack(t, levels) + x.versions else Stack(t, levels)
  {
    if levels != [] {
      var n := |levels| - 1;
      var k := levels[n];
      StackPush(t, x, levels[..n]);
      AtSnoc(t, x, k);
      var below := levels[..n];
      assert Stack(t + [x], levels) == Stack(t + [x], below) + At(t + [x], k);
      if x.key == k {
        KeyTotal(k, k);
        assert k !in below;
        OverrideAssociative(Stack(t, below), At(t, k), x.versions);
      } else if x.key in below {
        assert !KeyLeq(k, x.key);
        AtAbsent(t, k);
        OverrideEmpty(Stack(t, below));
        OverrideEmpty(Stack(t, below) + x.versions);
      } else {
        assert x.key !in levels;
      }
    }
  }

  lemma {:induction false} SortedFoldIsStack(ls: seq<Layer>, levels: seq<Key>)
    requires Sorted(ls) && Ascending(levels)
    ensures Fold(Select(ls, AmongLevels(levels))) == Stack(ls, levels)
  {
    if ls == [] {
      StackEmpty(levels);
    } else {
      var n := |ls| - 1;
      SortedFoldIsStack(ls[..n], levels);
      assert ls == ls[..n] + [ls[n]];
      StackPush(ls[..n], ls[n], levels);
      if ls[n].key in levels {
        FoldSnoc(Select(ls[..n], AmongLevels(levels)), ls[n]);
      }
    }
  }

  lemma {:induction false} StackEmpty(levels: seq<Key>)
    ensures Stack([], levels) == map[]
  {
    if levels != [] {
      StackEmpty(levels[..|levels|-1]);
    }
  }

  /** The meaning depends only on the pins stored at the levels. */
  lemma {:induction false} StackCong(a: seq<Layer>, b: seq<Layer>, levels: seq<Key>)
    requires forall k :: k in levels ==> At(a, k) == At(b, k)
    ensures Stack(a, levels) == Stack(b, levels)
  {
    if levels != [] {
      StackCong(a, b, levels[..|levels|-1]);
    }
  }

  lemma SortedInherited(ls: seq<Layer>, q: Key)
    requires Sorted(ls) && Named(q)
    ensures Fold(Select(ls, InheritedBy(q))) == Stack(ls, Levels(q))
  {
    LevelsAscending(q);
    SelectEquiv(ls, InheritedBy(q), AmongLevels(Levels(q)));
    SortedFoldIsStack(ls, Levels(q));
  }

  lemma GroupAt(ls: seq<Layer>, ct: string, k: Key)
    requires k.ctype == ct
    ensures At(Sort(Select(ls, OfCtype(ct))), k) == At(ls, k)
  {
    SortAt(Select(ls, OfCtype(ct)), k);
    SelectSelect(ls, OfCtype(ct), IsKey(k));
  }

  lemma LevelCtype(q: Key, k: Key)
    requires k in Levels(q)
    ensures k.ctype == q.ctype
  {
  }

  /** The order in which the code visits layers computes the level-by-level meaning. */
  lemma EffectiveIsStack(ls: seq<Layer>, q: Key)
    requires Named(q)
    ensures Effective(ls, q) == Stack(ls, Levels(q))
  {
    var s := Sort(Select(ls, OfCtype(q.ctype)));
    SortSorted(Select(ls, OfCtype(q.ctype)));
    SortedInherited(s, q);
    forall k | k in Levels(q) ensures At(s, k) == At(ls, k) {
      LevelCtype(q, k);
      GroupAt(ls, q.ctype, k);
    }
    StackCong(s, ls, Levels(q));
  }

  // ----- adjust -----

  function Inherited(done: seq<Layer>, k: Key): Pins {
    Fold(Select(done, InheritedBy(k)))
  }

  /** Each layer in turn loses the pins `given` by the already reduced layers before it. */
  function ReduceSorted(ls: seq<Layer>, given: (seq<Layer>, Key) -> Pins): (r: seq<Layer>)
    ensures |r| == |ls|
    ensures forall i :: 0 <= i < |ls| ==> r[i].key == ls[i].key
  {
    if ls == [] then [] else
    var n := |ls| - 1;
    var done := ReduceSorted(ls[..n], given);
    done + [ReducedLayer(ls[n], given(done, ls[n].key))]
  }

  function ReducedLayer(x: Layer, pins: Pins): Layer {
    Layer(x.key, Minus(x.versions, pins))
  }

  /** Each layer in turn loses what it inherits. */
  function AdjustSorted(ls: seq<Layer>): seq<Layer> {
    ReduceSorted(ls, Inherited)
  }

  function AdjustGroup(ls: seq<Layer>): seq<Layer> {
    Select(AdjustSorted(Sort(ls)), NonEmpty())
  }

  /** Component types in order of first occurrence. */
  function Ctypes(ls: seq<Layer>): seq<string> {
    if ls == [] then [] else
    var r := Ctypes(ls[..|ls|-1]);
    if ls[|ls|-1].key.ctype in r then r else r + [ls[|ls|-1].key.ctype]
  }

  /** Rewrites the group of each component type with `f`, and concatenates. */
  function PerCtype(ls: seq<Layer>, ctypes: seq<string>, f: seq<Layer> -> seq<Layer>): seq<Layer> {
    if ctypes == [] then [] else
    var n := |ctypes| - 1;
    PerCtype(ls, ctypes[..n], f) + f(Select(ls, OfCtype(ctypes[n])))
  }

  function Adjust(ls: seq<Layer>): seq<Layer> {
    PerCtype(ls, Ctypes(ls), AdjustGroup)
  }

  lemma {:induction false} CtypesExact(ls: seq<Layer>)
    ensures forall i, j :: 0 <= i < j < |Ctypes(ls)| ==> Ctypes(ls)[i] != Ctypes(ls)[j]
    ensures forall x :: x in ls ==> x.key.ctype in Ctypes(ls)
    ensures forall ct :: ct in Ctypes(ls) ==> exists x :: x in ls && x.key.ctype == ct
  {
    if ls != [] {
      CtypesExact(ls[..|ls|-1]);
    }
  }

  /** An earlier type in the list occurs before any component of a later one. */
  lemma {:induction false} CtypesInOrder(ls: seq<Layer>, i: nat, j: nat) returns (n: nat)
    requires i < j < |Ctypes(ls)|
    ensures n < |ls| && ls[n].key.ctype == Ctypes(ls)[i]
    ensures forall m :: 0 <= m <= n ==> ls[m].key.ctype != Ctypes(ls)[j]
  {
    var last := |ls| - 1;
    var t := ls[..last];
    CtypesExact(t);
    if j < |Ctypes(t)| {
      n := CtypesInOrder(t, i, j);
    } else {
      assert Ctypes(t)[i] in Ctypes(t);
      var x :| x in t && x.key.ctype == Ctypes(t)[i];
      n :| 0 <= n < |t| && t[n] == x;
      assert forall m :: 0 <= m < |t| ==> t[m] in t;
    }
  }

  ghost predicate HasCtype(ls: seq<Layer>, ct: string) {
    forall x :: x in ls ==> x.key.ctype == ct
  }

  /** `f` rewrites every group of `ls` into a group of the same component type. */
  ghost predicate KeepsCtypes(ls: seq<Layer>, f: seq<Layer> -> seq<Layer>) {
    forall ct :: HasCtype(f(Select(ls, OfCtype(ct))), ct)
  }

  /** Only the group of its own component type decides the pins at a key. */
  lemma {:induction false} PerCtypeAt(ls: seq<Layer>, ctypes: seq<string>, f: seq<Layer> -> seq<Layer>, k: Key)
    requires KeepsCtypes(ls, f)
    requires forall i, j :: 0 <= i < j < |ctypes| ==> ctypes[i] != ctypes[j]
    ensures At(PerCtype(ls, ctypes, f), k) ==
            if k.ctype in ctypes then At(f(Select(ls, OfCtype(k.ctype))), k) else map[]
  {
    hide At;
    if ctypes == [] {
      AtAbsent([], k);
    } else {
      var n := |ctypes| - 1;
      var g := f(Select(ls, OfCtype(ctypes[n])));
      PerCtypeAt(ls, ctypes[..n], f, k);
      AtConcat(PerCtype(ls, ctypes[..n], f), g, k);
      assert HasCtype(g, ctypes[n]);
      if ctypes[n] == k.ctype {
        assert k.ctype !in ctypes[..n];
        OverrideEmpty(At(g, k));
      } else {
        AtAbsent(g, k);
        OverrideEmpty(At(PerCtype(ls, ctypes[..n], f), k));
      }
    }
  }

  /** Selecting a component type gives back the rewritten group of that type. */
  lemma {:induction false} PerCtypeSelect(ls: seq<Layer>, ctypes: seq<string>, f: seq<Layer> -> seq<Layer>, ct: string)
    requires KeepsCtypes(ls, f)
    requires forall i, j :: 0 <= i < j < |ctypes| ==> ctypes[i] != ctypes[j]
    ensures Select(PerCtype(ls, ctypes, f), OfCtype(ct)) ==
            if ct in ctypes then f(Select(ls, OfCtype(ct))) else []
  {
    hide Select, OfCtype;
    if ctypes == [] {
      SelectEmpty(OfCtype(ct));
    } else {
      var n := |ctypes| - 1;
      var g := f(Select(ls, OfCtype(ctypes[n])));
      assert ctypes == ctypes[..n] + [ctypes[n]];
      PerCtypeSelect(ls, ctypes[..n], f, ct);
      WholeSlice(f(Select(ls, OfCtype(ct))));
      WholeSlice(Select(PerCtype(ls, ctypes[..n], f), OfCtype(ct)));
      SelectConcat(PerCtype(ls, ctypes[..n], f), g, OfCtype(ct));
      assert HasCtype(g, ctypes[n]);
      if ctypes[n] == ct {
        assert ct !in ctypes[..n];
        AllOfCtype(g, ct);
      } else {
        NoneOfCtype(g, ctypes[n], ct);
      }
    }
  }

  lemma SelectEmpty(p: Layer -> bool)
    ensures Select([], p) == []
  {
  }

  lemma AllOfCtype(g: seq<Layer>, ct: string)
    requires HasCtype(g, ct)
    ensures Select(g, OfCtype(ct)) == g
  {
    SelectAll(g, OfCtype(ct));
  }

  lemma NoneOfCtype(g: seq<Layer>, own: string, ct: string)
    requires HasCtype(g, own) && own != ct
    ensures Select(g, OfCtype(ct)) == []
  {
    SelectNone(g, OfCtype(ct));
  }

  lemma AdjustKeepsCtypes(ls: seq<Layer>)
    ensures KeepsCtypes(ls, AdjustGroup)
  {
    forall ct ensures HasCtype(AdjustGroup(Select(ls, OfCtype(ct))), ct) {
      var g := Select(ls, OfCtype(ct));
      SelectIn(ls, OfCtype(ct));
      SortMembers(g);
      var a := AdjustSorted(Sort(g));
      forall x | x in a ensures x.key.ctype == ct {
        var i :| 0 <= i < |a| && a[i] == x;
        assert Sort(g)[i] in Sort(g);
      }
      SelectIn(a, NonEmpty());
    }
  }

  lemma AdjustAt(ls: seq<Layer>, k: Key)
    ensures At(Adjust(ls), k) == At(AdjustSorted(Sort(Select(ls, OfCtype(k.ctype)))), k)
  {
    CtypesExact(ls);
    AdjustKeepsCtypes(ls);
    PerCtypeAt(ls, Ctypes(ls), AdjustGroup, k);
    var g := Select(ls, OfCtype(k.ctype));
    if k.ctype in Ctypes(ls) {
      FoldSelectNonEmpty(AdjustSorted(Sort(g)), IsKey(k));
    } else {
      SelectNone(ls, OfCtype(k.ctype));
    }
  }
}
