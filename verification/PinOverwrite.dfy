/**
 Overwriting with flags: which components an incoming one reaches, where it is stored when it
 reaches none, and the pins of the components it creates.
 */
module PinOverwrite {
  import opened Texts
  import opened PinLayers
  import opened PinModules
  import opened PinConfig

  // ----- what an incoming component reaches -----

  /** A component is overwritten under its own key and under the wildcards the flags allow, and nowhere else. */
  lemma OverwritableIff(k: Key, m: Key, allDist: bool, allArch: bool)
    ensures Overwritable(k, m, allDist, allArch) <==>
            || k == m
            || (allDist && k == Key(m.ctype, ALL, m.arch))
            || (allArch && k == Key(m.ctype, m.dist, ALL))
            || (allDist && allArch && k == Key(m.ctype, ALL, ALL))
  {
    assert k == Key(k.ctype, k.dist, k.arch) && m == Key(m.ctype, m.dist, m.arch);
  }

  /** An incoming component at `m` that reaches nothing is stored at `k`; only deb keeps its distribution. */
  predicate StoredAt(m: Key, k: Key, allDist: bool, allArch: bool) {
    && k.ctype == m.ctype
    && k.arch == (if allArch then ALL else m.arch)
    && k.dist == (if allDist && m.ctype != "deb" then ALL else m.dist)
  }

  lemma HasKeyMerged(ls: seq<Layer>, m: Layer, allDist: bool, allArch: bool, k: Key)
    ensures HasKey(MergedLayers(ls, m, allDist, allArch), k) <==> HasKey(ls, k)
  {
    hide Overwritable;
    var r := MergedLayers(ls, m, allDist, allArch);
    assert forall i :: 0 <= i < |ls| ==> r[i].key == ls[i].key && ls[i] in ls && r[i] in r;
  }

  /** No component that is there may be overwritten by the incoming one. */
  ghost predicate Alone(ls: seq<Layer>, m: Key, allDist: bool, allArch: bool) {
    forall x :: x in ls ==> !Overwritable(x.key, m, allDist, allArch)
  }

  /** A key appears exactly when a component that reaches nothing is stored there. */
  lemma KeyAppears(ls: seq<Layer>, m: Layer, allDist: bool, allArch: bool, k: Key)
    ensures HasKey(MergeOne(ls, m, allDist, allArch), k) <==>
            HasKey(ls, k) || (Alone(ls, m.key, allDist, allArch) && StoredAt(m.key, k, allDist, allArch))
  {
    hide Overwritable, HasKey;
    if CanMerge(ls, m, allDist, allArch) {
      HasKeyMerged(ls, m, allDist, allArch, k);
    } else {
      HasKeySnoc(ls, Layer(Cleaned(m.key, allDist, allArch), m.versions), k);
    }
  }

  lemma StoredReaches(m: Key, k: Key, allDist: bool, allArch: bool)
    requires StoredAt(m, k, allDist, allArch)
    ensures Overwritable(k, m, allDist, allArch)
  {
  }

  /** The keys after an overwrite are the old ones and those under which incoming components are stored. */
  lemma {:induction false} MergeAllKeys(ls: seq<Layer>, ms: seq<Layer>, allDist: bool, allArch: bool, k: Key)
    ensures HasKey(ls, k) ==> HasKey(MergeAll(ls, ms, allDist, allArch), k)
    ensures HasKey(MergeAll(ls, ms, allDist, allArch), k) ==>
              HasKey(ls, k) || exists m :: m in ms && StoredAt(m.key, k, allDist, allArch)
  {
    hide MergeOne, HasKey, StoredAt;
    if ms != [] {
      var n := |ms| - 1;
      MergeAllKeys(ls, ms[..n], allDist, allArch, k);
      KeyAppears(MergeAll(ls, ms[..n], allDist, allArch), ms[n], allDist, allArch, k);
      assert ms[n] in ms && forall m :: m in ms[..n] ==> m in ms;
    }
  }

  // ----- the pins of a created component -----

  /** The n-th incoming component is stored at `k`, because it reaches nothing, and no earlier one is. */
  ghost predicate CreatedBy(ls: seq<Layer>, ms: seq<Layer>, allDist: bool, allArch: bool, k: Key, n: nat) {
    && n <= |ms| && !HasKey(MergeAll(ls, ms[..n], allDist, allArch), k)
    && (n < |ms| ==>
          StoredAt(ms[n].key, k, allDist, allArch) && Alone(MergeAll(ls, ms[..n], allDist, allArch), ms[n].key, allDist, allArch))
  }

  /**
   A key that was not there holds, if it appears, the fold of the incoming components that
   may overwrite it, from the one on that was stored there because it reached nothing.
   */
  lemma {:induction false} MergeAllCreated(ls: seq<Layer>, ms: seq<Layer>, allDist: bool, allArch: bool, k: Key) returns (n: nat)
    requires !HasKey(ls, k)
    ensures n <= |ms| && CreatedBy(ls, ms, allDist, allArch, k, n)
    ensures HasKey(MergeAll(ls, ms, allDist, allArch), k) <==> n < |ms|
    ensures At(MergeAll(ls, ms, allDist, allArch), k) == Fold(Select(ms[n..], Overwrites(k, allDist, allArch)))
  {
    hide MergeAll, HasKey, StoredAt, At, Select, Fold, Alone, CreatedBy;
    if ms == [] {
      n := 0;
      NotCreated(ls, ms, allDist, allArch, k);
    } else {
      var t, m := ms[..|ms|-1], ms[|ms|-1];
      n := MergeAllCreated(ls, t, allDist, allArch, k);
      LastSplit(ms);
      if n < |t| {
        CreatedBefore(ls, t, m, allDist, allArch, k, n);
      } else {
        StillAbsent(ls, t, allDist, allArch, k, n);
        CreatedNow(ls, t, m, allDist, allArch, k);
        if !HasKey(MergeAll(ls, ms, allDist, allArch), k) {
          n := |ms|;
          NotCreated(ls, ms, allDist, allArch, k);
        }
      }
    }
  }

  lemma MergeAllSnoc(ls: seq<Layer>, t: seq<Layer>, m: Layer, allDist: bool, allArch: bool)
    ensures MergeAll(ls, t + [m], allDist, allArch) == MergeOne(MergeAll(ls, t, allDist, allArch), m, allDist, allArch)
  {
    hide MergeOne;
    assert (t + [m])[..|t|] == t;
  }

  lemma NotCreated(ls: seq<Layer>, ms: seq<Layer>, allDist: bool, allArch: bool, k: Key)
    requires !HasKey(MergeAll(ls, ms, allDist, allArch), k) || (ms == [] && !HasKey(ls, k))
    ensures CreatedBy(ls, ms, allDist, allArch, k, |ms|) && !HasKey(MergeAll(ls, ms, allDist, allArch), k)
    ensures At(MergeAll(ls, ms, allDist, allArch), k) == Fold(Select(ms[|ms|..], Overwrites(k, allDist, allArch)))
  {
    hide HasKey, At, Select, Fold, MergeOne;
    WholeSlice(ms);
    KeyAbsent(MergeAll(ls, ms, allDist, allArch), k);
    NothingChosen(k, allDist, allArch);
  }

  lemma StillAbsent(ls: seq<Layer>, t: seq<Layer>, allDist: bool, allArch: bool, k: Key, n: nat)
    requires CreatedBy(ls, t, allDist, allArch, k, n) && n == |t|
    ensures !HasKey(MergeAll(ls, t, allDist, allArch), k)
  {
    WholeSlice(t);
  }

  lemma CreatedBefore(ls: seq<Layer>, t: seq<Layer>, m: Layer, allDist: bool, allArch: bool, k: Key, n: nat)
    requires CreatedBy(ls, t, allDist, allArch, k, n) && n < |t| && HasKey(MergeAll(ls, t, allDist, allArch), k)
    requires At(MergeAll(ls, t, allDist, allArch), k) == Fold(Select(t[n..], Overwrites(k, allDist, allArch)))
    ensures CreatedBy(ls, t + [m], allDist, allArch, k, n) && HasKey(MergeAll(ls, t + [m], allDist, allArch), k)
    ensures At(MergeAll(ls, t + [m], allDist, allArch), k) == Fold(Select((t + [m])[n..], Overwrites(k, allDist, allArch)))
  {
    hide MergeAll, MergeOne, HasKey, At, Select, Fold, Alone, StoredAt;
    assert (t + [m])[..n] == t[..n] && (t + [m])[n] == t[n] && (t + [m])[n..] == t[n..] + [m];
    MergeAllSnoc(ls, t, m, allDist, allArch);
    KeyAppears(MergeAll(ls, t, allDist, allArch), m, allDist, allArch, k);
    MergeOneChosen(MergeAll(ls, t, allDist, allArch), t[n..], m, allDist, allArch, k);
  }

  lemma CreatedNow(ls: seq<Layer>, t: seq<Layer>, m: Layer, allDist: bool, allArch: bool, k: Key)
    requires !HasKey(MergeAll(ls, t, allDist, allArch), k)
    ensures HasKey(MergeAll(ls, t + [m], allDist, allArch), k) ==>
              && CreatedBy(ls, t + [m], allDist, allArch, k, |t|)
              && At(MergeAll(ls, t + [m], allDist, allArch), k) == Fold(Select((t + [m])[|t|..], Overwrites(k, allDist, allArch)))
  {
    hide MergeAll, MergeOne, HasKey, At, Select, Fold, Alone, StoredAt;
    assert (t + [m])[..|t|] == t && (t + [m])[|t|] == m && (t + [m])[|t|..] == [] + [m];
    MergeAllSnoc(ls, t, m, allDist, allArch);
    KeyAppears(MergeAll(ls, t, allDist, allArch), m, allDist, allArch, k);
    if HasKey(MergeAll(ls, t + [m], allDist, allArch), k) {
      NewPins(MergeAll(ls, t, allDist, allArch), m, allDist, allArch, k);
    }
  }

  lemma NothingChosen(k: Key, allDist: bool, allArch: bool)
    ensures Fold(Select([], Overwrites(k, allDist, allArch))) == map[]
  {
  }

  lemma MergeOneChosen(before: seq<Layer>, chosen: seq<Layer>, m: Layer, allDist: bool, allArch: bool, k: Key)
    requires HasKey(before, k) && At(before, k) == Fold(Select(chosen, Overwrites(k, allDist, allArch)))
    ensures At(MergeOne(before, m, allDist, allArch), k) == Fold(Select(chosen + [m], Overwrites(k, allDist, allArch)))
  {
    hide At, Select, Fold, Overwritable;
    SelectSnoc(chosen, m, Overwrites(k, allDist, allArch));
    if Overwritable(k, m.key, allDist, allArch) {
      MergedAt(before, m, allDist, allArch, k);
      FoldSnoc(Select(chosen, Overwrites(k, allDist, allArch)), m);
    } else {
      MergeOneElsewhere(before, m, allDist, allArch, k);
    }
  }

  lemma NewPins(before: seq<Layer>, m: Layer, allDist: bool, allArch: bool, k: Key)
    requires !HasKey(before, k) && HasKey(MergeOne(before, m, allDist, allArch), k)
    ensures At(MergeOne(before, m, allDist, allArch), k) == Fold(Select([] + [m], Overwrites(k, allDist, allArch)))
  {
    hide At, Select, Fold, Overwritable, HasKey;
    KeyAppears(before, m, allDist, allArch, k);
    StoredReaches(m.key, k, allDist, allArch);
    KeyAbsent(before, k);
    NothingChosen(k, allDist, allArch);
    SelectSnoc([], m, Overwrites(k, allDist, allArch));
    FoldSnoc(Select([], Overwrites(k, allDist, allArch)), m);
    AtSnoc(before, Layer(Cleaned(m.key, allDist, allArch), m.versions), k);
    SelectEmpty(Overwrites(k, allDist, allArch));
  }

  // ----- a type that is new -----

  /** Components of other types are not touched. */
  lemma MergeOneOthers(ls: seq<Layer>, m: Layer, allDist: bool, allArch: bool, ct: string)
    requires m.key.ctype != ct
    ensures Select(MergeOne(ls, m, allDist, allArch), OfCtype(ct)) == Select(ls, OfCtype(ct))
  {
    if CanMerge(ls, m, allDist, allArch) {
      MergedOthers(ls, m, allDist, allArch, ct);
    } else {
      SelectSnoc(ls, Layer(Cleaned(m.key, allDist, allArch), m.versions), OfCtype(ct));
    }
  }

  lemma {:induction false} MergedOthers(ls: seq<Layer>, m: Layer, allDist: bool, allArch: bool, ct: string)
    requires m.key.ctype != ct
    ensures Select(MergedLayers(ls, m, allDist, allArch), OfCtype(ct)) == Select(ls, OfCtype(ct))
  {
    if ls != [] {
      var n := |ls| - 1;
      MergedOthers(ls[..n], m, allDist, allArch, ct);
      SelectSnoc(MergedLayers(ls[..n], m, allDist, allArch), MergedLayer(ls[n], m, allDist, allArch), OfCtype(ct));
    }
  }

  /**
   With both flags, components of a type other than deb that the module did not have become
   one component for every distribution and architecture, with all their pins folded in order.
   */
  lemma {:induction false} NewTypeForAll(ls: seq<Layer>, ms: seq<Layer>, ct: string)
    requires ct != "deb" && forall x :: x in ls ==> x.key.ctype != ct
    ensures var added := Select(ms, OfCtype(ct));
            Select(MergeAll(ls, ms, true, true), OfCtype(ct)) ==
            if added == [] then [] else [Layer(Key(ct, ALL, ALL), Fold(added))]
  {
    hide MergeOne, Fold;
    if ms == [] {
      SelectNone(ls, OfCtype(ct));
    } else {
      var n := |ms| - 1;
      var t, m := ms[..n], ms[n];
      var before := MergeAll(ls, t, true, true);
      NewTypeForAll(ls, t, ct);
      if m.key.ctype != ct {
        MergeOneOthers(before, m, true, true, ct);
      } else {
        FoldSnoc(Select(t, OfCtype(ct)), m);
        ForAllStep(before, m, Select(t, OfCtype(ct)));
      }
    }
  }

  lemma ForAllStep(before: seq<Layer>, m: Layer, added: seq<Layer>)
    requires m.key.ctype != "deb"
    requires Select(before, OfCtype(m.key.ctype)) == if added == [] then [] else [Layer(Key(m.key.ctype, ALL, ALL), Fold(added))]
    ensures Select(MergeOne(before, m, true, true), OfCtype(m.key.ctype)) ==
            [Layer(Key(m.key.ctype, ALL, ALL), Fold(added) + m.versions)]
  {
    hide Fold, Select;
    var ct := m.key.ctype;
    if added == [] {
      forall x | x in before
        ensures !Overwritable(x.key, m.key, true, true)
      {
        if x.key.ctype == ct {
          SelectMember(before, OfCtype(ct), x);
        }
      }
      SelectSnoc(before, Layer(Cleaned(m.key, true, true), m.versions), OfCtype(ct));
      NoFold(m.versions);
    } else {
      var x := Layer(Key(ct, ALL, ALL), Fold(added));
      SelectIn(before, OfCtype(ct));
      assert x in Select(before, OfCtype(ct)) && x in before;
      assert CanMerge(before, m, true, true);
      MergedSelect(before, m, ct);
    }
  }

  lemma NoFold(pins: Pins)
    ensures Fold([]) + pins == pins
  {
    OverrideEmpty(pins);
  }

  lemma {:induction false} MergedSelect(ls: seq<Layer>, m: Layer, ct: string)
    ensures Select(MergedLayers(ls, m, true, true), OfCtype(ct)) == MergedLayers(Select(ls, OfCtype(ct)), m, true, true)
  {
    hide Overwritable;
    if ls != [] {
      var n := |ls| - 1;
      MergedSelect(ls[..n], m, ct);
      SelectSnoc(MergedLayers(ls[..n], m, true, true), MergedLayer(ls[n], m, true, true), OfCtype(ct));
      if ls[n].key.ctype == ct {
        var s := Select(ls[..n], OfCtype(ct));
        assert (s + [ls[n]])[..|s|] == s;
      }
    }
  }

  // ----- the most specific incoming pin wins -----

  /** Of the layers in a sorted list that pin `p`, the last is not before any other in the order of keys. */
  lemma {:induction false} LastHolder(ls: seq<Layer>, p: string) returns (x: Layer)
    requires Sorted(ls) && p in Fold(ls)
    ensures x in ls && p in x.versions && x.versions[p] == Fold(ls)[p]
    ensures forall y :: y in ls && p in y.versions ==> KeyLeq(y.key, x.key)
  {
    hide KeyLeq;
    var n := |ls| - 1;
    if p in ls[n].versions {
      x := ls[n];
      KeyTotal(x.key, x.key);
    } else {
      x := LastHolder(ls[..n], p);
      assert forall y :: y in ls ==> y in ls[..n] || y == ls[n];
    }
  }

  /**
   Whatever the flags, a component that is there takes a pin from the incoming component with
   the greatest key, in the order generic to specific, among those that may overwrite it and pin
   the package, and keeps its own pin if there is none.
   */
  lemma SpecificWins(ls: seq<Layer>, ms: seq<Layer>, allDist: bool, allArch: bool, k: Key, p: string) returns (x: Option<Layer>)
    requires HasKey(ls, k)
    ensures var after := At(MergeAll(ls, Sort(ms), allDist, allArch), k);
            match x
            case None =>
              && (p in after <==> p in At(ls, k)) && (p in after ==> after[p] == At(ls, k)[p])
              && forall y :: y in ms && Overwritable(k, y.key, allDist, allArch) ==> p !in y.versions
            case Some(m) =>
              && m in ms && Overwritable(k, m.key, allDist, allArch) && p in m.versions
              && p in after && after[p] == m.versions[p]
              && forall y :: y in ms && Overwritable(k, y.key, allDist, allArch) && p in y.versions ==> KeyLeq(y.key, m.key)
  {
    hide At, Sort, MergeAll, Overwritable, KeyLeq, HasKey, Select;
    var f := Overwrites(k, allDist, allArch);
    var chosen := Select(Sort(ms), f);
    MergeAllFlagged(ls, Sort(ms), allDist, allArch, k);
    SortSorted(ms);
    SortMembers(ms);
    SelectSorted(Sort(ms), f);
    SelectIn(Sort(ms), f);
    forall y | y in ms && Overwritable(k, y.key, allDist, allArch)
      ensures y in chosen
    {
      SelectMember(Sort(ms), f, y);
    }
    if p in Fold(chosen) {
      var m := LastHolder(chosen, p);
      x := Some(m);
    } else {
      x := None;
      FoldHolds(chosen, p);
    }
  }

  lemma {:induction false} FoldHolds(ls: seq<Layer>, p: string)
    ensures p in Fold(ls) <==> exists y :: y in ls && p in y.versions
  {
    if ls != [] {
      var n := |ls| - 1;
      FoldHolds(ls[..n], p);
      assert forall y :: y in ls <==> y in ls[..n] || y == ls[n];
    }
  }
}
