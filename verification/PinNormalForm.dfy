/**
 More laws of `adjust`: meaning preserved on every chain-shaped module, an irredundant
 result, and idempotence.
 */
module PinNormalForm {
  import opened PinLayers
  import opened PinModules
  import opened PinAdjust

  // ----- chain-shaped modules -----

  /** On chain-shaped modules adjusting never changes an effective pin. */
  lemma AdjustPreservesChain(ls: seq<Layer>, q: Key)
    requires ChainShaped(ls) && Named(q)
    ensures Effective(Adjust(ls), q) == Effective(ls, q)
  {
    hide Effective, Masked;
    AdjustPreservesIff(ls, q);
    ChainNeverMasked(ls, q);
  }

  // ----- normal form -----

  /** No layer is empty and no pin repeats what its layer inherits from the ones before. */
  ghost predicate Irredundant(ls: seq<Layer>) {
    forall i :: 0 <= i < |ls| ==>
      |ls[i].versions| > 0 &&
      forall p :: p in ls[i].versions ==>
        !(p in Inherited(ls[..i], ls[i].key) && Inherited(ls[..i], ls[i].key)[p] == ls[i].versions[p])
  }

  lemma {:induction false} ReducedIrredundant(ls: seq<Layer>)
    ensures Irredundant(Select(AdjustSorted(ls), NonEmpty()))
  {
    if ls != [] {
      var n := |ls| - 1;
      var a := AdjustSorted(ls[..n]);
      var x' := Layer(ls[n].key, Minus(ls[n].versions, Inherited(a, ls[n].key)));
      ReducedIrredundant(ls[..n]);
      assert AdjustSorted(ls) == a + [x'];
      SelectSnoc(a, x', NonEmpty());
      FoldSelectNonEmpty(a, InheritedBy(x'.key));
      IrredundantSnoc(Select(a, NonEmpty()), x');
    }
  }

  lemma IrredundantSnoc(ls: seq<Layer>, x: Layer)
    requires Irredundant(ls)
    ensures |x.versions| > 0 && (forall p :: p in x.versions ==>
              !(p in Inherited(ls, x.key) && Inherited(ls, x.key)[p] == x.versions[p]))
            ==> Irredundant(ls + [x])
  {
    var r := ls + [x];
    forall i | 0 <= i < |ls| ensures r[..i] == ls[..i] {}
    assert r[..|ls|] == ls;
  }

  /** Layers of other component types are never inherited. */
  lemma InheritedAcross(a: seq<Layer>, g: seq<Layer>, k: Key)
    requires forall x :: x in a ==> x.key.ctype != k.ctype
    ensures Inherited(a + g, k) == Inherited(g, k)
  {
    SelectConcat(a, g, InheritedBy(k));
    SelectNone(a, InheritedBy(k));
    assert [] + Select(g, InheritedBy(k)) == Select(g, InheritedBy(k));
  }

  lemma IrredundantConcat(a: seq<Layer>, g: seq<Layer>)
    requires Irredundant(a) && Irredundant(g)
    requires forall x, y :: x in a && y in g ==> x.key.ctype != y.key.ctype
    ensures Irredundant(a + g)
  {
    var r := a + g;
    forall i | 0 <= i < |r|
      ensures |r[i].versions| > 0
      ensures forall p :: p in r[i].versions ==>
                !(p in Inherited(r[..i], r[i].key) && Inherited(r[..i], r[i].key)[p] == r[i].versions[p])
    {
      if i < |a| {
        assert r[..i] == a[..i];
      } else {
        assert r[..i] == a + g[..i - |a|];
        assert r[i] == g[i - |a|] && r[i] in g;
        InheritedAcross(a, g[..i - |a|], r[i].key);
      }
    }
  }

  lemma {:induction false} PerCtypeCtypes(ls: seq<Layer>, ctypes: seq<string>, f: seq<Layer> -> seq<Layer>)
    requires KeepsCtypes(ls, f)
    ensures forall x :: x in PerCtype(ls, ctypes, f) ==> x.key.ctype in ctypes
  {
    if ctypes != [] {
      var n := |ctypes| - 1;
      PerCtypeCtypes(ls, ctypes[..n], f);
      assert HasCtype(f(Select(ls, OfCtype(ctypes[n]))), ctypes[n]);
    }
  }

  lemma {:induction false} AdjustIrredundantUpTo(ls: seq<Layer>, ctypes: seq<string>)
    requires forall i, j :: 0 <= i < j < |ctypes| ==> ctypes[i] != ctypes[j]
    requires KeepsCtypes(ls, AdjustGroup)
    ensures Irredundant(PerCtype(ls, ctypes, AdjustGroup))
  {
    if ctypes != [] {
      var n := |ctypes| - 1;
      AdjustIrredundantUpTo(ls, ctypes[..n]);
      PerCtypeCtypes(ls, ctypes[..n], AdjustGroup);
      var g := Select(ls, OfCtype(ctypes[n]));
      ReducedIrredundant(Sort(g));
      assert HasCtype(AdjustGroup(g), ctypes[n]);
      IrredundantConcat(PerCtype(ls, ctypes[..n], AdjustGroup), AdjustGroup(g));
    }
  }

  /** Every adjusted module is irredundant. */
  lemma AdjustIrredundant(ls: seq<Layer>)
    ensures Irredundant(Adjust(ls))
  {
    CtypesExact(ls);
    AdjustKeepsCtypes(ls);
    AdjustIrredundantUpTo(ls, Ctypes(ls));
  }

  // ----- idempotence -----

  lemma {:induction false} AdjustSortedFixed(ls: seq<Layer>)
    requires Irredundant(ls)
    ensures AdjustSorted(ls) == ls
  {
    if ls != [] {
      var n := |ls| - 1;
      IrredundantPrefix(ls, n);
      AdjustSortedFixed(ls[..n]);
      MinusNothing(ls[n].versions, Inherited(ls[..n], ls[n].key));
      LastSplit(ls);
    }
  }

  lemma IrredundantPrefix(ls: seq<Layer>, n: nat)
    requires Irredundant(ls) && n <= |ls|
    ensures Irredundant(ls[..n])
  {
    forall i | 0 <= i < n ensures ls[..n][..i] == ls[..i] {}
  }

  lemma MinusNothing(m: Pins, base: Pins)
    requires forall p :: p in m ==> !(p in base && base[p] == m[p])
    ensures Minus(m, base) == m
  {
  }

  lemma AdjustGroupIdempotent(ls: seq<Layer>)
    ensures AdjustGroup(AdjustGroup(ls)) == AdjustGroup(ls)
  {
    var r := AdjustGroup(ls);
    SortSorted(ls);
    AdjustSortedSorted(Sort(ls));
    SelectSorted(AdjustSorted(Sort(ls)), NonEmpty());
    SortOfSorted(r);
    ReducedIrredundant(Sort(ls));
    AdjustSortedFixed(r);
    SelectIn(AdjustSorted(Sort(ls)), NonEmpty());
    SelectAll(r, NonEmpty());
  }

  lemma {:induction false} CtypesAppendGroup(a: seq<Layer>, g: seq<Layer>, ct: string)
    requires HasCtype(g, ct) && forall x :: x in a ==> x.key.ctype != ct
    ensures Ctypes(a + g) == if g == [] then Ctypes(a) else Ctypes(a) + [ct]
  {
    CtypesExact(a);
    if g == [] {
      assert a + g == a;
    } else {
      var n := |g| - 1;
      CtypesAppendGroup(a, g[..n], ct);
      assert (a + g)[..|a + g| - 1] == a + g[..n];
      assert g[n] in g;
    }
  }

  lemma {:induction false} PerCtypeIgnores(a: seq<Layer>, g: seq<Layer>, ct: string, ctypes: seq<string>)
    requires HasCtype(g, ct) && ct !in ctypes
    ensures PerCtype(a + g, ctypes, AdjustGroup) == PerCtype(a, ctypes, AdjustGroup)
  {
    if ctypes != [] {
      var n := |ctypes| - 1;
      PerCtypeIgnores(a, g, ct, ctypes[..n]);
      SelectConcat(a, g, OfCtype(ctypes[n]));
      SelectNone(g, OfCtype(ctypes[n]));
      assert Select(a, OfCtype(ctypes[n])) + [] == Select(a, OfCtype(ctypes[n]));
    }
  }

  lemma AdjustAppendGroup(a: seq<Layer>, g: seq<Layer>, ct: string)
    requires HasCtype(g, ct) && forall x :: x in a ==> x.key.ctype != ct
    ensures Adjust(a + g) == Adjust(a) + AdjustGroup(g)
  {
    CtypesAppendGroup(a, g, ct);
    CtypesExact(a);
    if g == [] {
      assert a + g == a;
      assert Adjust(a) + [] == Adjust(a);
    } else {
      PerCtypeIgnores(a, g, ct, Ctypes(a));
      SelectConcat(a, g, OfCtype(ct));
      SelectNone(a, OfCtype(ct));
      SelectAll(g, OfCtype(ct));
      assert [] + g == g;
      assert (Ctypes(a) + [ct])[..|Ctypes(a)|] == Ctypes(a);
    }
  }

  lemma {:induction false} AdjustIdempotentUpTo(ls: seq<Layer>, ctypes: seq<string>)
    requires forall i, j :: 0 <= i < j < |ctypes| ==> ctypes[i] != ctypes[j]
    requires KeepsCtypes(ls, AdjustGroup)
    ensures Adjust(PerCtype(ls, ctypes, AdjustGroup)) == PerCtype(ls, ctypes, AdjustGroup)
  {
    if ctypes != [] {
      var n := |ctypes| - 1;
      var a, g := PerCtype(ls, ctypes[..n], AdjustGroup), AdjustGroup(Select(ls, OfCtype(ctypes[n])));
      AdjustIdempotentUpTo(ls, ctypes[..n]);
      PerCtypeCtypes(ls, ctypes[..n], AdjustGroup);
      assert HasCtype(g, ctypes[n]);
      AdjustAppendGroup(a, g, ctypes[n]);
      AdjustGroupIdempotent(Select(ls, OfCtype(ctypes[n])));
    }
  }

  /** Adjusting twice is adjusting once, for every module. */
  lemma AdjustIdempotent(ls: seq<Layer>)
    ensures Adjust(Adjust(ls)) == Adjust(ls)
  {
    CtypesExact(ls);
    AdjustKeepsCtypes(ls);
    AdjustIdempotentUpTo(ls, Ctypes(ls));
  }
}
