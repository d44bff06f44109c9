/**
 Values and basic algebra of version-pin layering.

 A version module is a list of layers. A layer pins packages to versions for one
 component type, one distribution and one architecture; "all" stands for every
 distribution or every architecture.
 */
module PinLayers {
  import opened Texts

  type Pins = map<string, string>

  const ALL := "all"

  datatype Key = Key(ctype: string, dist: string, arch: string)

  datatype Layer = Layer(key: Key, versions: Pins)

  // ----- pins -----

  /** The pins of `m` that `base` does not already give. */
  function Minus(m: Pins, base: Pins): Pins {
    map p | p in m && !(p in base && base[p] == m[p]) :: m[p]
  }

  lemma OverrideAssociative(a: Pins, b: Pins, c: Pins)
    ensures a + (b + c) == a + b + c
  {
  }

  lemma OverrideEmpty(a: Pins)
    ensures a + map[] == a
    ensures map[] + a == a
  {
  }

  lemma SameMaps(x: Pins, y: Pins)
    requires forall p :: p in x <==> p in y
    ensures x == y <==> forall p :: p in x ==> x[p] == y[p]
  {
    assert x.Keys == y.Keys;
  }

  /** Later layers override earlier ones. */
  function Fold(ls: seq<Layer>): Pins {
    if ls == [] then map[] else Fold(ls[..|ls|-1]) + ls[|ls|-1].versions
  }

  lemma {:induction false} FoldConcat(a: seq<Layer>, b: seq<Layer>)
    ensures Fold(a + b) == Fold(a) + Fold(b)
  {
    if b == [] {
      assert a + b == a;
    } else {
      var n := |b| - 1;
      FoldConcat(a, b[..n]);
      assert (a + b)[..|a + b| - 1] == a + b[..n];
      OverrideAssociative(Fold(a), Fold(b[..n]), b[n].versions);
    }
  }

  lemma PrefixStep<T>(s: seq<T>, i: nat)
    requires i < |s|
    ensures s[..i+1] == s[..i] + [s[i]]
  {
  }

  lemma LastSplit(ls: seq<Layer>)
    requires ls != []
    ensures ls == ls[..|ls|-1] + [ls[|ls|-1]]
  {
  }

  lemma FoldSnoc(ls: seq<Layer>, x: Layer)
    ensures Fold(ls + [x]) == Fold(ls) + x.versions
  {
    assert (ls + [x])[..|ls|] == ls;
  }

  // ----- selection -----

  function Select(ls: seq<Layer>, f: Layer -> bool): seq<Layer> {
    if ls == [] then [] else
    var n := |ls| - 1;
    if f(ls[n]) then Select(ls[..n], f) + [ls[n]] else Select(ls[..n], f)
  }

  lemma {:induction false} SelectIn(ls: seq<Layer>, f: Layer -> bool)
    ensures forall x :: x in Select(ls, f) ==> x in ls && f(x)
  {
    if ls != [] {
      SelectIn(ls[..|ls|-1], f);
    }
  }

  lemma SelectSnoc(ls: seq<Layer>, x: Layer, f: Layer -> bool)
    ensures Select(ls + [x], f) == if f(x) then Select(ls, f) + [x] else Select(ls, f)
  {
    assert (ls + [x])[..|ls|] == ls;
  }

  lemma {:induction false} SelectConcat(a: seq<Layer>, b: seq<Layer>, f: Layer -> bool)
    ensures Select(a + b, f) == Select(a, f) + Select(b, f)
  {
    if b == [] {
      assert a + b == a;
    } else {
      var n := |b| - 1;
      SelectConcat(a, b[..n], f);
      assert (a + b)[..|a + b| - 1] == a + b[..n];
    }
  }

  lemma {:induction false} SelectNone(ls: seq<Layer>, f: Layer -> bool)
    requires forall x :: x in ls ==> !f(x)
    ensures Select(ls, f) == []
  {
    if ls != [] {
      SelectNone(ls[..|ls|-1], f);
    }
  }

  lemma {:induction false} SelectMember(ls: seq<Layer>, f: Layer -> bool, x: Layer)
    requires x in ls && f(x)
    ensures x in Select(ls, f)
  {
    var n := |ls| - 1;
    if x in ls[..n] {
      SelectMember(ls[..n], f, x);
    }
  }

  lemma {:induction false} SelectEquiv(ls: seq<Layer>, f: Layer -> bool, g: Layer -> bool)
    requires forall x :: x in ls ==> f(x) == g(x)
    ensures Select(ls, f) == Select(ls, g)
  {
    if ls != [] {
      SelectEquiv(ls[..|ls|-1], f, g);
    }
  }

  lemma {:induction false} SelectAll(ls: seq<Layer>, f: Layer -> bool)
    requires forall x :: x in ls ==> f(x)
    ensures Select(ls, f) == ls
  {
    if ls != [] {
      SelectAll(ls[..|ls|-1], f);
      assert ls == ls[..|ls|-1] + [ls[|ls|-1]];
    }
  }

  /** Selecting by the stronger of two predicates ignores the weaker one. */
  lemma {:induction false} SelectSelect(ls: seq<Layer>, f: Layer -> bool, g: Layer -> bool)
    requires forall x :: x in ls && g(x) ==> f(x)
    ensures Select(Select(ls, f), g) == Select(ls, g)
  {
    if ls != [] {
      var n := |ls| - 1;
      SelectSelect(ls[..n], f, g);
      if f(ls[n]) {
        SelectSnoc(Select(ls[..n], f), ls[n], g);
      }
    }
  }

  function IsKey(k: Key): Layer -> bool { (x: Layer) => x.key == k }

  function OfCtype(ct: string): Layer -> bool { (x: Layer) => x.key.ctype == ct }

  function NonEmpty(): Layer -> bool { (x: Layer) => |x.versions| > 0 }

  /** Whether a component at `k` inherits the pins of a component at `base`. */
  predicate Inheritable(k: Key, base: Key) {
    && k.ctype == base.ctype
    && (k.dist == base.dist || base.dist == ALL)
    && (k.arch == base.arch || base.arch == ALL)
  }

  function InheritedBy(k: Key): Layer -> bool { (x: Layer) => Inheritable(k, x.key) }

  function AmongLevels(levels: seq<Key>): Layer -> bool { (x: Layer) => x.key in levels }

  /** The pins stored at one key. */
  function At(ls: seq<Layer>, k: Key): Pins {
    Fold(Select(ls, IsKey(k)))
  }

  lemma AtConcat(a: seq<Layer>, b: seq<Layer>, k: Key)
    ensures At(a + b, k) == At(a, k) + At(b, k)
  {
    SelectConcat(a, b, IsKey(k));
    FoldConcat(Select(a, IsKey(k)), Select(b, IsKey(k)));
  }

  lemma AtSnoc(a: seq<Layer>, x: Layer, k: Key)
    ensures At(a + [x], k) == if x.key == k then At(a, k) + x.versions else At(a, k)
  {
    SelectSnoc(a, x, IsKey(k));
    FoldSnoc(Select(a, IsKey(k)), x);
  }

  lemma AtAbsent(ls: seq<Layer>, k: Key)
    requires forall x :: x in ls ==> x.key != k
    ensures At(ls, k) == map[]
  {
    SelectNone(ls, IsKey(k));
  }

  lemma {:induction false} FoldNonEmpty(ls: seq<Layer>)
    ensures Fold(Select(ls, NonEmpty())) == Fold(ls)
  {
    if ls != [] {
      var n := |ls| - 1;
      FoldNonEmpty(ls[..n]);
      if |ls[n].versions| > 0 {
        FoldSnoc(Select(ls[..n], NonEmpty()), ls[n]);
      } else {
        assert ls[n].versions == map[];
      }
    }
  }

  /** Dropping empty layers changes no fold over any selection. */
  lemma FoldSelectNonEmpty(ls: seq<Layer>, f: Layer -> bool)
    ensures Fold(Select(Select(ls, NonEmpty()), f)) == Fold(Select(ls, f))
  {
    SelectCommute(ls, NonEmpty(), f);
    FoldNonEmpty(Select(ls, f));
  }

  lemma {:induction false} SelectCommute(ls: seq<Layer>, f: Layer -> bool, g: Layer -> bool)
    ensures Select(Select(ls, f), g) == Select(Select(ls, g), f)
  {
    if ls != [] {
      var n := |ls| - 1;
      SelectCommute(ls[..n], f, g);
      SelectSnoc(Select(ls[..n], f), ls[n], g);
      SelectSnoc(Select(ls[..n], g), ls[n], f);
    }
  }

  predicate DistinctKeys(ls: seq<Layer>) {
    forall i, j :: 0 <= i < j < |ls| ==> ls[i].key != ls[j].key
  }

  // ----- order -----

  /** "all" sorts as the empty string, so before every other name. */
  function OrderName(s: string): string {
    if s == ALL then "" else s
  }

  predicate KeyLeq(a: Key, b: Key) {
    var ad, aa, bd, ba := OrderName(a.dist), OrderName(a.arch), OrderName(b.dist), OrderName(b.arch);
    if a.ctype != b.ctype then StrLeq(a.ctype, b.ctype)
    else if ad != bd then StrLeq(ad, bd)
    else StrLeq(aa, ba)
  }

  lemma KeyTotal(a: Key, b: Key)
    ensures KeyLeq(a, b) || KeyLeq(b, a)
  {
    StrTotal(a.ctype, b.ctype);
    StrTotal(OrderName(a.dist), OrderName(b.dist));
    StrTotal(OrderName(a.arch), OrderName(b.arch));
  }

  lemma KeyTransitive(a: Key, b: Key, c: Key)
    requires KeyLeq(a, b) && KeyLeq(b, c)
    ensures KeyLeq(a, c)
  {
    if StrLeq(a.ctype, b.ctype) && StrLeq(b.ctype, c.ctype) {
      StrTransitive(a.ctype, b.ctype, c.ctype);
      if a.ctype == c.ctype {
        StrAntisymmetric(a.ctype, b.ctype);
      }
    }
    var x, y, z := OrderName(a.dist), OrderName(b.dist), OrderName(c.dist);
    if StrLeq(x, y) && StrLeq(y, z) {
      StrTransitive(x, y, z);
      if x == z {
        StrAntisymmetric(x, y);
      }
    }
    var u, v, w := OrderName(a.arch), OrderName(b.arch), OrderName(c.arch);
    if StrLeq(u, v) && StrLeq(v, w) {
      StrTransitive(u, v, w);
    }
  }

  ghost predicate Sorted(ls: seq<Layer>) {
    forall i, j :: 0 <= i < j < |ls| ==> KeyLeq(ls[i].key, ls[j].key)
  }

  /** Python's stable `sorted` by order key. */
  function Sort(ls: seq<Layer>): seq<Layer> {
    if ls == [] then [] else Insert(Sort(ls[..|ls|-1]), ls[|ls|-1])
  }

  function Insert(ls: seq<Layer>, x: Layer): seq<Layer> {
    if ls == [] || KeyLeq(ls[|ls|-1].key, x.key) then ls + [x]
    else Insert(ls[..|ls|-1], x) + [ls[|ls|-1]]
  }

  lemma {:induction false} InsertPermutes(ls: seq<Layer>, x: Layer)
    ensures multiset(Insert(ls, x)) == multiset(ls) + multiset{x}
  {
    if ls != [] && !KeyLeq(ls[|ls|-1].key, x.key) {
      InsertPermutes(ls[..|ls|-1], x);
      LastSplit(ls);
    }
  }

  lemma {:induction false} InsertSorted(ls: seq<Layer>, x: Layer)
    requires Sorted(ls)
    ensures Sorted(Insert(ls, x))
  {
    hide KeyLeq;
    if ls == [] {
    } else if KeyLeq(ls[|ls|-1].key, x.key) {
      forall i | 0 <= i < |ls| ensures KeyLeq(ls[i].key, x.key) {
        if i < |ls| - 1 { KeyTransitive(ls[i].key, ls[|ls|-1].key, x.key); }
      }
    } else {
      var n := |ls| - 1;
      InsertSorted(ls[..n], x);
      InsertPermutes(ls[..n], x);
      var r := Insert(ls[..n], x);
      forall i | 0 <= i < |r| ensures KeyLeq(r[i].key, ls[n].key) {
        assert r[i] in multiset(r);
        if r[i] == x {
          KeyTotal(x.key, ls[n].key);
        } else {
          assert r[i] in multiset(ls[..n]);
        }
      }
    }
  }

  lemma {:induction false} SortSorted(ls: seq<Layer>)
    ensures Sorted(Sort(ls))
  {
    if ls != [] {
      SortSorted(ls[..|ls|-1]);
      InsertSorted(Sort(ls[..|ls|-1]), ls[|ls|-1]);
    }
  }

  lemma {:induction false} SortPermutes(ls: seq<Layer>)
    ensures multiset(Sort(ls)) == multiset(ls)
  {
    if ls != [] {
      SortPermutes(ls[..|ls|-1]);
      InsertPermutes(Sort(ls[..|ls|-1]), ls[|ls|-1]);
      LastSplit(ls);
    }
  }

  lemma SortMembers(ls: seq<Layer>)
    ensures forall x :: x in Sort(ls) <==> x in ls
  {
    SortPermutes(ls);
    forall x ensures x in Sort(ls) <==> x in ls {
      assert x in Sort(ls) <==> x in multiset(Sort(ls));
      assert x in ls <==> x in multiset(ls);
    }
  }

  /** The sort is stable: layers with equal keys keep their order. */
  lemma {:induction false} SortStable(ls: seq<Layer>, k: Key)
    ensures Select(Sort(ls), IsKey(k)) == Select(ls, IsKey(k))
  {
    if ls != [] {
      var n := |ls| - 1;
      SortStable(ls[..n], k);
      SortSorted(ls[..n]);
      InsertStable(Sort(ls[..n]), ls[n], k);
    }
  }

  lemma {:induction false} InsertStable(ls: seq<Layer>, x: Layer, k: Key)
    requires Sorted(ls)
    ensures Select(Insert(ls, x), IsKey(k)) == Select(ls + [x], IsKey(k))
  {
    SelectSnoc(ls, x, IsKey(k));
    if ls != [] && !KeyLeq(ls[|ls|-1].key, x.key) {
      var n := |ls| - 1;
      InsertStable(ls[..n], x, k);
      SelectSnoc(ls[..n], x, IsKey(k));
      SelectSnoc(Insert(ls[..n], x), ls[n], IsKey(k));
      if ls[n].key == x.key { KeyTotal(x.key, x.key); }
    }
  }

  lemma SortAt(ls: seq<Layer>, k: Key)
    ensures At(Sort(ls), k) == At(ls, k)
  {
    SortStable(ls, k);
  }

  lemma {:induction false} SortOfSorted(ls: seq<Layer>)
    requires Sorted(ls)
    ensures Sort(ls) == ls
  {
    hide KeyLeq;
    if ls != [] {
      SortOfSorted(ls[..|ls|-1]);
      LastSplit(ls);
    }
  }

  lemma {:induction false} SelectSorted(ls: seq<Layer>, f: Layer -> bool)
    requires Sorted(ls)
    ensures Sorted(Select(ls, f))
  {
    if ls != [] {
      var n := |ls| - 1;
      SelectSorted(ls[..n], f);
      SelectIn(ls[..n], f);
      var r := Select(ls[..n], f);
      forall i | 0 <= i < |r| ensures KeyLeq(r[i].key, ls[n].key) {
        assert r[i] in r && r[i] in ls[..n];
      }
    }
  }
}
