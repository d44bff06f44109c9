/**
 Components and version modules as the mutable objects of scripts/versions_manager.py.
 Every operation is proved against its function on values.
 */
module VersionModules {
  import opened Texts
  import opened PinLayers
  import opened PinModules
  import opened PinConfig

  /** A distribution or architecture name; the constructor turns a missing one into "all". */
  type Name = s: string | |s| > 0 witness ALL

  class Component {
    var versions: Pins
    const ctype: string
    var dist: Name
    var arch: Name

    ghost function View(): Layer
      reads this
    {
      Layer(Key(ctype, dist, arch), versions)
    }

    constructor (versions: Pins, ctype: string, dist: string, arch: string)
      ensures View() == Layer(Defaulted(Key(ctype, dist, arch)), versions)
    {
      this.versions := versions;
      this.ctype := ctype;
      this.dist := if dist == "" then ALL else dist;
      this.arch := if arch == "" then ALL else arch;
    }

    method Clone() returns (c: Component)
      ensures fresh(c) && c.View() == View()
    {
      c := new Component(versions, ctype, dist, arch);
    }

    method Merge(pins: Pins, overwritten: bool)
      modifies this`versions
      ensures versions == if overwritten then old(versions) + pins else pins + old(versions)
    {
      var todo := pins.Keys;
      while todo != {}
        invariant todo <= pins.Keys
        invariant versions == if overwritten then old(versions) + (pins - todo) else (pins - todo) + old(versions)
        decreases todo
      {
        var package :| package in todo;
        if overwritten || package !in versions {
          versions := versions[package := pins[package]];
        }
        todo := todo - {package};
      }
      assert pins - {} == pins;
    }

    method Subtract(pins: Pins)
      modifies this`versions
      ensures versions == Minus(old(versions), pins)
    {
      var todo := pins.Keys;
      while todo != {}
        invariant todo <= pins.Keys
        invariant versions == Minus(old(versions), pins - todo)
        decreases todo
      {
        var package :| package in todo;
        if package in versions && versions[package] == pins[package] {
          versions := versions - {package};
        }
        todo := todo - {package};
      }
      assert pins - {} == pins;
    }

    predicate CheckOverwritable(component: Component, forAllDist: bool, forAllArch: bool)
      reads this, component
      ensures CheckOverwritable(component, forAllDist, forAllArch) <==>
              Overwritable(View().key, component.View().key, forAllDist, forAllArch)
    {
      if ctype != component.ctype then false
      else if dist != component.dist && !(forAllDist && dist == ALL) then false
      else if arch != component.arch && !(forAllArch && arch == ALL) then false
      else true
    }

    predicate CheckInheritable(component: Component)
      reads this, component
      ensures CheckInheritable(component) <==> Inheritable(View().key, component.View().key)
    {
      if ctype != component.ctype then false
      else if dist != component.dist && component.dist != ALL then false
      else if arch != component.arch && component.arch != ALL then false
      else true
    }

    method CleanInfo(cleanDist: bool, cleanArch: bool, force: bool)
      modifies this`dist, this`arch
      ensures !force ==> View().key == Cleaned(old(View().key), cleanDist, cleanArch)
      ensures force ==> dist == (if cleanDist then ALL else old(dist)) && arch == (if cleanArch then ALL else old(arch))
    {
      if cleanDist {
        if force || ctype != "deb" {
          dist := ALL;
        }
      }
      if cleanArch {
        arch := ALL;
      }
    }
  }

  ghost function Views(cs: seq<Component>): (r: seq<Layer>)
    reads cs
    ensures |r| == |cs|
    ensures forall i :: 0 <= i < |cs| ==> r[i] == cs[i].View()
  {
    if cs == [] then [] else Views(cs[..|cs|-1]) + [cs[|cs|-1].View()]
  }

  ghost predicate Separate(cs: seq<Component>) {
    forall i, j :: 0 <= i < j < |cs| ==> cs[i] != cs[j]
  }

  predicate ComponentLeq(a: Component, b: Component)
    reads a, b
    ensures ComponentLeq(a, b) <==> KeyLeq(a.View().key, b.View().key)
  {
    KeyLeq(Key(a.ctype, a.dist, a.arch), Key(b.ctype, b.dist, b.arch))
  }

  function InsertComponent(cs: seq<Component>, c: Component): (r: seq<Component>)
    reads cs, c
    ensures forall x :: x in r ==> x in cs || x == c
  {
    if cs == [] || ComponentLeq(cs[|cs|-1], c) then cs + [c]
    else InsertComponent(cs[..|cs|-1], c) + [cs[|cs|-1]]
  }

  /** Python's `sorted` by order key. */
  function SortComponents(cs: seq<Component>): (r: seq<Component>)
    reads cs
    ensures forall x :: x in r ==> x in cs
  {
    if cs == [] then [] else
    var sorted := SortComponents(cs[..|cs|-1]);
    MembersOfPrefix(sorted, cs, |cs|-1);
    InsertComponent(sorted, cs[|cs|-1])
  }

  lemma MembersOfPrefix<T>(a: seq<T>, b: seq<T>, n: nat)
    requires n <= |b| && forall x :: x in a ==> x in b[..n]
    ensures forall x :: x in a ==> x in b
    ensures forall i :: 0 <= i < |a| ==> a[i] in b
  {
    forall i | 0 <= i < |a|
      ensures a[i] in b
    {
      assert a[i] in a;
    }
  }

  lemma {:induction false} InsertSeparate(cs: seq<Component>, c: Component)
    requires Separate(cs) && c !in cs
    ensures Separate(InsertComponent(cs, c))
  {
    if cs == [] || ComponentLeq(cs[|cs|-1], c) {
      SeparateSnoc(cs, c);
    } else {
      var n := |cs| - 1;
      InsertSeparate(cs[..n], c);
      assert cs[n] !in cs[..n];
      SeparateSnoc(InsertComponent(cs[..n], c), cs[n]);
    }
  }

  lemma {:induction false} SortSeparate(cs: seq<Component>)
    requires Separate(cs)
    ensures Separate(SortComponents(cs))
  {
    if cs != [] {
      var n := |cs| - 1;
      SortSeparate(cs[..n]);
      assert cs[n] !in cs[..n];
      InsertSeparate(SortComponents(cs[..n]), cs[n]);
    }
  }

  lemma ViewsPrefix(cs: seq<Component>, n: nat)
    requires n <= |cs|
    ensures Views(cs)[..n] == Views(cs[..n])
  {
  }

  lemma ViewsConcat(a: seq<Component>, b: seq<Component>)
    ensures Views(a + b) == Views(a) + Views(b)
  {
  }

  lemma {:induction false} InsertComponentViews(cs: seq<Component>, c: Component)
    ensures Views(InsertComponent(cs, c)) == Insert(Views(cs), c.View())
  {
    hide Views, KeyLeq;
    if cs == [] || ComponentLeq(cs[|cs|-1], c) {
      ViewsConcat(cs, [c]);
    } else {
      var n := |cs| - 1;
      ViewsPrefix(cs, n);
      InsertComponentViews(cs[..n], c);
      ViewsConcat(InsertComponent(cs[..n], c), [cs[n]]);
    }
  }

  /** Sorting the objects sorts their values. */
  lemma {:induction false} SortComponentsViews(cs: seq<Component>)
    ensures Views(SortComponents(cs)) == Sort(Views(cs))
  {
    hide Views;
    if cs != [] {
      var n := |cs| - 1;
      ViewsPrefix(cs, n);
      SortComponentsViews(cs[..n]);
      InsertComponentViews(SortComponents(cs[..n]), cs[n]);
    }
  }

  method SortedComponents(cs: seq<Component>) returns (sorted: seq<Component>)
    requires Separate(cs)
    ensures Views(sorted) == Sort(Views(cs))
    ensures Separate(sorted)
    ensures forall c :: c in sorted ==> c in cs
    ensures forall i :: 0 <= i < |sorted| ==> sorted[i] in cs
  {
    sorted := SortComponents(cs);
    SortComponentsViews(cs);
    SortSeparate(cs);
  }

  /** The components of type `ct`, in order. */
  function GroupOf(cs: seq<Component>, ct: string): (r: seq<Component>)
    ensures forall c :: c in r ==> c in cs && c.ctype == ct
  {
    if cs == [] then [] else
    var r := GroupOf(cs[..|cs|-1], ct);
    if cs[|cs|-1].ctype == ct then r + [cs[|cs|-1]] else r
  }

  function CtypesOf(cs: seq<Component>): (r: seq<string>)
    ensures forall c :: c in cs ==> c.ctype in r
  {
    if cs == [] then [] else
    var r := CtypesOf(cs[..|cs|-1]);
    if cs[|cs|-1].ctype in r then r else r + [cs[|cs|-1].ctype]
  }

  lemma {:induction false} GroupViews(cs: seq<Component>, ct: string)
    ensures Views(GroupOf(cs, ct)) == Select(Views(cs), OfCtype(ct))
  {
    if cs != [] {
      var n := |cs| - 1;
      GroupViews(cs[..n], ct);
      ViewsPrefix(cs, n);
      ViewsConcat(GroupOf(cs[..n], ct), [cs[n]]);
    }
  }

  lemma {:induction false} CtypesViews(cs: seq<Component>)
    ensures CtypesOf(cs) == Ctypes(Views(cs))
  {
    if cs != [] {
      CtypesViews(cs[..|cs|-1]);
      ViewsPrefix(cs, |cs| - 1);
    }
  }

  lemma {:induction false} GroupSeparate(cs: seq<Component>, ct: string)
    requires Separate(cs)
    ensures Separate(GroupOf(cs, ct))
  {
    if cs != [] {
      GroupSeparate(cs[..|cs|-1], ct);
      assert cs[|cs|-1] !in cs[..|cs|-1];
    }
  }

  /** Each listed type with its components, in order, and no other type. */
  ghost predicate Grouped(cs: seq<Component>, ctypes: seq<string>, groups: map<string, seq<Component>>) {
    forall ct :: (ct in ctypes <==> ct in groups) && (ct in groups ==> groups[ct] == GroupOf(cs, ct))
  }

  lemma GroupedAt(cs: seq<Component>, ctypes: seq<string>, groups: map<string, seq<Component>>, i: nat)
    requires Grouped(cs, ctypes, groups) && i < |ctypes|
    ensures ctypes[i] in groups && groups[ctypes[i]] == GroupOf(cs, ctypes[i])
  {
    hide GroupOf;
  }

  /** Groups components by type, types in order of first occurrence. */
  method ComponentsPerCtypes(cs: seq<Component>) returns (ctypes: seq<string>, groups: map<string, seq<Component>>)
    ensures ctypes == CtypesOf(cs) && Grouped(cs, ctypes, groups)
  {
    ctypes, groups := [], map[];
    for i := 0 to |cs|
      invariant ctypes == CtypesOf(cs[..i])
      invariant Grouped(cs[..i], ctypes, groups)
    {
      var c := cs[i];
      assert cs[..i+1][..i] == cs[..i];
      if c.ctype in groups {
        groups := groups[c.ctype := groups[c.ctype] + [c]];
      } else {
        NoGroupYet(cs[..i], c.ctype);
        ctypes, groups := ctypes + [c.ctype], groups[c.ctype := [c]];
      }
    }
    assert cs[..|cs|] == cs;
  }

  lemma {:induction false} NoGroupYet(cs: seq<Component>, ct: string)
    requires ct !in CtypesOf(cs)
    ensures GroupOf(cs, ct) == []
  {
    if cs != [] {
      NoGroupYet(cs[..|cs|-1], ct);
    }
  }

  ghost predicate Shows(cs: seq<Component>, vs: seq<Layer>)
    reads cs
  {
    |cs| == |vs| && forall i :: 0 <= i < |cs| ==> cs[i].View() == vs[i]
  }

  lemma ShowsSplit(cs: seq<Component>, done: seq<Layer>, rest: seq<Layer>)
    requires Shows(cs, done + rest)
    ensures Shows(cs[..|done|], done)
  {
  }

  lemma ShowsViews(cs: seq<Component>, vs: seq<Layer>)
    ensures Shows(cs, vs) <==> Views(cs) == vs
  {
  }

  /** Gathers in `target` the pins that `viewer` inherits from `bases`, visited in order. */
  method MergeInherited(target: Component, viewer: Component, bases: seq<Component>)
    requires target.versions == map[] && forall i :: 0 <= i < |bases| ==> bases[i] != target
    modifies target`versions
    ensures target.versions == Inherited(old(Views(bases)), viewer.View().key)
  {
    ghost var k, vs := viewer.View().key, Views(bases);
    for j := 0 to |bases|
      invariant viewer.View().key == k && forall i :: 0 <= i < |bases| ==> bases[i].View() == vs[i]
      invariant target.versions == Inherited(vs[..j], k)
    {
      InheritedSnoc(vs, j, k);
      if viewer.CheckInheritable(bases[j]) {
        target.Merge(bases[j].versions, true);
      }
    }
    WholeSlice(vs);
  }

  /** The pins `component` inherits from `bases`. */
  method InheritedPins(component: Component, bases: seq<Component>) returns (pins: Pins)
    ensures pins == Inherited(Views(bases), component.View().key)
  {
    ghost var vs := Views(bases);
    var inheritable := new Component(map[], component.ctype, "", "");
    assert Shows(bases, vs);
    ShowsViews(bases, vs);
    MergeInherited(inheritable, component, bases);
    pins := inheritable.versions;
  }

  lemma InheritedSnoc(ls: seq<Layer>, j: nat, k: Key)
    requires j < |ls|
    ensures Inherited(ls[..j+1], k) ==
            if Inheritable(k, ls[j].key) then Inherited(ls[..j], k) + ls[j].versions else Inherited(ls[..j], k)
  {
    assert ls[..j+1] == ls[..j] + [ls[j]];
    SelectSnoc(ls[..j], ls[j], InheritedBy(k));
    FoldSnoc(Select(ls[..j], InheritedBy(k)), ls[j]);
  }

  class VersionModule {
    var components: seq<Component>

    ghost predicate Valid()
      reads this, components
    {
      Separate(components)
    }

    ghost function Contents(): seq<Layer>
      reads this, components
    {
      Views(components)
    }

    constructor (components: seq<Component>)
      ensures this.components == components
    {
      this.components := components;
    }

    method SetComponents(cs: seq<Component>)
      requires Separate(cs)
      modifies this`components
      ensures components == cs && Valid() && Contents() == old(Views(cs))
    {
      ghost var shown := Views(cs);
      components := cs;
      assert Shows(cs, shown);
      ShowsViews(cs, shown);
    }

    /** Removes `pins` from the component at `i` and keeps the component if anything is left. */
    static method ReduceWith(sorted: seq<Component>, i: nat, component: Component, pins: Pins, kept: seq<Component>,
                             ghost current: seq<Layer>)
      returns (result: seq<Component>)
      requires Separate(sorted) && i < |sorted| && component == sorted[i]
      requires Shows(sorted, current) && kept == NonEmptyOf(sorted[..i])
      modifies component`versions
      ensures Shows(sorted, current[i := Layer(current[i].key, Minus(current[i].versions, pins))])
      ensures result == NonEmptyOf(sorted[..i+1])
    {
      assert component !in sorted[..i];
      component.Subtract(pins);
      assert kept == NonEmptyOf(sorted[..i]);
      PrefixStep(sorted, i);
      NonEmptySnoc(sorted[..i], component);
      result := if |component.versions| > 0 then kept + [component] else kept;
    }

    /** One round: takes from the component at `i` what it inherits from the reduced ones before it. */
    static method ReduceOne(sorted: seq<Component>, i: nat, component: Component, kept: seq<Component>, ghost start: seq<Layer>)
      returns (result: seq<Component>)
      requires Separate(sorted) && i < |sorted| == |start| && component == sorted[i]
      requires Shows(sorted, AdjustSorted(start[..i]) + start[i..])
      requires kept == NonEmptyOf(sorted[..i])
      modifies component`versions
      ensures Shows(sorted, AdjustSorted(start[..i+1]) + start[i+1..])
      ensures result == NonEmptyOf(sorted[..i+1])
    {
      ghost var done := AdjustSorted(start[..i]);
      assert Shows(sorted[..i], done);
      ShowsViews(sorted[..i], done);
      var pins := InheritedPins(component, sorted[..i]);
      AdjustAdvance(start, i);
      result := ReduceWith(sorted, i, component, pins, kept, done + start[i..]);
    }

    static method ReduceAll(sorted: seq<Component>) returns (result: seq<Component>)
      requires Separate(sorted)
      modifies sorted`versions
      ensures Views(sorted) == AdjustSorted(old(Views(sorted)))
      ensures result == NonEmptyOf(sorted)
    {
      hide Views, AdjustSorted, NonEmptyOf, Separate;
      ghost var start := Views(sorted);
      result := [];
      WholeSlice(start);
      WholeSlice(sorted);
      NonEmptyNone();
      AdjustNone(start);
      ShowsViews(sorted, start);
      for i := 0 to |sorted|
        invariant Shows(sorted, AdjustSorted(start[..i]) + start[i..])
        invariant result == NonEmptyOf(sorted[..i])
      {
        result := ReduceOne(sorted, i, sorted[i], result, start);
      }
      WholeSlice(AdjustSorted(start));
      ShowsViews(sorted, AdjustSorted(start));
    }

    /** Rewrites the components of one type in place; returns those left non-empty. */
    static method AdjustComponentsForCtype(cs: seq<Component>) returns (result: seq<Component>)
      requires Separate(cs)
      modifies cs`versions
      ensures Views(result) == AdjustGroup(old(Views(cs)))
      ensures Separate(result) && forall c :: c in result ==> c in cs
    {
      hide Views, Sort, ReduceSorted;
      var sorted := SortedComponents(cs);
      result := ReduceAll(sorted);
      NonEmptyViews(sorted);
    }

    /** Adjusts one group and appends what is left of it. */
    static method AdjustNext(group: seq<Component>, kept: seq<Component>) returns (result: seq<Component>)
      requires Separate(group) && Separate(kept) && forall c :: c in kept ==> c !in group
      modifies group`versions
      ensures Views(result) == old(Views(kept)) + AdjustGroup(old(Views(group)))
      ensures Separate(result) && forall c :: c in result ==> c in kept || c in group
    {
      hide Views, AdjustGroup;
      ghost var shown := Views(kept);
      assert forall k :: 0 <= k < |kept| ==> kept[k] in kept && kept[k] !in group;
      var left := AdjustComponentsForCtype(group);
      assert Shows(kept, shown);
      ShowsViews(kept, shown);
      SeparateConcat(kept, left);
      ViewsConcat(kept, left);
      result := kept + left;
    }

    /** Adjusts the group of one type of `cs`; the other types keep their values. */
    static method AdjustType(cs: seq<Component>, ct: string, group: seq<Component>, kept: seq<Component>)
      returns (result: seq<Component>)
      requires group == GroupOf(cs, ct)
      requires Separate(cs) && Separate(kept) && forall c :: c in kept ==> c in cs && c.ctype != ct
      modifies cs`versions
      ensures Views(result) == old(Views(kept)) + AdjustGroup(Select(old(Views(cs)), OfCtype(ct)))
      ensures Separate(result) && forall c :: c in result ==> c in cs && (c in kept || c.ctype == ct)
      ensures forall k :: 0 <= k < |cs| && cs[k].ctype != ct ==> cs[k].View() == old(cs[k].View())
    {
      hide Views, Select, AdjustGroup;
      GroupSeparate(cs, ct);
      GroupViews(cs, ct);
      result := AdjustNext(group, kept);
    }

    /** Adjusts the groups of all types in turn. */
    static method AdjustAll(cs: seq<Component>, ctypes: seq<string>, groups: map<string, seq<Component>>) returns (result: seq<Component>)
      requires Separate(cs) && ctypes == CtypesOf(cs) && Grouped(cs, ctypes, groups)
      modifies cs`versions
      ensures Views(result) == PinModules.Adjust(old(Views(cs)))
      ensures Separate(result) && forall c :: c in result ==> c in cs
    {
      hide Views, Select, PerCtype, AdjustGroup, Grouped, GroupOf, CtypesOf;
      ghost var vs := Views(cs);
      CtypesViews(cs);
      CtypesExact(vs);
      PerCtypeEmpty(vs, AdjustGroup);
      result := [];
      for i := 0 to |ctypes|
        invariant Separate(result) && forall c :: c in result ==> c in cs && c.ctype in ctypes[..i]
        invariant Views(result) == PerCtype(vs, ctypes[..i], AdjustGroup)
        invariant forall k :: 0 <= k < |cs| && cs[k].ctype !in ctypes[..i] ==> cs[k].View() == vs[k]
      {
        assert ctypes[i] !in ctypes[..i];
        SelectAgree(Views(cs), vs, ctypes[i]);
        PerCtypeStep(vs, ctypes, i, AdjustGroup);
        PrefixStep(ctypes, i);
        GroupedAt(cs, ctypes, groups, i);
        result := AdjustType(cs, ctypes[i], groups[ctypes[i]], result);
      }
      WholeSlice(ctypes);
    }

    method Adjust()
      requires Valid()
      modifies this`components, components`versions
      ensures Valid()
      ensures Contents() == PinModules.Adjust(old(Contents()))
      ensures forall k :: 0 <= k < |components| ==> components[k] in old(components)
    {
      var ctypes, groups := ComponentsPerCtypes(components);
      var result := AdjustAll(components, ctypes, groups);
      SetComponents(result);
    }

    /** Merges an incoming component into one component, if it may. */
    static method MergeAt(cs: seq<Component>, j: nat, component: Component, m: Component, forAllDist: bool, forAllArch: bool,
                          ghost mv: Layer, ghost current: seq<Layer>, ghost next: seq<Layer>)
      returns (merged: bool)
      requires Separate(cs) && j < |cs| && component == cs[j] && m != component && m.View() == mv && Shows(cs, current)
      requires next == current[j := MergedLayer(current[j], mv, forAllDist, forAllArch)]
      modifies component`versions
      ensures Shows(cs, next) && m.View() == mv
      ensures merged <==> Overwritable(current[j].key, mv.key, forAllDist, forAllArch)
    {
      hide Overwritable;
      assert component.View() == current[j];
      merged := component.CheckOverwritable(m, forAllDist, forAllArch);
      if merged {
        component.Merge(m.versions, true);
      }
      assert component.View() == next[j];
    }

    /** Merges an incoming component into every component it may overwrite. */
    static method MergeInto(cs: seq<Component>, m: Component, forAllDist: bool, forAllArch: bool) returns (merged: bool)
      requires Separate(cs) && m !in cs
      modifies cs`versions
      ensures Views(cs) == MergedLayers(old(Views(cs)), old(m.View()), forAllDist, forAllArch)
      ensures merged <==> CanMerge(old(Views(cs)), old(m.View()), forAllDist, forAllArch)
    {
      hide Views, MergedLayers, MergedLayer, CanMerge, Shows, Separate;
      ghost var vs, mv := Views(cs), m.View();
      merged := false;
      WholeSlice(vs);
      MergedNone(vs, mv, forAllDist, forAllArch);
      ShowsViews(cs, vs);
      for j := 0 to |cs|
        invariant m.View() == mv
        invariant Shows(cs, MergedLayers(vs[..j], mv, forAllDist, forAllArch) + vs[j..])
        invariant merged <==> CanMerge(vs[..j], mv, forAllDist, forAllArch)
      {
        MergedAdvance(vs, mv, j, forAllDist, forAllArch);
        assert cs[j] in cs;
        var here := MergeAt(cs, j, cs[j], m, forAllDist, forAllArch, mv,
                            MergedLayers(vs[..j], mv, forAllDist, forAllArch) + vs[j..],
                            MergedLayers(vs[..j+1], mv, forAllDist, forAllArch) + vs[j+1..]);
        merged := merged || here;
      }
      WholeSlice(MergedLayers(vs, mv, forAllDist, forAllArch));
      ShowsViews(cs, MergedLayers(vs, mv, forAllDist, forAllArch));
    }

    method Append(c: Component)
      requires Valid() && c !in components
      modifies this`components
      ensures components == old(components) + [c]
      ensures Valid() && Contents() == old(Contents()) + [c.View()]
    {
      ViewsConcat(components, [c]);
      SeparateConcat(components, [c]);
      SetComponents(components + [c]);
    }

    static method CleanedClone(m: Component, cleanDist: bool, cleanArch: bool) returns (c: Component)
      ensures fresh(c) && c.View() == Layer(Cleaned(m.View().key, cleanDist, cleanArch), m.versions)
    {
      c := m.Clone();
      c.CleanInfo(cleanDist, cleanArch, false);
    }

    method MergeIncoming(m: Component, forAllDist: bool, forAllArch: bool)
      requires Valid() && m !in components
      modifies this`components, components`versions
      ensures Valid() && Contents() == MergeOne(old(Contents()), old(m.View()), forAllDist, forAllArch)
      ensures forall k :: 0 <= k < |components| ==> components[k] in old(components) || fresh(components[k])
    {
      hide Views, MergedLayers, CanMerge;
      var merged := MergeInto(components, m, forAllDist, forAllArch);
      if !merged {
        MergedNothing(old(Contents()), m.View(), forAllDist, forAllArch);
        var tmp := CleanedClone(m, forAllDist, forAllArch);
        Append(tmp);
      }
    }

    /** Merges all incoming components, generic ones first. */
    method MergeSorted(incoming: seq<Component>, forAllDist: bool, forAllArch: bool)
      requires Valid() && forall k :: 0 <= k < |incoming| ==> incoming[k] !in components
      modifies this`components, components`versions
      ensures Valid() && Contents() == MergeAll(old(Contents()), old(Views(incoming)), forAllDist, forAllArch)
      ensures forall k :: 0 <= k < |components| ==> components[k] in old(components) || fresh(components[k])
    {
      hide Views, MergeAll, MergeOne;
      ghost var ms := Views(incoming);
      MergeAllEmpty(Contents(), forAllDist, forAllArch);
      for i := 0 to |incoming|
        invariant Valid() && Contents() == MergeAll(old(Contents()), ms[..i], forAllDist, forAllArch)
        invariant forall k :: 0 <= k < |components| ==> components[k] in old(components) || fresh(components[k])
        invariant forall k :: 0 <= k < |incoming| ==> incoming[k] !in components && incoming[k].View() == ms[k]
      {
        MergeAllStep(old(Contents()), ms, i, forAllDist, forAllArch);
        MergeIncoming(incoming[i], forAllDist, forAllArch);
      }
      WholeSlice(ms);
    }

    method Overwrite(other: VersionModule, forAllDist: bool, forAllArch: bool)
      requires Valid() && other.Valid() && forall c :: c in other.components ==> c !in components
      modifies this`components, components`versions
      ensures Valid()
      ensures Contents() == PinConfig.Overwrite(old(Contents()), old(other.Contents()), forAllDist, forAllArch)
      ensures forall k :: 0 <= k < |components| ==> components[k] in old(components) || fresh(components[k])
    {
      var incoming := SortedComponents(other.components);
      MergeSorted(incoming, forAllDist, forAllArch);
      Adjust();
    }

    static method CloneOnto(copies: seq<Component>, component: Component) returns (result: seq<Component>)
      requires Separate(copies)
      ensures Separate(result) && Views(result) == Views(copies) + [component.View()]
      ensures forall k :: 0 <= k < |result| ==> (k < |copies| && result[k] == copies[k]) || fresh(result[k])
    {
      hide Views;
      var c := component.Clone();
      ViewsConcat(copies, [c]);
      SeparateConcat(copies, [c]);
      result := copies + [c];
    }

    static method ClonesOf(cs: seq<Component>, ctypes: seq<string>, excludeCtypes: seq<string>) returns (copies: seq<Component>)
      ensures Separate(copies) && forall k :: 0 <= k < |copies| ==> fresh(copies[k])
      ensures Views(copies) == Select(Views(cs), CloneFilter(ctypes, excludeCtypes))
    {
      hide Views, Select;
      ghost var vs := Views(cs);
      SelectNone([], CloneFilter(ctypes, excludeCtypes));
      copies := [];
      for i := 0 to |cs|
        invariant Separate(copies) && forall k :: 0 <= k < |copies| ==> fresh(copies[k])
        invariant Views(copies) == Select(vs[..i], CloneFilter(ctypes, excludeCtypes))
      {
        PrefixStep(vs, i);
        SelectSnoc(vs[..i], vs[i], CloneFilter(ctypes, excludeCtypes));
        if cs[i].ctype !in excludeCtypes && (ctypes == [] || cs[i].ctype in ctypes) {
          copies := CloneOnto(copies, cs[i]);
        }
      }
      WholeSlice(vs);
    }

    /** A deep copy, optionally restricted to some component types or without some. */
    method Clone(ctypes: seq<string>, excludeCtypes: seq<string>) returns (m: VersionModule)
      ensures fresh(m) && m.Valid() && m.Contents() == Select(Contents(), CloneFilter(ctypes, excludeCtypes))
      ensures forall k :: 0 <= k < |m.components| ==> fresh(m.components[k])
    {
      hide Views, Select;
      var copies := ClonesOf(components, ctypes, excludeCtypes);
      m := new VersionModule(copies);
      m.SetComponents(copies);
    }

    static method ConfigComponent(group: seq<Component>, dist: string, arch: string) returns (result: Component)
      requires group != [] && Separate(group)
      ensures fresh(result)
      ensures result.View().key == Defaulted(Key(group[0].ctype, dist, arch))
      ensures result.versions == ConfigForCtype(old(Views(group)), Defaulted(Key(group[0].ctype, dist, arch)))
    {
      hide Views, Sort, Select, Fold;
      var sorted := SortedComponents(group);
      ghost var vs := Views(sorted);
      result := new Component(map[], group[0].ctype, dist, arch);
      assert Shows(sorted, vs);
      ShowsViews(sorted, vs);
      MergeInherited(result, result, sorted);
    }

    static method ConfigOf(cs: seq<Component>, ct: string, group: seq<Component>, dist: string, arch: string) returns (c: Component)
      requires Separate(cs) && ct in CtypesOf(cs) && group == GroupOf(cs, ct)
      ensures fresh(c) && [c.View()] == ConfigGroup(dist, arch)(Select(Views(cs), OfCtype(ct)))
    {
      GroupNonEmpty(cs, ct);
      GroupSeparate(cs, ct);
      GroupViews(cs, ct);
      c := ConfigComponent(group, dist, arch);
    }

    static method ConfigNext(cs: seq<Component>, ct: string, group: seq<Component>, dist: string, arch: string,
                             made: seq<Component>, ghost shown: seq<Layer>)
      returns (result: seq<Component>)
      requires Separate(cs) && ct in CtypesOf(cs) && group == GroupOf(cs, ct) && Separate(made) && Shows(made, shown)
      ensures Separate(result) && Shows(result, shown + ConfigGroup(dist, arch)(Select(Views(cs), OfCtype(ct))))
    {
      var c := ConfigOf(cs, ct, group, dist, arch);
      assert Shows(made, shown);
      SeparateSnoc(made, c);
      result := made + [c];
    }

    static method ConfigAll(cs: seq<Component>, ctypes: seq<string>, groups: map<string, seq<Component>>, dist: string, arch: string)
      returns (result: seq<Component>)
      requires Separate(cs) && ctypes == CtypesOf(cs) && Grouped(cs, ctypes, groups)
      ensures Separate(result)
      ensures Views(result) == PerCtype(Views(cs), ctypes, ConfigGroup(dist, arch))
    {
      hide Grouped, GroupOf;
      ghost var vs := Views(cs);
      ghost var made: seq<Layer> := [];
      result := [];
      for i := 0 to |ctypes|
        invariant Separate(result)
        invariant Shows(result, made) && made == PerCtype(vs, ctypes[..i], ConfigGroup(dist, arch))
        invariant Shows(cs, vs)
      {
        PerCtypeStep(vs, ctypes, i, ConfigGroup(dist, arch));
        ShowsViews(cs, vs);
        GroupedAt(cs, ctypes, groups, i);
        result := ConfigNext(cs, ctypes[i], groups[ctypes[i]], dist, arch, result, made);
        made := PerCtype(vs, ctypes[..i+1], ConfigGroup(dist, arch));
      }
      WholeSlice(ctypes);
      ShowsViews(result, made);
    }

    /** A copy of the default module overwritten by this one. */
    method OnTopOf(default: VersionModule) returns (merged: VersionModule)
      requires Valid() && default.Valid()
      ensures fresh(merged) && merged.Valid()
      ensures merged.Contents() == PinConfig.Overwrite(old(default.Contents()), old(Contents()), false, false)
    {
      hide Views, PinConfig.Overwrite, Select;
      ghost var vs := Contents();
      merged := default.Clone([], []);
      SelectAll(default.Contents(), CloneFilter([], []));
      assert Shows(components, vs);
      ShowsViews(components, vs);
      merged.Overwrite(this, false, false);
    }

    /** The configuration for one distribution and architecture, on top of the default module. */
    method GetConfigModule(default: VersionModule, dist: string, arch: string) returns (config: VersionModule)
      requires Valid() && default.Valid()
      ensures fresh(config) && config.Valid()
      ensures config.Contents() == ConfigModule(old(default.Contents()), old(Contents()), dist, arch)
    {
      hide Views, PinConfig.Overwrite, PerCtype, Ctypes;
      var merged := OnTopOf(default);
      var ctypes, groups := ComponentsPerCtypes(merged.components);
      CtypesViews(merged.components);
      var configured := ConfigAll(merged.components, ctypes, groups, dist, arch);
      config := new VersionModule(configured);
      config.SetComponents(configured);
    }

    static method ComponentsByCtype(cs: seq<Component>, ct: string) returns (result: seq<Component>)
      ensures result == GroupOf(cs, ct)
    {
      result := [];
      for i := 0 to |cs|
        invariant result == GroupOf(cs[..i], ct)
      {
        assert cs[..i+1][..i] == cs[..i];
        if cs[i].ctype == ct {
          result := result + [cs[i]];
        }
      }
      WholeSlice(cs);
    }

    static method PinsOfCtype(cs: seq<Component>, ct: string) returns (pins: Pins)
      ensures pins == FirstPins(Select(Views(cs), OfCtype(ct)))
    {
      var group := ComponentsByCtype(cs, ct);
      GroupViews(cs, ct);
      pins := map[];
      if |group| > 0 {
        pins := group[0].versions;
      }
    }

    /** The pins that the components `base` on top of the default module generate at one key. */
    static method ConfiguredPins(default: VersionModule, base: seq<Component>, ct: string, dist: Name, arch: Name)
      returns (pins: Pins)
      requires default.Valid() && Separate(base)
      ensures pins == Config(old(default.Contents()), old(Views(base)), Key(ct, dist, arch))
    {
      hide Views, Config, ConfigModule, Select;
      ghost var ds := default.Contents();
      var baseModule := new VersionModule(base);
      baseModule.SetComponents(base);
      assert Shows(default.components, ds);
      ShowsViews(default.components, ds);
      var config := baseModule.GetConfigModule(default, dist, arch);
      pins := PinsOfCtype(config.components, ct);
      ConfigFirst(ds, old(Views(base)), dist, arch, ct);
    }

    static method PinsToSubtract(component: Component, before: seq<Component>, default: VersionModule,
                                 ghost dcs: seq<Component>, ghost done: seq<Layer>, ghost ds: seq<Layer>)
      returns (pins: Pins)
      requires Separate(before) && Shows(before, done)
      requires default.components == dcs && Separate(dcs) && Shows(dcs, ds)
      ensures pins == Config(ds, done, component.View().key)
    {
      ShowsViews(before, done);
      ShowsViews(dcs, ds);
      pins := ConfiguredPins(default, before, component.ctype, component.dist, component.arch);
    }

    /** One round: takes from the component at `i` what the default and the reduced ones before it generate. */
    static method SubtractOne(sorted: seq<Component>, i: nat, component: Component, before: seq<Component>, kept: seq<Component>,
                              default: VersionModule, ghost dcs: seq<Component>, ghost current: seq<Layer>, ghost done: seq<Layer>,
                              ghost next: seq<Layer>, ghost ds: seq<Layer>)
      returns (result: seq<Component>)
      requires Separate(sorted) && i < |sorted| && component == sorted[i] && before == sorted[..i]
      requires default.components == dcs && Separate(dcs) && Shows(dcs, ds) && component !in dcs
      requires Shows(sorted, current) && Shows(before, done)
      requires next == current[i := Layer(current[i].key, Minus(current[i].versions, Config(ds, done, current[i].key)))]
      requires kept == NonEmptyOf(before)
      modifies component`versions
      ensures Shows(dcs, ds)
      ensures Shows(sorted, next)
      ensures result == NonEmptyOf(sorted[..i+1])
    {
      hide Views, Config, Minus;
      assert forall k :: 0 <= k < |dcs| ==> dcs[k] in dcs;
      var pins := PinsToSubtract(component, before, default, dcs, done, ds);
      result := ReduceWith(sorted, i, component, pins, kept, current);
    }

    static method SubtractEach(sorted: seq<Component>, default: VersionModule, ghost dcs: seq<Component>) returns (result: seq<Component>)
      requires Separate(sorted) && default.components == dcs && Separate(dcs) && Apart(dcs, sorted)
      modifies sorted`versions
      ensures Views(sorted) == SubtractSorted(old(Views(dcs)), old(Views(sorted)))
      ensures result == NonEmptyOf(sorted)
    {
      hide Views, SubtractSorted, Config, Minus, NonEmptyOf, Shows, Separate;
      ghost var start, ds := Views(sorted), Views(dcs);
      result := [];
      WholeSlice(start);
      WholeSlice(sorted);
      NonEmptyNone();
      SubtractNone(ds, start);
      ShowsViews(sorted, start);
      ShowsViews(dcs, ds);
      ghost var current := start;
      for i := 0 to |sorted|
        invariant Shows(dcs, ds)
        invariant Shows(sorted, current) && current == SubtractSorted(ds, start[..i]) + start[i..]
        invariant result == NonEmptyOf(sorted[..i])
      {
        ghost var done := SubtractSorted(ds, start[..i]);
        SubtractAdvance(ds, start, i);
        ShowsSplit(sorted, done, start[i..]);
        SubtractLength(ds, start[..i]);
        assert sorted[i] in sorted;
        ghost var next := SubtractSorted(ds, start[..i+1]) + start[i+1..];
        result := SubtractOne(sorted, i, sorted[i], sorted[..i], result, default, dcs, current, done, next, ds);
        current := next;
      }
      WholeSlice(current);
      SubtractAllDone(ds, start);
      ShowsViews(sorted, current);
    }

    /** Reduces the components of one type against the default; returns those left non-empty. */
    static method SubtractGroupOf(cs: seq<Component>, default: VersionModule) returns (result: seq<Component>)
      requires Separate(cs) && default.Valid() && Apart(default.components, cs)
      modifies cs`versions
      ensures Views(result) == ReducedAgainst(old(default.Contents()), old(Views(cs)))
      ensures Separate(result) && forall c :: c in result ==> c in cs
    {
      hide Views, SubtractSorted, Sort, Config;
      var sorted := SortedComponents(cs);
      result := SubtractEach(sorted, default, default.components);
      NonEmptyViews(sorted);
    }

    static method SubtractNext(group: seq<Component>, default: VersionModule, kept: seq<Component>) returns (result: seq<Component>)
      requires Separate(group) && Separate(kept) && forall c :: c in kept ==> c !in group
      requires default.Valid() && Apart(default.components, group)
      modifies group`versions
      ensures Views(result) == old(Views(kept)) + ReducedAgainst(old(default.Contents()), old(Views(group)))
      ensures Separate(result) && forall c :: c in result ==> c in kept || c in group
    {
      ghost var shown := Views(kept);
      assert forall k :: 0 <= k < |kept| ==> kept[k] in kept && kept[k] !in group;
      var left := SubtractGroupOf(group, default);
      assert Shows(kept, shown);
      ShowsViews(kept, shown);
      SeparateConcat(kept, left);
      ViewsConcat(kept, left);
      result := kept + left;
    }

    static method SubtractType(cs: seq<Component>, ct: string, group: seq<Component>, default: VersionModule, kept: seq<Component>)
      returns (result: seq<Component>)
      requires group == GroupOf(cs, ct)
      requires Separate(cs) && Separate(kept) && forall c :: c in kept ==> c in cs && c.ctype != ct
      requires default.Valid() && Apart(default.components, cs)
      modifies cs`versions
      ensures Views(result) == old(Views(kept)) + ReducedAgainst(old(default.Contents()), Select(old(Views(cs)), OfCtype(ct)))
      ensures Separate(result) && forall c :: c in result ==> c in cs && (c in kept || c.ctype == ct)
      ensures forall k :: 0 <= k < |cs| && cs[k].ctype != ct ==> cs[k].View() == old(cs[k].View())
    {
      hide Views, Select, ReducedAgainst;
      GroupSeparate(cs, ct);
      GroupViews(cs, ct);
      result := SubtractNext(group, default, kept);
    }

    static method SubtractAll(cs: seq<Component>, ctypes: seq<string>, groups: map<string, seq<Component>>, default: VersionModule)
      returns (result: seq<Component>)
      requires Separate(cs) && ctypes == CtypesOf(cs) && Grouped(cs, ctypes, groups)
      requires default.Valid() && Apart(default.components, cs)
      modifies cs`versions
      ensures Views(result) == PinConfig.Subtract(old(Views(cs)), old(default.Contents()))
      ensures Separate(result) && forall c :: c in result ==> c in cs
    {
      hide Views, Select, PerCtype, Config, ReducedAgainst, Grouped, GroupOf, CtypesOf;
      ghost var vs, ds := Views(cs), default.Contents();
      CtypesViews(cs);
      CtypesExact(vs);
      PerCtypeEmpty(vs, SubtractGroup(ds));
      result := [];
      for i := 0 to |ctypes|
        invariant Separate(result) && forall c :: c in result ==> c in cs && c.ctype in ctypes[..i]
        invariant Views(result) == PerCtype(vs, ctypes[..i], SubtractGroup(ds))
        invariant Shows(default.components, ds)
        invariant forall k :: 0 <= k < |cs| && cs[k].ctype !in ctypes[..i] ==> cs[k].View() == vs[k]
      {
        assert ctypes[i] !in ctypes[..i];
        ShowsViews(default.components, ds);
        SelectAgree(Views(cs), vs, ctypes[i]);
        PerCtypeStep(vs, ctypes, i, SubtractGroup(ds));
        PrefixStep(ctypes, i);
        GroupedAt(cs, ctypes, groups, i);
        result := SubtractType(cs, ctypes[i], groups[ctypes[i]], default, result);
      }
      WholeSlice(ctypes);
    }

    /** A fresh copy of this module's components. */
    method CopiedComponents() returns (copies: seq<Component>)
      ensures Separate(copies) && Views(copies) == old(Contents())
      ensures forall k :: 0 <= k < |copies| ==> fresh(copies[k])
    {
      var copy := Clone([], []);
      SelectAll(Contents(), CloneFilter([], []));
      copies := copy.components;
    }

    method SubtractedCopy(default: VersionModule) returns (result: seq<Component>)
      requires Valid() && default.Valid()
      ensures Separate(result) && Views(result) == PinConfig.Subtract(old(Contents()), old(default.Contents()))
    {
      hide Views, PinConfig.Subtract, Select;
      ghost var ds := default.Contents();
      var copies := CopiedComponents();
      assert Shows(default.components, ds);
      ShowsViews(default.components, ds);
      var ctypes, groups := ComponentsPerCtypes(copies);
      result := SubtractAll(copies, ctypes, groups, default);
    }

    /** Removes from this module what the default module and the more generic layers already give. */
    method Subtract(default: VersionModule)
      requires Valid() && default.Valid()
      modifies this`components
      ensures Valid() && Contents() == PinConfig.Subtract(old(Contents()), old(default.Contents()))
    {
      var result := SubtractedCopy(default);
      SetComponents(result);
    }
  }

  ghost predicate Apart(a: seq<Component>, b: seq<Component>) {
    forall i, j :: 0 <= i < |a| && 0 <= j < |b| ==> a[i] != b[j]
  }

  lemma SubtractAdvance(ds: seq<Layer>, start: seq<Layer>, i: nat)
    requires i < |start|
    ensures var done := SubtractSorted(ds, start[..i]);
            && SubtractSorted(ds, start[..i+1]) + start[i+1..] ==
               (done + start[i..])[i := Layer(start[i].key, Minus(start[i].versions, Config(ds, done, start[i].key)))]
            && (done + start[i..])[i] == start[i]
  {
    var done := SubtractSorted(ds, start[..i]);
    var x := Layer(start[i].key, Minus(start[i].versions, Config(ds, done, start[i].key)));
    PrefixPrefix(start, i);
    Replaced(done, start, i, x);
  }

  lemma PrefixPrefix(s: seq<Layer>, i: nat)
    requires i < |s|
    ensures s[..i+1][..i] == s[..i]
  {
  }

  function FirstPins(ls: seq<Layer>): Pins {
    if ls == [] then map[] else ls[0].versions
  }

  lemma ConfigFirst(ds: seq<Layer>, ms: seq<Layer>, dist: string, arch: string, ct: string)
    ensures FirstPins(Select(ConfigModule(ds, ms, dist, arch), OfCtype(ct))) == Config(ds, ms, Defaulted(Key(ct, dist, arch)))
  {
    ConfigModuleExact(ds, ms, dist, arch, ct);
  }

  lemma {:induction false} GroupNonEmpty(cs: seq<Component>, ct: string)
    requires ct in CtypesOf(cs)
    ensures GroupOf(cs, ct) != []
  {
    if ct in CtypesOf(cs[..|cs|-1]) {
      GroupNonEmpty(cs[..|cs|-1], ct);
    }
  }

  function CloneFilter(ctypes: seq<string>, excludeCtypes: seq<string>): Layer -> bool {
    (x: Layer) => x.key.ctype !in excludeCtypes && (ctypes == [] || x.key.ctype in ctypes)
  }

  /** Cloning some types and cloning without them divides the components of a module. */
  lemma CloneDivides(ls: seq<Layer>, ctypes: seq<string>, x: Layer)
    requires ctypes != []
    ensures x in Select(ls, CloneFilter(ctypes, [])) <==> x in ls && x.key.ctype in ctypes
    ensures x in Select(ls, CloneFilter([], ctypes)) <==> x in ls && x.key.ctype !in ctypes
    ensures x !in Select(ls, CloneFilter(ctypes, ctypes))
  {
    SelectIn(ls, CloneFilter(ctypes, []));
    SelectIn(ls, CloneFilter([], ctypes));
    SelectIn(ls, CloneFilter(ctypes, ctypes));
    if x in ls && x.key.ctype in ctypes {
      SelectMember(ls, CloneFilter(ctypes, []), x);
    } else if x in ls {
      SelectMember(ls, CloneFilter([], ctypes), x);
    }
  }

  lemma MergeAllEmpty(ls: seq<Layer>, allDist: bool, allArch: bool)
    ensures MergeAll(ls, [], allDist, allArch) == ls
  {
  }

  lemma MergeAllStep(ls: seq<Layer>, ms: seq<Layer>, i: nat, allDist: bool, allArch: bool)
    requires i < |ms|
    ensures MergeAll(ls, ms[..i+1], allDist, allArch) == MergeOne(MergeAll(ls, ms[..i], allDist, allArch), ms[i], allDist, allArch)
  {
    assert ms[..i+1][..i] == ms[..i];
  }

  lemma MergedNothing(ls: seq<Layer>, m: Layer, allDist: bool, allArch: bool)
    requires !CanMerge(ls, m, allDist, allArch)
    ensures MergedLayers(ls, m, allDist, allArch) == ls
  {
  }

  lemma {:induction false} SelectAgree(a: seq<Layer>, b: seq<Layer>, ct: string)
    requires |a| == |b|
    requires forall k :: 0 <= k < |a| ==> a[k].key.ctype == b[k].key.ctype && (a[k].key.ctype == ct ==> a[k] == b[k])
    ensures Select(a, OfCtype(ct)) == Select(b, OfCtype(ct))
  {
    if a != [] {
      SelectAgree(a[..|a|-1], b[..|b|-1], ct);
    }
  }

  lemma PerCtypeEmpty(ls: seq<Layer>, f: seq<Layer> -> seq<Layer>)
    ensures PerCtype(ls, [], f) == []
  {
  }

  lemma PerCtypeStep(ls: seq<Layer>, ctypes: seq<string>, i: nat, f: seq<Layer> -> seq<Layer>)
    requires i < |ctypes|
    ensures PerCtype(ls, ctypes[..i+1], f) == PerCtype(ls, ctypes[..i], f) + f(Select(ls, OfCtype(ctypes[i])))
  {
    assert ctypes[..i+1][..i] == ctypes[..i];
  }

  lemma SeparateSnoc(a: seq<Component>, c: Component)
    requires Separate(a) && forall k :: 0 <= k < |a| ==> a[k] != c
    ensures Separate(a + [c])
  {
  }

  lemma SeparateConcat(a: seq<Component>, b: seq<Component>)
    requires Separate(a) && Separate(b) && forall c :: c in a ==> c !in b
    ensures Separate(a + b)
  {
    var r := a + b;
    forall i, j | 0 <= i < j < |r| ensures r[i] != r[j] {
      if i < |a| <= j {
        assert r[i] in a && r[j] in b;
      }
    }
  }

  function NonEmptyOf(cs: seq<Component>): (r: seq<Component>)
    reads cs
    ensures forall c :: c in r ==> c in cs
  {
    if cs == [] then [] else
    var r := NonEmptyOf(cs[..|cs|-1]);
    if |cs[|cs|-1].versions| > 0 then r + [cs[|cs|-1]] else r
  }

  lemma MergedNone(vs: seq<Layer>, mv: Layer, allDist: bool, allArch: bool)
    ensures MergedLayers(vs[..0], mv, allDist, allArch) + vs[0..] == vs
    ensures !CanMerge(vs[..0], mv, allDist, allArch)
  {
  }

  lemma MergedAdvance(vs: seq<Layer>, mv: Layer, j: nat, allDist: bool, allArch: bool)
    requires j < |vs|
    ensures var current := MergedLayers(vs[..j], mv, allDist, allArch) + vs[j..];
            && |current| == |vs| && current[j] == vs[j]
            && MergedLayers(vs[..j+1], mv, allDist, allArch) + vs[j+1..] ==
               current[j := MergedLayer(current[j], mv, allDist, allArch)]
    ensures CanMerge(vs[..j+1], mv, allDist, allArch) <==>
            CanMerge(vs[..j], mv, allDist, allArch) || Overwritable(vs[j].key, mv.key, allDist, allArch)
  {
    hide MergedLayers, MergedLayer, Overwritable;
    assert vs[..j+1] == vs[..j] + [vs[j]];
  }

  lemma SubtractLength(ds: seq<Layer>, ls: seq<Layer>)
    ensures |SubtractSorted(ds, ls)| == |ls|
  {
  }

  lemma SubtractNone(ds: seq<Layer>, start: seq<Layer>)
    ensures SubtractSorted(ds, start[..0]) + start[0..] == start
  {
  }

  lemma SubtractAllDone(ds: seq<Layer>, start: seq<Layer>)
    ensures SubtractSorted(ds, start[..|start|]) + start[|start|..] == SubtractSorted(ds, start)
  {
    assert start[..|start|] == start && start[|start|..] == [];
  }

  lemma AdjustNone(start: seq<Layer>)
    ensures AdjustSorted(start[..0]) + start[0..] == start
  {
  }

  lemma NonEmptyNone()
    ensures NonEmptyOf([]) == []
  {
  }

  lemma NonEmptySnoc(cs: seq<Component>, c: Component)
    ensures NonEmptyOf(cs + [c]) == if |c.versions| > 0 then NonEmptyOf(cs) + [c] else NonEmptyOf(cs)
  {
    assert (cs + [c])[..|cs|] == cs;
  }

  lemma {:induction false} NonEmptyViews(cs: seq<Component>)
    requires Separate(cs)
    ensures Views(NonEmptyOf(cs)) == Select(Views(cs), NonEmpty())
    ensures Separate(NonEmptyOf(cs))
  {
    hide Views;
    if cs != [] {
      var n := |cs| - 1;
      NonEmptyViews(cs[..n]);
      ViewsPrefix(cs, n);
      ViewsConcat(NonEmptyOf(cs[..n]), [cs[n]]);
      assert cs[n] !in cs[..n];
    }
  }

  lemma AdjustAdvance(start: seq<Layer>, i: nat)
    requires i < |start|
    ensures var done := AdjustSorted(start[..i]);
            AdjustSorted(start[..i+1]) + start[i+1..] ==
            (done + start[i..])[i := Layer(start[i].key, Minus(start[i].versions, Inherited(done, start[i].key)))]
  {
    assert start[..i+1][..i] == start[..i];
    Replaced(AdjustSorted(start[..i]), start, i, Layer(start[i].key, Minus(start[i].versions, Inherited(AdjustSorted(start[..i]), start[i].key))));
  }

  lemma Replaced(done: seq<Layer>, start: seq<Layer>, i: nat, x: Layer)
    requires i < |start| && |done| == i
    ensures (done + start[i..])[i := x] == (done + [x]) + start[i+1..]
    ensures (done + start[i..])[i] == start[i]
  {
  }
}
