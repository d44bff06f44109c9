/**
 The critical path of a package dependency graph: a memoised recursive search for the
 longest chain that breaks cycles by remembering which packages are in progress.
 */
module CriticalPath {

  type Graph = map<string, seq<string>>

  type Chain = seq<string>

  function DepsOf(deps: Graph, pkg: string): seq<string> {
    if pkg in deps then deps[pkg] else []
  }

  /** Each package of the chain depends on the one before it. */
  ghost predicate IsWalk(deps: Graph, c: Chain) {
    forall i :: 0 <= i < |c| - 1 ==> c[i] in DepsOf(deps, c[i+1])
  }

  ghost predicate WalkTo(deps: Graph, c: Chain, pkg: string) {
    c != [] && c[|c|-1] == pkg && IsWalk(deps, c)
  }

  /** No walk of two or more packages returns to where it started. */
  ghost predicate Acyclic(deps: Graph) {
    forall c: Chain :: IsWalk(deps, c) && |c| >= 2 ==> c[0] != c[|c|-1]
  }

  /** No walk to `pkg` has more than `n` packages. */
  ghost predicate AtMost(deps: Graph, pkg: string, n: nat) {
    forall w: Chain :: WalkTo(deps, w, pkg) ==> |w| <= n
  }

  ghost predicate AllAtMost(deps: Graph, pkgs: seq<string>, n: nat) {
    forall j :: 0 <= j < |pkgs| ==> AtMost(deps, pkgs[j], n)
  }

  ghost predicate Closed(deps: Graph, universe: set<string>) {
    forall p, d :: p in universe && d in DepsOf(deps, p) ==> d in universe
  }

  // ----- walks -----

  lemma WalkSingle(deps: Graph, pkg: string)
    ensures WalkTo(deps, [pkg], pkg)
  {
  }

  lemma WalkSnoc(deps: Graph, c: Chain, pkg: string)
    requires c != [] && IsWalk(deps, c) && c[|c|-1] in DepsOf(deps, pkg)
    ensures WalkTo(deps, c + [pkg], pkg)
  {
  }

  lemma WalkCons(deps: Graph, dep: string, c: Chain)
    requires c != [] && IsWalk(deps, c) && dep in DepsOf(deps, c[0])
    ensures IsWalk(deps, [dep] + c)
  {
  }

  lemma WalkSlice(deps: Graph, c: Chain, lo: nat, hi: nat)
    requires IsWalk(deps, c) && lo <= hi <= |c|
    ensures IsWalk(deps, c[lo..hi])
  {
  }

  /** A walk to `pkg` is either just `pkg` or a walk to one of its dependencies, extended. */
  lemma WalkInit(deps: Graph, w: Chain, pkg: string)
    requires WalkTo(deps, w, pkg) && |w| > 1
    ensures w[|w|-2] in DepsOf(deps, pkg) && WalkTo(deps, w[..|w|-1], w[|w|-2])
  {
    var i := |w| - 2;
    assert w[i] in DepsOf(deps, w[i+1]);
  }

  /** Walks to a package are at most one longer than walks to its dependencies. */
  lemma AtMostFromDeps(deps: Graph, pkg: string, n: nat)
    requires AllAtMost(deps, DepsOf(deps, pkg), n)
    ensures AtMost(deps, pkg, n + 1)
  {
    forall w: Chain | WalkTo(deps, w, pkg) ensures |w| <= n + 1 {
      if |w| > 1 {
        WalkInit(deps, w, pkg);
        var j :| 0 <= j < |DepsOf(deps, pkg)| && DepsOf(deps, pkg)[j] == w[|w|-2];
        assert AtMost(deps, DepsOf(deps, pkg)[j], n);
      }
    }
  }

  lemma AllAtMostStep(deps: Graph, pkgs: seq<string>, i: nat, n: nat, k: nat)
    requires i < |pkgs|
    requires AllAtMost(deps, pkgs[..i], n) && AtMost(deps, pkgs[i], k)
    ensures AllAtMost(deps, pkgs[..i+1], if k > n then k else n)
  {
    forall j | 0 <= j < i ensures AtMost(deps, pkgs[j], if k > n then k else n) {
      assert AtMost(deps, pkgs[..i][j], n);
    }
  }

  /** Reaching a package that is still in progress closes a cycle. */
  lemma BackEdgeIsCycle(deps: Graph, pkg: string, stack: seq<string>)
    requires IsWalk(deps, [pkg] + stack) && pkg in stack
    ensures !Acyclic(deps)
  {
    var k :| 0 <= k < |stack| && stack[k] == pkg;
    var c := ([pkg] + stack)[0..k+2];
    WalkSlice(deps, [pkg] + stack, 0, k + 2);
    assert c[0] == pkg == c[|c|-1];
  }

  // ----- the search -----

  /** No package but the first occurs twice; a cycle that was broken shows as a repetition of the first. */
  predicate TailSimple(c: Chain) {
    forall i, j :: 1 <= i < j < |c| ==> c[i] != c[j]
  }

  predicate TailWithin(c: Chain, packages: set<string>) {
    forall i :: 1 <= i < |c| ==> c[i] in packages
  }

  lemma TailSnoc(c: Chain, pkg: string, packages: set<string>)
    requires TailSimple(c) && TailWithin(c, packages) && pkg !in packages
    ensures TailSimple(c + [pkg]) && TailWithin(c + [pkg], packages + {pkg})
  {
  }

  lemma TailSingle(pkg: string, packages: set<string>)
    ensures TailSimple([pkg]) && TailWithin([pkg], packages)
    ensures TailSimple([]) && TailWithin([], packages)
  {
  }

  lemma TailMore(c: Chain, a: set<string>, b: set<string>)
    requires TailWithin(c, a) && a <= b
    ensures TailWithin(c, b)
  {
  }

  /**
   Every remembered chain is a walk to its package through remembered packages, repeats
   none but the first, and is a longest one if the graph is acyclic.
   */
  ghost predicate MemoOk(deps: Graph, memo: map<string, Chain>) {
    && (forall p :: p in memo ==> WalkTo(deps, memo[p], p))
    && (forall p :: p in memo ==> TailSimple(memo[p]) && TailWithin(memo[p], memo.Keys))
    && (forall p :: p in memo && DepsOf(deps, p) != [] ==> |memo[p]| >= 2)
    && (Acyclic(deps) ==> forall p :: p in memo ==> AtMost(deps, p, |memo[p]|))
  }

  lemma MemoAt(deps: Graph, memo: map<string, Chain>, pkg: string)
    requires MemoOk(deps, memo) && pkg in memo
    ensures WalkTo(deps, memo[pkg], pkg) && TailSimple(memo[pkg]) && TailWithin(memo[pkg], memo.Keys)
    ensures DepsOf(deps, pkg) != [] ==> |memo[pkg]| >= 2
    ensures Acyclic(deps) ==> AtMost(deps, pkg, |memo[pkg]|)
  {
    hide IsWalk, Acyclic, AtMost, TailSimple, TailWithin;
  }

  lemma MemoGrows(deps: Graph, memo: map<string, Chain>, pkg: string, chain: Chain)
    requires MemoOk(deps, memo) && pkg !in memo && WalkTo(deps, chain, pkg)
    requires TailSimple(chain) && TailWithin(chain, memo.Keys + {pkg}) && (DepsOf(deps, pkg) != [] ==> |chain| >= 2)
    requires Acyclic(deps) ==> AtMost(deps, pkg, |chain|)
    ensures MemoOk(deps, memo[pkg := chain])
  {
    hide IsWalk, Acyclic, AtMost, TailSimple, TailWithin;
    var grown := memo[pkg := chain];
    assert grown.Keys == memo.Keys + {pkg};
    forall p | p in memo
      ensures TailWithin(grown[p], grown.Keys)
    {
      if p != pkg {
        TailMore(memo[p], memo.Keys, grown.Keys);
      }
    }
  }

  lemma MemoEmpty(deps: Graph)
    ensures MemoOk(deps, map[])
  {
  }

  class ChainFinder {
    const deps: Graph
    var memo: map<string, Chain>
    var inProgress: set<string>

    constructor (deps: Graph)
      ensures this.deps == deps && memo == map[] && inProgress == {}
    {
      this.deps := deps;
      memo, inProgress := map[], {};
    }

    ghost predicate Valid()
      reads this
    {
      memo.Keys !! inProgress && MemoOk(deps, memo)
    }

    /**
     The longest chain ending at `pkg`. `stack` lists the packages in progress, innermost
     first; it is what makes a revisited package a cycle.
     */
    method LongestChain(pkg: string, ghost universe: set<string>, ghost stack: seq<string>) returns (chain: Chain)
      requires Valid() && Closed(deps, universe) && pkg in universe
      requires IsWalk(deps, [pkg] + stack) && forall p :: p in inProgress <==> p in stack
      modifies this
      ensures Valid() && inProgress == old(inProgress)
      ensures forall p :: p in old(memo) ==> p in memo && memo[p] == old(memo)[p]
      ensures WalkTo(deps, chain, pkg)
      ensures TailSimple(chain) && TailWithin(chain, memo.Keys)
      ensures DepsOf(deps, pkg) != [] && pkg !in inProgress ==> |chain| >= 2
      ensures Acyclic(deps) ==> AtMost(deps, pkg, |chain|)
      decreases universe - inProgress, 1
    {
      hide IsWalk, Acyclic, AtMost, MemoOk, TailSimple, TailWithin;
      if pkg in memo {
        MemoAt(deps, memo, pkg);
        return memo[pkg];
      }
      TailSingle(pkg, memo.Keys);
      if pkg in inProgress {
        BackEdgeIsCycle(deps, pkg, stack);
        WalkSingle(deps, pkg);
        return [pkg];
      }
      inProgress := inProgress + {pkg};
      var depList := DepsOf(deps, pkg);
      if depList == [] {
        WalkSingle(deps, pkg);
        AtMostFromDeps(deps, pkg, 0);
        TailMore([pkg], memo.Keys, memo.Keys + {pkg});
        MemoGrows(deps, memo, pkg, [pkg]);
        memo := memo[pkg := [pkg]];
        inProgress := inProgress - {pkg};
        MemoAt(deps, memo, pkg);
        return memo[pkg];
      }
      var best := BestOf(pkg, depList, universe, stack);
      WalkSnoc(deps, best, pkg);
      TailSnoc(best, pkg, memo.Keys);
      if Acyclic(deps) {
        AtMostFromDeps(deps, pkg, |best|);
      }
      MemoGrows(deps, memo, pkg, best + [pkg]);
      memo := memo[pkg := best + [pkg]];
      inProgress := inProgress - {pkg};
      MemoAt(deps, memo, pkg);
      return memo[pkg];
    }

    /** The longest among the chains of the dependencies of `pkg`. */
    method BestOf(pkg: string, depList: seq<string>, ghost universe: set<string>, ghost stack: seq<string>) returns (best: Chain)
      requires depList == DepsOf(deps, pkg) && depList != []
      requires Valid() && Closed(deps, universe) && pkg in universe && pkg in inProgress
      requires IsWalk(deps, [pkg] + stack) && forall p :: p in inProgress <==> p in [pkg] + stack
      modifies this
      ensures Valid() && inProgress == old(inProgress)
      ensures forall p :: p in old(memo) ==> p in memo && memo[p] == old(memo)[p]
      ensures best != [] && IsWalk(deps, best) && best[|best|-1] in depList
      ensures TailSimple(best) && TailWithin(best, memo.Keys)
      ensures Acyclic(deps) ==> AllAtMost(deps, depList, |best|)
      decreases universe - inProgress, 2
    {
      hide IsWalk, Acyclic, AtMost, MemoOk, TailSimple, TailWithin;
      best := [];
      TailSingle(pkg, memo.Keys);
      for i := 0 to |depList|
        invariant Valid() && inProgress == old(inProgress)
        invariant forall p :: p in old(memo) ==> p in memo && memo[p] == old(memo)[p]
        invariant if i == 0 then best == [] else best != [] && IsWalk(deps, best) && best[|best|-1] in depList
        invariant TailSimple(best) && TailWithin(best, memo.Keys)
        invariant Acyclic(deps) ==> AllAtMost(deps, depList[..i], |best|)
      {
        WalkCons(deps, depList[i], [pkg] + stack);
        ghost var known := memo.Keys;
        var chain := LongestChain(depList[i], universe, [pkg] + stack);
        if Acyclic(deps) {
          AllAtMostStep(deps, depList, i, |best|, |chain|);
        }
        TailMore(best, known, memo.Keys);
        if |chain| > |best| {
          best := chain;
        }
      }
      assert depList[..|depList|] == depList;
    }
  }

  /** A walk that ends at a listed package. */
  ghost predicate WalkToListed(deps: Graph, w: Chain, packages: seq<string>) {
    w != [] && w[|w|-1] in packages && IsWalk(deps, w)
  }

  /** No chain to a listed package is longer than `n`. */
  ghost predicate Bounded(deps: Graph, packages: seq<string>, n: nat) {
    forall w: Chain :: WalkToListed(deps, w, packages) ==> |w| <= n
  }

  lemma BoundedByEach(deps: Graph, packages: seq<string>, n: nat)
    requires AllAtMost(deps, packages, n)
    ensures Bounded(deps, packages, n)
  {
    forall w: Chain | WalkToListed(deps, w, packages) ensures |w| <= n {
      var j :| 0 <= j < |packages| && packages[j] == w[|w|-1];
      assert AtMost(deps, packages[j], n) && WalkTo(deps, w, packages[j]);
    }
  }

  // ----- cyclic graphs have no longest chain -----

  /** Goes around the cycle `c` `n` more times. */
  function Around(c: Chain, n: nat): Chain
    requires |c| >= 2
  {
    if n == 0 then c else Around(c, n - 1) + c[1..]
  }

  lemma WalkJoin(deps: Graph, a: Chain, c: Chain)
    requires a != [] && c != [] && IsWalk(deps, a) && IsWalk(deps, c) && a[|a|-1] == c[0]
    ensures IsWalk(deps, a + c[1..])
  {
    var r := a + c[1..];
    forall i | 0 <= i < |r| - 1 ensures r[i] in DepsOf(deps, r[i+1]) {
      if i >= |a| - 1 {
        var k := i - (|a| - 1);
        assert r[i] == c[k] && r[i+1] == c[k+1];
      }
    }
  }

  lemma {:induction false} AroundWalks(deps: Graph, c: Chain, n: nat)
    requires |c| >= 2 && IsWalk(deps, c) && c[0] == c[|c|-1]
    ensures WalkTo(deps, Around(c, n), c[0]) && |Around(c, n)| > n
  {
    if n > 0 {
      AroundWalks(deps, c, n - 1);
      WalkJoin(deps, Around(c, n - 1), c);
    }
  }

  /** Around a cycle chains grow without bound. */
  lemma UnboundedOnCycles(deps: Graph, allPackages: seq<string>, n: nat)
    requires !Acyclic(deps) && forall p :: p in deps ==> p in allPackages
    ensures !Bounded(deps, allPackages, n)
  {
    var c: Chain :| IsWalk(deps, c) && |c| >= 2 && c[0] == c[|c|-1];
    AroundWalks(deps, c, n);
    WalkInit(deps, c, c[|c|-1]);
    assert WalkToListed(deps, Around(c, n), allPackages);
  }

  // ----- the critical path -----

  /**
   The critical path. On every graph it is a walk to a listed package that repeats none but
   its first package and uses a dependency if there is one; when every package with
   dependencies is listed it bounds all chains exactly if the graph is acyclic.
   */
  method FindCriticalPath(deps: Graph, allPackages: seq<string>) returns (longest: Chain)
    ensures if allPackages == [] then longest == [] else WalkToListed(deps, longest, allPackages)
    ensures forall i, j :: 1 <= i < j < |longest| ==> longest[i] != longest[j]
    ensures (exists p :: p in allPackages && DepsOf(deps, p) != []) ==> |longest| >= 2
    ensures Acyclic(deps) ==> Bounded(deps, allPackages, |longest|)
    ensures (forall p :: p in deps ==> p in allPackages) ==> (Bounded(deps, allPackages, |longest|) <==> Acyclic(deps))
  {
    hide IsWalk, Acyclic, AtMost, Bounded, MemoOk, TailWithin;
    MemoEmpty(deps);
    var finder := new ChainFinder(deps);
    ghost var universe := (set p | p in allPackages) + (set p, d | p in deps && d in deps[p] :: d);
    longest := [];
    for i := 0 to |allPackages|
      invariant finder.Valid() && finder.inProgress == {} && finder.deps == deps
      invariant if i == 0 then longest == [] else WalkToListed(deps, longest, allPackages)
      invariant TailSimple(longest)
      invariant forall j :: 0 <= j < i && DepsOf(deps, allPackages[j]) != [] ==> |longest| >= 2
      invariant Acyclic(deps) ==> AllAtMost(deps, allPackages[..i], |longest|)
    {
      WalkSingle(deps, allPackages[i]);
      assert [allPackages[i]] + [] == [allPackages[i]];
      var chain := finder.LongestChain(allPackages[i], universe, []);
      if Acyclic(deps) {
        AllAtMostStep(deps, allPackages, i, |longest|, |chain|);
      }
      if |chain| > |longest| {
        longest := chain;
      }
    }
    assert allPackages[..|allPackages|] == allPackages;
    if Acyclic(deps) {
      BoundedByEach(deps, allPackages, |longest|);
    } else if forall p :: p in deps ==> p in allPackages {
      UnboundedOnCycles(deps, allPackages, |longest|);
    }
  }

  /** On an acyclic graph a chain never repeats a package. */
  lemma AcyclicChainsAreSimple(deps: Graph, c: Chain, i: nat, j: nat)
    requires Acyclic(deps) && IsWalk(deps, c) && i < j < |c|
    ensures c[i] != c[j]
  {
    WalkSlice(deps, c, i, j + 1);
    assert c[i..j+1][0] == c[i] && c[i..j+1][j-i] == c[j];
  }
}
