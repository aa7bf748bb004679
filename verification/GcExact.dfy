/**
  When the decision of try_collect in zvm/zvm_gc.h is the right one: when nobody else holds a node that is collected,
  when a collected node is garbage, and when every loop that nobody holds is collected.
 */
module GcExact {
  import opened GcGraph
  import opened GcPaths

  /** The marks find_loop leaves on cleared nodes. */
  ghost function Marked(g: Graph, e: nat): (m: Marks)
    requires Closed(g) && e < |g|
    ensures Fits(g, m)
  {
    Walk(g, e, e, {}, true, Cleared(g)).1
  }

  /** The references to `v` held by nodes that can be reached from `e`. */
  ghost function Inner(g: Graph, e: nat, v: nat): nat { Arcs(g, ReachSet(g, {}, e), v, |g|) }

  /**
    From `e` at most one simple path leads to each node that refers back to `e`; paths through different members are
    different paths.
   */
  ghost predicate UniqueReturns(g: Graph, e: nat) {
    forall u :: 0 <= u < |g| && e in g[u] ==> OnePath(g, e, u)
  }

  /** No node on a simple cycle through `e` has a reference from elsewhere. */
  ghost predicate Unheld(g: Graph, refs: seq<int>, e: nat) {
    forall v: nat :: v < |g| && v < |refs| && OnSimpleCycle(g, e, v) ==> refs[v] <= Inner(g, e, v)
  }

  // ---------------------------------------------------------------- the counter of the node itself

  /** References to `v` from nodes below `k`, each as often as simple paths lead to its holder. */
  ghost function Weighted(g: Graph, n: nat, s: set<nat>, v: nat, k: nat): nat
    requires Closed(g) && n < |g| && k <= |g|
    decreases k
  {
    if k == 0 then 0 else Weighted(g, n, s, v, k - 1) + Paths(g, n, s, k - 1) * multiset(g[k - 1])[v]
  }

  ghost function WeightedAll(g: Graph, kids: seq<nat>, s: set<nat>, v: nat, k: nat): nat
    requires Closed(g) && (forall i :: 0 <= i < |kids| ==> kids[i] < |g|) && k <= |g|
    decreases k
  {
    if k == 0 then 0 else WeightedAll(g, kids, s, v, k - 1) + PathsAll(g, kids, s, k - 1) * multiset(g[k - 1])[v]
  }

  lemma Distribute(a: nat, b: nat, m: nat)
    ensures (a + b) * m == a * m + b * m
  {
  }

  lemma {:induction false} WeightedStep(g: Graph, n: nat, s: set<nat>, v: nat, k: nat)
    requires Closed(g) && n < |g| && k <= |g|
    ensures n in s ==> Weighted(g, n, s, v, k) == 0
    ensures n !in s ==>
              Weighted(g, n, s, v, k) == WeightedAll(g, g[n], s + {n}, v, k) + if n < k then multiset(g[n])[v] else 0
    decreases k
  {
    if k > 0 {
      WeightedStep(g, n, s, v, k - 1);
      var m := multiset(g[k - 1])[v];
      if n !in s {
        Distribute(if n == k - 1 then 1 else 0, PathsAll(g, g[n], s + {n}, k - 1), m);
      }
    }
  }

  lemma {:induction false} WeightedAllStep(g: Graph, kids: seq<nat>, s: set<nat>, v: nat, k: nat)
    requires Closed(g) && (forall i :: 0 <= i < |kids| ==> kids[i] < |g|) && k <= |g|
    ensures kids == [] ==> WeightedAll(g, kids, s, v, k) == 0
    ensures kids != [] ==>
              var last := |kids| - 1;
              WeightedAll(g, kids, s, v, k) == WeightedAll(g, kids[..last], s, v, k) + Weighted(g, kids[last], s, v, k)
    decreases k
  {
    hide Paths;
    if k > 0 {
      WeightedAllStep(g, kids, s, v, k - 1);
      var m := multiset(g[k - 1])[v];
      if kids != [] {
        var last := |kids| - 1;
        Distribute(PathsAll(g, kids[..last], s, k - 1), Paths(g, kids[last], s, k - 1), m);
      }
    }
  }

  /** find_loop counts the node it looks for once for every simple path to every reference to it. */
  lemma {:induction false} TargetCount(g: Graph, e: nat, n: nat, s: set<nat>, first: bool, m: Marks)
    requires Closed(g) && Fits(g, m) && n < |g| && e < |g|
    requires if first then n == e && e !in s else e in s
    ensures Walk(g, e, n, s, first, m).1.count[e]
         == m.count[e] + if n in s then (if n == e then 1 else 0) else Weighted(g, n, s, e, |g|)
    decreases Nodes(g) - s, 0
  {
    if n !in s {
      TargetCountAll(g, e, g[n], s + {n}, m);
      WeightedStep(g, n, s, e, |g|);
    }
  }

  lemma {:induction false} TargetCountAll(g: Graph, e: nat, kids: seq<nat>, s: set<nat>, m: Marks)
    requires Closed(g) && Fits(g, m) && e < |g| && e in s && forall k :: 0 <= k < |kids| ==> kids[k] < |g|
    ensures WalkAll(g, e, kids, s, m).1.count[e]
         == m.count[e] + multiset(kids)[e] + WeightedAll(g, kids, s, e, |g|)
    decreases Nodes(g) - s, |kids| + 1
  {
    hide Weighted, WeightedAll, Paths, PathsAll;
    WeightedAllStep(g, kids, s, e, |g|);
    if kids != [] {
      var last := |kids| - 1;
      TargetCountAll(g, e, kids[..last], s, m);
      TargetCount(g, e, kids[last], s, false, WalkAll(g, e, kids[..last], s, m).1);
      WeightedStep(g, kids[last], s, e, |g|);
      assert kids == kids[..last] + [kids[last]];
    }
  }

  lemma Times(p: nat, m: nat)
    ensures p <= 1 ==> p * m == if p == 1 then m else 0
    ensures p >= 1 ==> p * m >= m
    ensures p >= 2 && m > 0 ==> p * m > m
  {
  }

  /** Every reference from inside is counted; more often than once exactly if several paths lead to its holder. */
  lemma {:induction false} WeightedInner(g: Graph, e: nat, k: nat)
    requires Closed(g) && e < |g| && k <= |g|
    ensures Weighted(g, e, {}, e, k) >= Arcs(g, ReachSet(g, {}, e), e, k)
    ensures Weighted(g, e, {}, e, k) == Arcs(g, ReachSet(g, {}, e), e, k)
       <==> forall u :: 0 <= u < k && e in g[u] ==> OnePath(g, e, u)
    decreases k
  {
    hide Paths, OnePath, Reaches;
    if k > 0 {
      var u := k - 1;
      WeightedInner(g, e, u);
      PathsPositive(g, e, {}, u);
      OnePathIff(g, e, u);
      Times(Paths(g, e, {}, u), multiset(g[u])[e]);
      assert e in g[u] <==> multiset(g[u])[e] > 0;
    }
  }

  /** The counter of the node itself is right exactly if returns are unique, and otherwise too high. */
  lemma OwnCount(g: Graph, e: nat)
    requires Closed(g) && e < |g|
    ensures Marked(g, e).count[e] >= Inner(g, e, e)
    ensures Marked(g, e).count[e] == Inner(g, e, e) <==> UniqueReturns(g, e)
  {
    TargetCount(g, e, e, {}, true, Cleared(g));
    WeightedInner(g, e, |g|);
  }

  // ---------------------------------------------------------------- the counters of the other nodes

  /** While a node is on the path, arrivals at it are not counted: it is flagged later. */
  lemma {:induction false} OnPathUncounted(g: Graph, e: nat, n: nat, s: set<nat>, m: Marks, v: nat)
    requires Closed(g) && Fits(g, m) && n < |g| && v < |g| && e in s && v in s && v != e && !m.flag[v]
    ensures var m' := Walk(g, e, n, s, false, m).1;
            m'.flag[v] == m.flag[v] && m'.count[v] == m.count[v]
    decreases Nodes(g) - s, 0
  {
    if n !in s {
      OnPathUncountedAll(g, e, g[n], s + {n}, m, v);
    }
  }

  lemma {:induction false} OnPathUncountedAll(g: Graph, e: nat, kids: seq<nat>, s: set<nat>, m: Marks, v: nat)
    requires Closed(g) && Fits(g, m) && v < |g| && e in s && v in s && v != e && !m.flag[v]
    requires forall k :: 0 <= k < |kids| ==> kids[k] < |g|
    ensures var m' := WalkAll(g, e, kids, s, m).1;
            m'.flag[v] == m.flag[v] && m'.count[v] == m.count[v]
    decreases Nodes(g) - s, |kids| + 1
  {
    if kids != [] {
      var last := |kids| - 1;
      OnPathUncountedAll(g, e, kids[..last], s, m, v);
      OnPathUncounted(g, e, kids[last], s, WalkAll(g, e, kids[..last], s, m).1, v);
    }
  }

  /** A node that no path leads to is left alone, and one that a single path leads to is counted once if flagged. */
  lemma {:induction false} VisitedOnce(g: Graph, e: nat, n: nat, s: set<nat>, first: bool, m: Marks, v: nat)
    requires Closed(g) && Fits(g, m) && n < |g| && e < |g| && v < |g| && v != e && v !in s
    requires if first then n == e && e !in s else e in s
    ensures var m' := Walk(g, e, n, s, first, m).1;
            && (Paths(g, n, s, v) == 0 ==> m'.flag[v] == m.flag[v] && m'.count[v] == m.count[v])
            && (Paths(g, n, s, v) == 1 && !m.flag[v] ==> m'.count[v] == m.count[v] + if m'.flag[v] then 1 else 0)
    decreases Nodes(g) - s, 0
  {
    if n !in s && n == v {
      if !m.flag[v] {
        OnPathUncountedAll(g, e, g[n], s + {n}, m, v);
      }
    } else if n !in s {
      VisitedOnceAll(g, e, g[n], s + {n}, m, v);
    }
  }

  lemma {:induction false} VisitedOnceAll(g: Graph, e: nat, kids: seq<nat>, s: set<nat>, m: Marks, v: nat)
    requires Closed(g) && Fits(g, m) && e < |g| && v < |g| && v != e && v !in s && e in s
    requires forall k :: 0 <= k < |kids| ==> kids[k] < |g|
    ensures var m' := WalkAll(g, e, kids, s, m).1;
            && (PathsAll(g, kids, s, v) == 0 ==> m'.flag[v] == m.flag[v] && m'.count[v] == m.count[v])
            && (PathsAll(g, kids, s, v) == 1 && !m.flag[v] ==> m'.count[v] == m.count[v] + if m'.flag[v] then 1 else 0)
    decreases Nodes(g) - s, |kids| + 1
  {
    if kids != [] {
      var last := |kids| - 1;
      VisitedOnceAll(g, e, kids[..last], s, m, v);
      VisitedOnce(g, e, kids[last], s, false, WalkAll(g, e, kids[..last], s, m).1, v);
    }
  }

  /** A second path to a node of a cycle would give a second path to the node that closes the cycle. */
  lemma CyclePaths(g: Graph, e: nat, v: nat)
    requires Closed(g) && e < |g| && UniqueReturns(g, e) && OnSimpleCycle(g, e, v)
    ensures v < |g| && OnePath(g, e, v)
  {
    hide Path;
    var p :| Route(g, e, {}, e, p) && v in p;
    var ks := ChainPath(g, {}, e, p);
    var u, end := Last(p), |p| - 1;
    assert ks[..end] == ks && Path(g, {}, e, ks, u);
    var i :| 0 <= i < |p| && p[i] == v;
    forall a, b | Path(g, {}, e, a, v) && Path(g, {}, e, b, v)
      ensures a == b
    {
      if a != b {
        var c := if a != ks[..i] then a else b;
        assert ks[..i] + ks[i..] == ks;
        assert OnePath(g, e, u);
        var x, y := Recombine(g, e, ks[..i], c, v, ks[i..], u);
        assert false;
      }
    }
  }

  /** The node before `v` on a cycle refers to it and can be reached. */
  lemma CyclePredecessor(g: Graph, e: nat, v: nat) returns (u: nat)
    requires e < |g| && v != e && OnSimpleCycle(g, e, v)
    ensures v < |g| && u < |g| && v in g[u] && Reaches(g, {}, e, u) && OnSimpleCycle(g, e, u)
  {
    var p :| Route(g, e, {}, e, p) && v in p;
    var i :| 0 <= i < |p| && p[i] == v;
    u := p[i - 1];
    assert ChainFrom(g, {}, e, p[..i]) && Last(p[..i]) == u;
    assert u in p;
  }

  /** With unique returns every other node of a cycle is counted exactly once. */
  lemma OtherCount(g: Graph, e: nat, v: nat)
    requires Closed(g) && e < |g| && UniqueReturns(g, e) && v != e && OnSimpleCycle(g, e, v)
    ensures v < |g| && Marked(g, e).count[v] == 1 <= Inner(g, e, v)
  {
    hide UniqueReturns, OnePath, OnSimpleCycle, Walk, Reaches;
    CyclePaths(g, e, v);
    var u := CyclePredecessor(g, e, v);
    ArcCounts(g, ReachSet(g, {}, e), v, u, |g|);
    FindLoopFlagsSimpleCycles(g, e, v);
    CountedIffFlagged(g, e, v);
    VisitedOnce(g, e, e, {}, true, Cleared(g), v);
    OnePathIff(g, e, v);
    assert Marked(g, e).count[v] > 0;
  }

  lemma {:induction false} ArcCounts(g: Graph, r: set<nat>, v: nat, u: nat, k: nat)
    requires u < k <= |g| && u in r && v in g[u]
    ensures Arcs(g, r, v, k) >= 1
    decreases k
  {
    if u < k - 1 {
      ArcCounts(g, r, v, u, k - 1);
    }
  }

  // ---------------------------------------------------------------- the decision

  lemma CycleThrough(g: Graph, e: nat, u: nat)
    requires e < |g| && u < |g| && e in g[u] && Reaches(g, {}, e, u)
    ensures OnCycle(g, e) && OnSimpleCycle(g, e, e)
  {
    var p :| ChainFrom(g, {}, e, p) && Last(p) == u;
    var q := Shorten(g, {}, e, p);
    assert Route(g, e, {}, e, q) && q[0] == e;
  }

  lemma OnCycleSimple(g: Graph, e: nat)
    requires Closed(g) && e < |g|
    ensures OnCycle(g, e) <==> OnSimpleCycle(g, e, e)
    ensures OnCycle(g, e) ==> Inner(g, e, e) >= 1
  {
    if OnCycle(g, e) {
      var p :| ChainFrom(g, {}, e, p) && e in g[Last(p)];
      assert Reaches(g, {}, e, Last(p));
      CycleThrough(g, e, Last(p));
      ArcCounts(g, ReachSet(g, {}, e), e, Last(p), |g|);
    }
    if OnSimpleCycle(g, e, e) {
      var p :| Route(g, e, {}, e, p) && e in p;
    }
  }

  /**
    With unique returns the decision, for all reference counts: a loop is collected if and only if the node has no
    more references than nodes inside hold, and no other node of a loop has a second reference, be it from inside or
    from outside.
   */
  lemma UniqueCollects(g: Graph, refs: seq<int>, e: nat)
    requires Closed(g) && e < |g| == |refs| && UniqueReturns(g, e) && refs[e] > 0
    ensures Collects(g, refs, e) <==>
              && OnCycle(g, e)
              && refs[e] <= Inner(g, e, e)
              && forall v: nat :: v < |g| && v != e && OnSimpleCycle(g, e, v) ==> refs[v] <= 1
  {
    hide UniqueReturns, Inner, Collects, OnCycle, OnSimpleCycle, Walk;
    CollectsExact(g, refs, e);
    OwnCount(g, e);
    OnCycleSimple(g, e);
    forall v: nat | v < |g| && v != e && OnSimpleCycle(g, e, v)
      ensures Marked(g, e).count[v] == 1
    {
      OtherCount(g, e, v);
    }
  }

  /**
    Nobody outside holds a collected node, whatever the reference counts, if and only if returns are unique: with two
    simple paths to a node that refers back, the reference is counted twice and hides one from outside.
   */
  lemma SoundIff(g: Graph, e: nat)
    requires Closed(g) && e < |g|
    ensures (forall refs: seq<int> :: |refs| == |g| && refs[e] > 0 && Collects(g, refs, e) ==> Unheld(g, refs, e))
       <==> UniqueReturns(g, e)
  {
    if UniqueReturns(g, e) {
      forall refs: seq<int> | |refs| == |g| && refs[e] > 0 && Collects(g, refs, e)
        ensures Unheld(g, refs, e)
      {
        UniqueSound(g, refs, e);
      }
    } else {
      var refs := HiddenReference(g, e);
    }
  }

  lemma UniqueSound(g: Graph, refs: seq<int>, e: nat)
    requires Closed(g) && e < |g| == |refs| && UniqueReturns(g, e) && refs[e] > 0 && Collects(g, refs, e)
    ensures Unheld(g, refs, e)
  {
    hide UniqueReturns, Inner, Collects, OnCycle, OnSimpleCycle;
    UniqueCollects(g, refs, e);
    forall v: nat | v < |g| && v != e && OnSimpleCycle(g, e, v)
      ensures 1 <= Inner(g, e, v)
    {
      OtherCount(g, e, v);
    }
  }

  /** Reference counts that find_loop takes for internal although one of them is not. */
  lemma HiddenReference(g: Graph, e: nat) returns (refs: seq<int>)
    requires Closed(g) && e < |g| && !UniqueReturns(g, e)
    ensures |refs| == |g| && refs[e] > 0 && Collects(g, refs, e) && !Unheld(g, refs, e)
  {
    hide Path, Inner, Walk, Collects, Reaches, OnCycle, OnSimpleCycle;
    var u :| 0 <= u < |g| && e in g[u] && !OnePath(g, e, u);
    OnePathIff(g, e, u);
    PathsPositive(g, e, {}, u);
    CycleThrough(g, e, u);
    OwnCount(g, e);
    refs := Marked(g, e).count;
    CollectsExact(g, refs, e);
  }

  /**
    The decision is right for all reference counts - a loop is collected if and only if nobody outside holds it - if
    and only if returns are unique and every other node of a loop has one reference from inside.
   */
  lemma RightIff(g: Graph, e: nat)
    requires Closed(g) && e < |g|
    ensures (forall refs: seq<int> :: |refs| == |g| && refs[e] > 0 ==>
               (Collects(g, refs, e) <==> OnCycle(g, e) && Unheld(g, refs, e)))
       <==> (UniqueReturns(g, e) && forall v: nat ::
               v < |g| && v != e && OnSimpleCycle(g, e, v) ==> Inner(g, e, v) == 1)
  {
    hide UniqueReturns, Inner, Collects, OnCycle, OnSimpleCycle;
    OnCycleSimple(g, e);
    if !UniqueReturns(g, e) {
      var refs := HiddenReference(g, e);
    } else if v: nat :| v < |g| && v != e && OnSimpleCycle(g, e, v) && Inner(g, e, v) != 1 {
      OtherCount(g, e, v);
      CycleOf(g, e, v);
      var refs: seq<int> := seq(|g|, w requires 0 <= w < |g| => Inner(g, e, w));
      UniqueCollects(g, refs, e);
      assert Unheld(g, refs, e) && refs[v] > 1;
    } else {
      forall refs: seq<int> | |refs| == |g| && refs[e] > 0
        ensures Collects(g, refs, e) <==> OnCycle(g, e) && Unheld(g, refs, e)
      {
        UniqueCollects(g, refs, e);
      }
    }
  }

  lemma CycleOf(g: Graph, e: nat, v: nat)
    requires Closed(g) && e < |g| && OnSimpleCycle(g, e, v)
    ensures OnCycle(g, e)
  {
    var p :| Route(g, e, {}, e, p) && v in p;
  }

  // ---------------------------------------------------------------- garbage

  /** Every reference inside the graph is counted; there may be more from outside. */
  ghost predicate Honest(g: Graph, refs: seq<int>) {
    |refs| == |g| && forall v: nat :: v < |g| ==> refs[v] >= References(g, v)
  }

  /** No node from which `e` can be reached has a reference from outside the graph. */
  ghost predicate Garbage(g: Graph, refs: seq<int>, e: nat) {
    forall w: nat :: w < |g| && w < |refs| && Reaches(g, {}, w, e) ==> refs[w] == References(g, w)
  }

  /** Arcs from a part of the nodes, and from all only if nobody else refers to the node. */
  lemma {:induction false} ArcsWithin(g: Graph, r: set<nat>, v: nat, u: nat, k: nat)
    requires k <= |g| && u < |g| && v in g[u] && u !in r
    ensures Arcs(g, r, v, k) + (if u < k then 1 else 0) <= Arcs(g, Nodes(g), v, k)
    decreases k
  {
    if k > 0 {
      ArcsWithin(g, r, v, u, k - 1);
    }
  }

  /** Two nodes that refer to a third. */
  lemma {:induction false} TwoArcs(g: Graph, r: set<nat>, v: nat, a: nat, b: nat, k: nat)
    requires a < b < k <= |g| && a in r && b in r && v in g[a] && v in g[b]
    ensures Arcs(g, r, v, k) >= 2
    decreases k
  {
    if b < k - 1 {
      TwoArcs(g, r, v, a, b, k - 1);
    } else {
      ArcCounts(g, r, v, a, k - 1);
    }
  }

  /** What refers to a node of a collected loop is itself on the loop. */
  lemma HoldersOnCycle(g: Graph, refs: seq<int>, e: nat, v: nat, x: nat)
    requires Closed(g) && e < |g| && Honest(g, refs) && UniqueReturns(g, e) && refs[e] > 0 && Collects(g, refs, e)
    requires OnSimpleCycle(g, e, v) && x < |g| && v in g[x]
    ensures OnSimpleCycle(g, e, x)
  {
    hide UniqueReturns, Collects, OnCycle;
    UniqueCollects(g, refs, e);
    if v == e {
      if x !in ReachSet(g, {}, e) {
        ArcsWithin(g, ReachSet(g, {}, e), e, x, |g|);
        assert false;
      }
      var p :| ChainFrom(g, {}, e, p) && Last(p) == x;
      var q := Shorten(g, {}, e, p);
      assert Route(g, e, {}, e, q) && q[|q| - 1] == x;
    } else {
      var u := CyclePredecessor(g, e, v);
      if x < u {
        TwoArcs(g, Nodes(g), v, x, u, |g|);
      } else if u < x {
        TwoArcs(g, Nodes(g), v, u, x, |g|);
      }
    }
  }

  lemma {:induction false} ChainOnCycle(g: Graph, refs: seq<int>, e: nat, p: seq<nat>)
    requires Closed(g) && e < |g| && Honest(g, refs) && UniqueReturns(g, e) && refs[e] > 0 && Collects(g, refs, e)
    requires Chain(g, p) && Last(p) == e
    ensures OnSimpleCycle(g, e, p[0])
    decreases |p|
  {
    hide UniqueReturns, Collects, OnCycle, OnSimpleCycle;
    if |p| == 1 {
      UniqueCollects(g, refs, e);
      OnCycleSimple(g, e);
    } else {
      assert Chain(g, p[1..]) && Last(p[1..]) == e;
      ChainOnCycle(g, refs, e, p[1..]);
      HoldersOnCycle(g, refs, e, p[1], p[0]);
    }
  }

  /** With unique returns what is collected is garbage. */
  lemma CollectedIsGarbage(g: Graph, refs: seq<int>, e: nat)
    requires Closed(g) && e < |g| && Honest(g, refs) && UniqueReturns(g, e) && refs[e] > 0 && Collects(g, refs, e)
    ensures Garbage(g, refs, e)
  {
    hide UniqueReturns, Collects, OnCycle, OnSimpleCycle;
    forall w: nat | w < |g| && Reaches(g, {}, w, e)
      ensures refs[w] == References(g, w)
    {
      var p :| ChainFrom(g, {}, w, p) && Last(p) == e;
      ChainOnCycle(g, refs, e, p);
      UniqueCollects(g, refs, e);
      InnerBelow(g, ReachSet(g, {}, e), e, |g|);
      if w != e {
        var u := CyclePredecessor(g, e, w);
        ArcCounts(g, Nodes(g), w, u, |g|);
      }
    }
  }

  /**
    Where a loop is collected at all, only garbage is collected, whatever is held from outside, if and only if returns
    are unique.
   */
  lemma GarbageIff(g: Graph, collected: seq<int>, e: nat)
    requires Closed(g) && e < |g| && Honest(g, collected) && collected[e] > 0 && Collects(g, collected, e)
    ensures (forall refs :: Honest(g, refs) && refs[e] > 0 && Collects(g, refs, e) ==> Garbage(g, refs, e))
       <==> UniqueReturns(g, e)
  {
    hide Collects, Garbage;
    if UniqueReturns(g, e) {
      forall refs | Honest(g, refs) && refs[e] > 0 && Collects(g, refs, e)
        ensures Garbage(g, refs, e)
      {
        CollectedIsGarbage(g, refs, e);
      }
    } else {
      var refs := HeldThoughCollected(g, collected, e);
    }
  }

  lemma HeldThoughCollected(g: Graph, collected: seq<int>, e: nat) returns (refs: seq<int>)
    requires Closed(g) && e < |g| && Honest(g, collected) && collected[e] > 0 && Collects(g, collected, e)
    requires !UniqueReturns(g, e)
    ensures Honest(g, refs) && refs[e] > 0 && Collects(g, refs, e) && !Garbage(g, refs, e)
  {
    hide UniqueReturns, Collects, OnCycle, OnSimpleCycle, Walk, Arcs, ReachSet;
    var m := Marked(g, e);
    refs := seq(|g|, v requires 0 <= v < |g| => if OnSimpleCycle(g, e, v) then m.count[v] else References(g, v) + 1);
    CollectsExact(g, collected, e);
    OnCycleSimple(g, e);
    CollectsExact(g, refs, e);
    OwnCount(g, e);
    ReachesStep(g, {}, e, e);
    if refs[e] == References(g, e) {
      var x := OutsideHolder(g, ReachSet(g, {}, e), e, |g|);
      CycleReached(g, e, x);
      assert ChainFrom(g, {}, x, [x, e]) && Last([x, e]) == e;
      assert Reaches(g, {}, x, e) && refs[x] == References(g, x) + 1;
    } else {
      assert Reaches(g, {}, e, e);
    }
  }

  /** Arcs that come from elsewhere have a holder there. */
  lemma {:induction false} OutsideHolder(g: Graph, r: set<nat>, v: nat, k: nat) returns (x: nat)
    requires k <= |g| && Arcs(g, r, v, k) < Arcs(g, Nodes(g), v, k)
    ensures x < |g| && x !in r && v in g[x]
    decreases k
  {
    if k - 1 !in r && v in g[k - 1] {
      x := k - 1;
    } else {
      x := OutsideHolder(g, r, v, k - 1);
    }
  }

  lemma CycleReached(g: Graph, e: nat, v: nat)
    ensures OnSimpleCycle(g, e, v) ==> v in ReachSet(g, {}, e)
  {
    if p :| Route(g, e, {}, e, p) && v in p {
      var i :| 0 <= i < |p| && p[i] == v;
      assert ChainFrom(g, {}, e, p[..i + 1]) && Last(p[..i + 1]) == v;
    }
  }

  lemma {:induction false} InnerBelow(g: Graph, r: set<nat>, v: nat, k: nat)
    requires k <= |g|
    ensures Arcs(g, r, v, k) <= Arcs(g, Nodes(g), v, k)
    decreases k
  {
    if k > 0 {
      InnerBelow(g, r, v, k - 1);
    }
  }

  /**
    The other direction fails even with unique returns: all references to these nodes are held by one another, but when
    node 0 is checked the arrival at node 1 over the reference from node 2 comes before node 1 is flagged and is not
    counted.
   */
  lemma LoopsLeftOver(g: Graph, refs: seq<int>)
    requires g == [[1], [2], [1, 0]] && refs == [1, 2, 1]
    ensures Closed(g) && UniqueReturns(g, 0) && OnCycle(g, 0) && Unheld(g, refs, 0) && !Collects(g, refs, 0)
    ensures forall w: nat :: w < |g| ==> refs[w] == References(g, w)
  {
    LoopReferences(g);
    LoopReturns(g);
    hide UniqueReturns, Collects, OnCycle, Walk, Reaches;
    assert Route(g, 0, {}, 0, [0, 1, 2]);
    assert OnSimpleCycle(g, 0, 1);
    UniqueCollects(g, refs, 0);
  }

  lemma LoopReferences(g: Graph)
    requires g == [[1], [2], [1, 0]]
    ensures ReachSet(g, {}, 0) == Nodes(g)
    ensures References(g, 0) == 1 && References(g, 1) == 2 && References(g, 2) == 1
  {
    var r := Nodes(g);
    assert multiset(g[0]) == multiset{1} && multiset(g[1]) == multiset{2} && g[2] == [1] + [0];
    assert multiset(g[2]) == multiset{1, 0};
    forall w: nat | w < |g|
      ensures Reaches(g, {}, 0, w)
      ensures References(g, w) == multiset(g[0])[w] + multiset(g[1])[w] + multiset(g[2])[w]
    {
      assert Arcs(g, r, w, 2) == Arcs(g, r, w, 1) + multiset(g[1])[w];
      assert Arcs(g, r, w, 1) == Arcs(g, r, w, 0) + multiset(g[0])[w];
      var p := [0, 1, 2];
      assert ChainFrom(g, {}, 0, p[..w + 1]) && Last(p[..w + 1]) == w;
    }
  }

  lemma LoopReturns(g: Graph)
    requires g == [[1], [2], [1, 0]]
    ensures Closed(g) && UniqueReturns(g, 0) && OnCycle(g, 0)
  {
    NoPathsAll(g, g[2], {0} + {1} + {2}, 2);
    assert g[0] == [1] && g[1] == [2];
    assert Paths(g, 2, {0} + {1}, 2) == 1;
    assert PathsAll(g, [2][..0], {0} + {1}, 2) == 0;
    assert PathsAll(g, [2], {0} + {1}, 2) == 1;
    assert Paths(g, 1, {0}, 2) == 1;
    assert PathsAll(g, [1][..0], {0}, 2) == 0;
    assert PathsAll(g, [1], {0}, 2) == 1;
    assert {} + {0} == {0};
    assert Paths(g, 0, {}, 2) == 1;
    OnePathIff(g, 0, 2);
    assert ChainFrom(g, {}, 0, [0, 1, 2]);
  }
}
