/**
  What clear of zvm/zvm_class.cpp does to the reference graph: it drops the references of the collected node, destroys
  what is left without references, and so on. The set of destroyed nodes is characterised independently of the order,
  and compared with what is held from elsewhere.
 */
module GcClear {
  import opened GcGraph
  import opened GcExact

  /** The reference counts, and the nodes whose clear has begun. */
  datatype Drops = Drops(counts: seq<int>, gone: set<nat>)

  /** clear on a node; one whose clear has begun already is left alone. */
  ghost function Clearing(g: Graph, n: nat, d: Drops): (r: Drops)
    requires Closed(g) && n < |g| == |d.counts|
    ensures |r.counts| == |g| && d.gone + {n} <= r.gone
    decreases Nodes(g) - d.gone, 0
  {
    if n in d.gone then d else DropAll(g, g[n], d.(gone := d.gone + {n}))
  }

  /** The loop of clear, which drops the references from the last to the first. */
  ghost function DropAll(g: Graph, kids: seq<nat>, d: Drops): (r: Drops)
    requires Closed(g) && |g| == |d.counts| && forall k :: 0 <= k < |kids| ==> kids[k] < |g|
    ensures |r.counts| == |g| && d.gone <= r.gone
    decreases Nodes(g) - d.gone, |kids| + 1
  {
    if kids == [] then d else DropAll(g, kids[..|kids| - 1], DropOne(g, kids[|kids| - 1], d))
  }

  /** force_clear on one reference. */
  ghost function DropOne(g: Graph, kid: nat, d: Drops): (r: Drops)
    requires Closed(g) && kid < |g| == |d.counts|
    ensures |r.counts| == |g| && d.gone <= r.gone
    decreases Nodes(g) - d.gone, 1
  {
    var dropped := d.(counts := d.counts[kid := d.counts[kid] - 1]);
    if dropped.counts[kid] <= 0 then Clearing(g, kid, dropped) else dropped
  }

  /** The nodes that clear on `e` destroys. */
  ghost function Destroyed(g: Graph, refs: seq<int>, e: nat): (s: set<nat>)
    requires Closed(g) && e < |g| == |refs|
    ensures e in s
  {
    Clearing(g, e, Drops(refs, {})).gone
  }

  // ---------------------------------------------------------------- what is dropped

  lemma {:induction false} ArcsAdd(g: Graph, s: set<nat>, n: nat, v: nat, k: nat)
    requires k <= |g| && n !in s && n < |g|
    ensures Arcs(g, s + {n}, v, k) == Arcs(g, s, v, k) + if n < k then multiset(g[n])[v] else 0
    decreases k
  {
    if k > 0 {
      ArcsAdd(g, s, n, v, k - 1);
    }
  }

  lemma {:induction false} ArcsGrow(g: Graph, s: set<nat>, t: set<nat>, v: nat, k: nat)
    requires k <= |g| && s <= t
    ensures Arcs(g, s, v, k) <= Arcs(g, t, v, k)
    decreases k
  {
    if k > 0 {
      ArcsGrow(g, s, t, v, k - 1);
    }
  }

  lemma {:induction false} ArcsNone(g: Graph, v: nat, k: nat)
    requires k <= |g|
    ensures Arcs(g, {}, v, k) == 0
    decreases k
  {
    if k > 0 {
      ArcsNone(g, v, k - 1);
    }
  }

  /** The references dropped are those of the nodes whose clear has begun meanwhile. */
  lemma {:induction false} ClearingCounts(g: Graph, n: nat, d: Drops, v: nat)
    requires Closed(g) && n < |g| == |d.counts| && v < |g|
    ensures var r := Clearing(g, n, d);
            r.counts[v] + Arcs(g, r.gone, v, |g|) == d.counts[v] + Arcs(g, d.gone, v, |g|)
    decreases Nodes(g) - d.gone, 0
  {
    hide Arcs;
    if n !in d.gone {
      DropAllCounts(g, g[n], d.(gone := d.gone + {n}), v);
      ArcsAdd(g, d.gone, n, v, |g|);
    }
  }

  lemma {:induction false} DropAllCounts(g: Graph, kids: seq<nat>, d: Drops, v: nat)
    requires Closed(g) && v < |g| == |d.counts| && forall k :: 0 <= k < |kids| ==> kids[k] < |g|
    ensures var r := DropAll(g, kids, d);
            r.counts[v] + Arcs(g, r.gone, v, |g|) == d.counts[v] - multiset(kids)[v] + Arcs(g, d.gone, v, |g|)
    decreases Nodes(g) - d.gone, |kids| + 1
  {
    hide Arcs, Clearing;
    if kids != [] {
      var last := |kids| - 1;
      assert kids == kids[..last] + [kids[last]];
      DropOneCounts(g, kids[last], d, v);
      DropAllCounts(g, kids[..last], DropOne(g, kids[last], d), v);
    }
  }

  lemma {:induction false} DropOneCounts(g: Graph, kid: nat, d: Drops, v: nat)
    requires Closed(g) && kid < |g| == |d.counts| && v < |g|
    ensures var r := DropOne(g, kid, d);
            r.counts[v] + Arcs(g, r.gone, v, |g|)
              == d.counts[v] - (if v == kid then 1 else 0) + Arcs(g, d.gone, v, |g|)
    decreases Nodes(g) - d.gone, 1
  {
    hide Arcs, Clearing;
    var dropped := d.(counts := d.counts[kid := d.counts[kid] - 1]);
    if dropped.counts[kid] <= 0 {
      ClearingCounts(g, kid, dropped, v);
    }
  }

  /** Whoever loses a reference and stays has one left. */
  lemma {:induction false} ClearingLeaves(g: Graph, n: nat, d: Drops, v: nat)
    requires Closed(g) && n < |g| == |d.counts| && v < |g|
    ensures var r := Clearing(g, n, d);
            v in r.gone || r.counts[v] == d.counts[v] || r.counts[v] > 0
    decreases Nodes(g) - d.gone, 0
  {
    if n !in d.gone {
      DropAllLeaves(g, g[n], d.(gone := d.gone + {n}), v);
    }
  }

  lemma {:induction false} DropAllLeaves(g: Graph, kids: seq<nat>, d: Drops, v: nat)
    requires Closed(g) && v < |g| == |d.counts| && forall k :: 0 <= k < |kids| ==> kids[k] < |g|
    ensures var r := DropAll(g, kids, d);
            v in r.gone || r.counts[v] == d.counts[v] || r.counts[v] > 0
    decreases Nodes(g) - d.gone, |kids| + 1
  {
    hide Clearing;
    if kids != [] {
      var last := |kids| - 1;
      DropOneLeaves(g, kids[last], d, v);
      DropAllLeaves(g, kids[..last], DropOne(g, kids[last], d), v);
    }
  }

  lemma {:induction false} DropOneLeaves(g: Graph, kid: nat, d: Drops, v: nat)
    requires Closed(g) && kid < |g| == |d.counts| && v < |g|
    ensures var r := DropOne(g, kid, d);
            v in r.gone || r.counts[v] == d.counts[v] || r.counts[v] > 0
    decreases Nodes(g) - d.gone, 1
  {
    var dropped := d.(counts := d.counts[kid := d.counts[kid] - 1]);
    if dropped.counts[kid] <= 0 {
      ClearingLeaves(g, kid, dropped, v);
    }
  }

  // ---------------------------------------------------------------- the destroyed nodes

  ghost function Occurs(kids: seq<nat>, v: nat): nat { multiset(kids)[v] }

  /** Nobody outside `s` has lost references to `s` and has none left. */
  ghost predicate Settled(g: Graph, refs: seq<int>, s: set<nat>) {
    forall v: nat :: v < |g| && v < |refs| && v !in s ==> Arcs(g, s, v, |g|) == 0 || refs[v] > Arcs(g, s, v, |g|)
  }

  /** No more has been dropped than the nodes that are gone held. */
  ghost predicate Bounded(g: Graph, refs: seq<int>, d: Drops, kids: seq<nat>) {
    && |refs| == |g| == |d.counts|
    && forall v: nat :: v < |g| ==> d.counts[v] >= refs[v] - Arcs(g, d.gone, v, |g|) + Occurs(kids, v)
  }

  lemma {:induction false} ClearingWithin(g: Graph, refs: seq<int>, n: nat, d: Drops, s: set<nat>)
    requires Closed(g) && n < |g| && Bounded(g, refs, d, []) && Settled(g, refs, s) && d.gone <= s && n in s
    ensures Clearing(g, n, d).gone <= s
    decreases Nodes(g) - d.gone, 0
  {
    hide Arcs, DropAll, Settled;
    if n !in d.gone {
      forall v: nat | v < |g|
        ensures Arcs(g, d.gone + {n}, v, |g|) == Arcs(g, d.gone, v, |g|) + multiset(g[n])[v]
      {
        ArcsAdd(g, d.gone, n, v, |g|);
      }
      DropAllWithin(g, refs, n, g[n], d.(gone := d.gone + {n}), s);
    }
  }

  lemma {:induction false} DropAllWithin(g: Graph, refs: seq<int>, n: nat, kids: seq<nat>, d: Drops, s: set<nat>)
    requires Closed(g) && n < |g| && Bounded(g, refs, d, kids) && Settled(g, refs, s) && d.gone <= s && n in d.gone
    requires forall k :: 0 <= k < |kids| ==> kids[k] in g[n] && kids[k] < |g|
    ensures DropAll(g, kids, d).gone <= s
    decreases Nodes(g) - d.gone, |kids| + 1
  {
    hide Arcs, Clearing, Settled;
    if kids != [] {
      var last := |kids| - 1;
      var kid, rest := kids[last], kids[..last];
      assert kids == rest + [kid];
      DropOneWithin(g, refs, n, kid, rest, d, s);
      var d2 := DropOne(g, kid, d);
      forall v: nat | v < |g|
        ensures d2.counts[v] >= refs[v] - Arcs(g, d2.gone, v, |g|) + Occurs(rest, v)
      {
        DropOneCounts(g, kid, d, v);
      }
      DropAllWithin(g, refs, n, rest, d2, s);
    }
  }

  lemma {:induction false} DropOneWithin(g: Graph, refs: seq<int>, n: nat, kid: nat, rest: seq<nat>, d: Drops,
                                         s: set<nat>)
    requires Closed(g) && n < |g| && kid < |g| && Bounded(g, refs, d, rest + [kid]) && Settled(g, refs, s)
    requires d.gone <= s && n in d.gone && kid in g[n]
    ensures DropOne(g, kid, d).gone <= s
    decreases Nodes(g) - d.gone, 1
  {
    hide Arcs, Clearing;
    var dropped := d.(counts := d.counts[kid := d.counts[kid] - 1]);
    if dropped.counts[kid] <= 0 {
      ArcsGrow(g, d.gone, s, kid, |g|);
      ArcCounts(g, s, kid, n, |g|);
      assert Bounded(g, refs, dropped, []);
      ClearingWithin(g, refs, kid, dropped, s);
    }
  }

  /**
    In whatever order the members come, clear destroys the smallest set of nodes that holds the node it is called for
    and everybody who loses references to the set and has none left, and drops exactly the references of these nodes.
   */
  lemma DestroyedLeast(g: Graph, refs: seq<int>, e: nat)
    requires Closed(g) && e < |g| == |refs|
    ensures var gone := Destroyed(g, refs, e);
            && gone <= Nodes(g) && Settled(g, refs, gone)
            && (forall s: set<nat> :: e in s && Settled(g, refs, s) ==> gone <= s)
            && forall v: nat :: v < |g| ==>
                 Clearing(g, e, Drops(refs, {})).counts[v] == refs[v] - Arcs(g, gone, v, |g|)
  {
    hide Arcs, Clearing;
    var d := Drops(refs, {});
    forall v: nat | v < |g|
      ensures Arcs(g, {}, v, |g|) == 0
      ensures Clearing(g, e, d).counts[v] == refs[v] - Arcs(g, Destroyed(g, refs, e), v, |g|)
      ensures v in Clearing(g, e, d).gone || Clearing(g, e, d).counts[v] == refs[v] || Clearing(g, e, d).counts[v] > 0
    {
      ArcsNone(g, v, |g|);
      ClearingCounts(g, e, d, v);
      ClearingLeaves(g, e, d, v);
    }
    assert Bounded(g, refs, d, []);
    forall s: set<nat> | e in s && Settled(g, refs, s)
      ensures Destroyed(g, refs, e) <= s
    {
      ClearingWithin(g, refs, e, d, s);
    }
    assert Settled(g, refs, Nodes(g));
  }

  // ---------------------------------------------------------------- what is left

  /** The destroyed nodes hold nothing any more. */
  ghost function Without(g: Graph, gone: set<nat>): (r: Graph)
    ensures |r| == |g| && forall n :: 0 <= n < |g| ==> r[n] == if n in gone then [] else g[n]
  {
    seq(|g|, n requires 0 <= n < |g| => if n in gone then [] else g[n])
  }

  ghost function Dropped(g: Graph, refs: seq<int>, gone: set<nat>): (r: seq<int>)
    requires |refs| == |g|
    ensures |r| == |g| && forall v: nat :: v < |g| ==> r[v] == refs[v] - Arcs(g, gone, v, |g|)
  {
    seq(|g|, v requires 0 <= v < |g| => refs[v] - Arcs(g, gone, v, |g|))
  }

  lemma {:induction false} ArcsSplit(g: Graph, gone: set<nat>, v: nat, k: nat)
    requires k <= |g|
    ensures Arcs(g, gone, v, k) + Arcs(Without(g, gone), Nodes(g), v, k) == Arcs(g, Nodes(g), v, k)
    decreases k
  {
    if k > 0 {
      ArcsSplit(g, gone, v, k - 1);
    }
  }

  /** Every node keeps the references it has from outside the graph. */
  lemma HonestLeft(g: Graph, refs: seq<int>, gone: set<nat>)
    requires Honest(g, refs)
    ensures Honest(Without(g, gone), Dropped(g, refs, gone))
    ensures forall v: nat :: v < |g| ==>
              Dropped(g, refs, gone)[v] - References(Without(g, gone), v) == refs[v] - References(g, v)
  {
    hide Arcs;
    forall v: nat | v < |g|
      ensures Dropped(g, refs, gone)[v] - References(Without(g, gone), v) == refs[v] - References(g, v)
    {
      ArcsSplit(g, gone, v, |g|);
    }
  }

  // ---------------------------------------------------------------- who holds the destroyed nodes

  /** Every reference to a destroyed node was held by a destroyed node. */
  ghost predicate Safe(g: Graph, refs: seq<int>, e: nat)
    requires Closed(g) && e < |g| == |refs|
  {
    var gone := Destroyed(g, refs, e);
    forall v: nat :: v < |g| && v in gone ==> refs[v] == Arcs(g, gone, v, |g|)
  }

  /** This can only fail for the node that clear is called for. */
  lemma OthersUnheld(g: Graph, refs: seq<int>, e: nat, v: nat)
    requires Closed(g) && e < |g| && Honest(g, refs) && v in Destroyed(g, refs, e) && v != e
    ensures v < |g| && refs[v] == Arcs(g, Destroyed(g, refs, e), v, |g|)
  {
    hide Arcs, Destroyed;
    DestroyedLeast(g, refs, e);
    var gone := Destroyed(g, refs, e);
    ArcsGrow(g, gone, Nodes(g), v, |g|);
    assert refs[v] >= References(g, v);
    if refs[v] > Arcs(g, gone, v, |g|) {
      SettledLess(g, refs, gone, v);
    }
  }

  lemma SettledLess(g: Graph, refs: seq<int>, gone: set<nat>, v: nat)
    requires |refs| == |g| && Settled(g, refs, gone) && v < |g| && refs[v] > Arcs(g, gone, v, |g|)
    ensures Settled(g, refs, gone - {v})
  {
    hide Arcs;
    forall u: nat | u < |g| && u !in gone - {v}
      ensures Arcs(g, gone - {v}, u, |g|) == 0 || refs[u] > Arcs(g, gone - {v}, u, |g|)
    {
      ArcsGrow(g, gone - {v}, gone, u, |g|);
    }
  }

  /** Nodes that stay do not refer to destroyed ones. */
  ghost predicate Intact(g: Graph, gone: set<nat>) {
    forall n, k :: 0 <= n < |g| && n !in gone && 0 <= k < |g[n]| ==> g[n][k] !in gone
  }

  lemma {:induction false} HolderInside(g: Graph, gone: set<nat>, v: nat, k: nat)
    requires k <= |g| && forall n :: 0 <= n < |g| && v in g[n] ==> n in gone
    ensures Arcs(g, gone, v, k) == Arcs(g, Nodes(g), v, k)
    decreases k
  {
    if k > 0 {
      HolderInside(g, gone, v, k - 1);
    }
  }

  /** A node with as many references as a set holds has no others, neither from the graph nor from outside. */
  lemma HeldWithin(g: Graph, refs: seq<int>, gone: set<nat>, v: nat)
    requires Honest(g, refs) && v < |g| && refs[v] == Arcs(g, gone, v, |g|)
    ensures refs[v] == References(g, v) && forall n :: 0 <= n < |g| && v in g[n] ==> n in gone
  {
    assert refs[v] >= References(g, v);
    ArcsSplit(g, gone, v, |g|);
    forall n | 0 <= n < |g| && v in g[n]
      ensures n in gone
    {
      if n !in gone {
        ArcsWithin(g, gone, v, n, |g|);
      }
    }
  }

  /** So a clear is safe exactly if it leaves no reference to a destroyed node, neither in the graph nor outside. */
  lemma SafeMeans(g: Graph, refs: seq<int>, e: nat)
    requires Closed(g) && e < |g| && Honest(g, refs)
    ensures var gone := Destroyed(g, refs, e);
            Safe(g, refs, e) <==>
              Intact(g, gone) && forall v: nat :: v < |g| && v in gone ==> refs[v] == References(g, v)
  {
    hide Arcs, Destroyed;
    var gone := Destroyed(g, refs, e);
    if Safe(g, refs, e) {
      forall v: nat | v < |g| && v in gone
        ensures refs[v] == References(g, v) && forall n :: 0 <= n < |g| && v in g[n] ==> n in gone
      {
        HeldWithin(g, refs, gone, v);
      }
    }
    if Intact(g, gone) && forall v: nat :: v < |g| && v in gone ==> refs[v] == References(g, v) {
      forall v: nat | v < |g| && v in gone
        ensures refs[v] == Arcs(g, gone, v, |g|)
      {
        HolderInside(g, gone, v, |g|);
      }
    }
  }

  lemma {:induction false} SafeAncestors(g: Graph, refs: seq<int>, gone: set<nat>, p: seq<nat>)
    requires Chain(g, p) && Last(p) in gone && Intact(g, gone)
    ensures p[0] in gone
    decreases |p|
  {
    if |p| > 1 {
      assert Chain(g, p[1..]) && Last(p[1..]) == Last(p);
      SafeAncestors(g, refs, gone, p[1..]);
    }
  }

  /** What can be reached from a node held from outside survives a safe clear. */
  lemma LiveKept(g: Graph, refs: seq<int>, e: nat, w: nat, v: nat)
    requires Closed(g) && e < |g| && Honest(g, refs) && Safe(g, refs, e)
    requires w < |g| && refs[w] > References(g, w) && Reaches(g, {}, w, v)
    ensures v !in Destroyed(g, refs, e)
  {
    hide Destroyed, Safe, Intact;
    SafeMeans(g, refs, e);
    var gone := Destroyed(g, refs, e);
    var p :| ChainFrom(g, {}, w, p) && Last(p) == v;
    if v in gone {
      SafeAncestors(g, refs, gone, p);
    }
  }

  // ---------------------------------------------------------------- collected nodes

  /** All nodes on simple cycles through a collected node go with it. */
  lemma CycleDestroyed(g: Graph, refs: seq<int>, e: nat, v: nat)
    requires Closed(g) && e < |g| && Honest(g, refs) && UniqueReturns(g, e) && refs[e] > 0 && Collects(g, refs, e)
    requires OnSimpleCycle(g, e, v)
    ensures v in Destroyed(g, refs, e)
  {
    hide Arcs, Destroyed, Collects, UniqueReturns, OnCycle;
    DestroyedLeast(g, refs, e);
    UniqueCollects(g, refs, e);
    var p :| Route(g, e, {}, e, p) && v in p;
    var i :| 0 <= i < |p| && p[i] == v;
    RouteDestroyed(g, refs, e, p, i);
  }

  lemma {:induction false} RouteDestroyed(g: Graph, refs: seq<int>, e: nat, p: seq<nat>, i: nat)
    requires Closed(g) && e < |g| == |refs| && Route(g, e, {}, e, p) && i < |p|
    requires forall v: nat :: v < |g| && v != e && OnSimpleCycle(g, e, v) ==> refs[v] <= 1
    ensures p[i] in Destroyed(g, refs, e)
    decreases i
  {
    hide Arcs, Destroyed;
    if i > 0 {
      RouteDestroyed(g, refs, e, p, i - 1);
      DestroyedLeast(g, refs, e);
      ArcCounts(g, Destroyed(g, refs, e), p[i], p[i - 1], |g|);
      assert p[i] in p;
      assert OnSimpleCycle(g, e, p[i]);
    }
  }

  /** With unique returns clearing a collected node is safe. */
  lemma CollectedSafe(g: Graph, refs: seq<int>, e: nat)
    requires Closed(g) && e < |g| && Honest(g, refs) && UniqueReturns(g, e) && Collects(g, refs, e)
    ensures Safe(g, refs, e)
  {
    hide Arcs, Destroyed, Collects, UniqueReturns, OnCycle, OnSimpleCycle, Garbage;
    var gone := Destroyed(g, refs, e);
    assert refs[e] >= References(g, e);
    assert e in gone by { DestroyedLeast(g, refs, e); }
    forall v: nat | v < |g| && v in gone
      ensures refs[v] == Arcs(g, gone, v, |g|)
    {
      if v != e {
        OthersUnheld(g, refs, e, v);
      } else if refs[e] <= 0 {
        ArcsSplit(g, gone, e, |g|);
      } else {
        StartWithin(g, refs, e);
      }
    }
  }

  lemma {:induction false} StartWithin(g: Graph, refs: seq<int>, e: nat)
    requires Closed(g) && e < |g| && Honest(g, refs) && UniqueReturns(g, e) && refs[e] > 0 && Collects(g, refs, e)
    ensures refs[e] == Arcs(g, Destroyed(g, refs, e), e, |g|)
  {
    hide Destroyed, Collects, UniqueReturns, OnCycle, OnSimpleCycle;
    var gone := Destroyed(g, refs, e);
    UniqueCollects(g, refs, e);
    OnCycleSimple(g, e);
    CollectedIsGarbage(g, refs, e);
    ReachesStep(g, {}, e, e);
    if n :| 0 <= n < |g| && n !in gone && e in g[n] {
      HoldersOnCycle(g, refs, e, e, n);
      CycleDestroyed(g, refs, e, n);
    }
    HolderInside(g, gone, e, |g|);
  }

  /**
    Where a loop is collected at all, clearing what is collected is safe, whatever is held from outside, if and only if
    returns are unique.
   */
  lemma ClearSafeIff(g: Graph, collected: seq<int>, e: nat)
    requires Closed(g) && e < |g| && Honest(g, collected) && collected[e] > 0 && Collects(g, collected, e)
    ensures (forall refs :: Honest(g, refs) && refs[e] > 0 && Collects(g, refs, e) ==> Safe(g, refs, e))
       <==> UniqueReturns(g, e)
  {
    hide Collects, Safe, Garbage;
    if UniqueReturns(g, e) {
      forall refs | Honest(g, refs) && refs[e] > 0 && Collects(g, refs, e)
        ensures Safe(g, refs, e)
      {
        CollectedSafe(g, refs, e);
      }
    } else {
      var refs := HeldThoughCollected(g, collected, e);
      if Safe(g, refs, e) {
        SafeGarbage(g, refs, e);
      }
    }
  }

  lemma SafeGarbage(g: Graph, refs: seq<int>, e: nat)
    requires Closed(g) && e < |g| && Honest(g, refs) && Safe(g, refs, e)
    ensures Garbage(g, refs, e)
  {
    hide Safe;
    assert e in Destroyed(g, refs, e);
    forall w: nat | w < |g| && Reaches(g, {}, w, e)
      ensures refs[w] == References(g, w)
    {
      if refs[w] > References(g, w) {
        LiveKept(g, refs, e, w, e);
      }
    }
  }
}
