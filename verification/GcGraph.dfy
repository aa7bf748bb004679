/**
  The reference graph the collector of zvm/zvm_gc.cpp walks, and what its three recursive walks compute on it.
  Nodes are numbered; the walks mark only the nodes of the current path, so they follow simple paths.
 */
module GcGraph {

  /** For every node, the nodes its members refer to, in member order. */
  type Graph = seq<seq<nat>>

  ghost predicate Closed(g: Graph) {
    forall n, k :: 0 <= n < |g| && 0 <= k < |g[n]| ==> g[n][k] < |g|
  }

  /** The numbers below `k`. */
  ghost function Below(k: nat): (s: set<nat>)
    ensures forall n: nat :: n in s <==> n < k
  {
    if k == 0 then {} else Below(k - 1) + {k - 1}
  }

  ghost function Nodes(g: Graph): set<nat> { Below(|g|) }

  // ---------------------------------------------------------------- walks in the graph

  /** A non-empty sequence of nodes, each referring to the next. */
  ghost predicate Chain(g: Graph, p: seq<nat>) {
    && p != []
    && (forall i :: 0 <= i < |p| ==> p[i] < |g|)
    && (forall i :: 0 <= i < |p| - 1 ==> p[i + 1] in g[p[i]])
  }

  ghost predicate Avoids(p: seq<nat>, s: set<nat>) { forall i :: 0 <= i < |p| ==> p[i] !in s }

  ghost predicate Simple(p: seq<nat>) { forall i, j :: 0 <= i < j < |p| ==> p[i] != p[j] }

  ghost function Last(p: seq<nat>): nat
    requires p != []
  {
    p[|p| - 1]
  }

  /** A chain from `n` that stays off `s`. */
  ghost predicate ChainFrom(g: Graph, s: set<nat>, n: nat, p: seq<nat>) {
    Chain(g, p) && p[0] == n && Avoids(p, s)
  }

  lemma ChainTail(g: Graph, s: set<nat>, n: nat, p: seq<nat>, i: nat)
    requires ChainFrom(g, s, n, p) && i < |p| && forall k :: i < k < |p| ==> p[k] != n
    requires i + 1 < |p| && p[i] == n
    ensures ChainFrom(g, s + {n}, p[i + 1], p[i + 1..])
    ensures p[i + 1] in g[n] && Last(p[i + 1..]) == Last(p)
  {
  }

  lemma ChainCons(g: Graph, s: set<nat>, n: nat, kid: nat, q: seq<nat>)
    requires n < |g| && n !in s && kid in g[n] && ChainFrom(g, s + {n}, kid, q)
    ensures ChainFrom(g, s, n, [n] + q) && Last([n] + q) == Last(q)
  {
  }

  /** The last place where a sequence visits its first element. */
  lemma LastVisit(p: seq<nat>) returns (i: nat)
    requires p != []
    ensures i < |p| && p[i] == p[0] && forall k :: i < k < |p| ==> p[k] != p[0]
  {
    i := |p| - 1;
    while p[i] != p[0]
      invariant i < |p| && forall k :: i < k < |p| ==> p[k] != p[0]
      decreases i
    {
      i := i - 1;
    }
  }

  // ---------------------------------------------------------------- reset: plain reachability

  /** `v` can be reached from `n` without entering `s`. */
  ghost predicate Reaches(g: Graph, s: set<nat>, n: nat, v: nat) {
    exists p :: ChainFrom(g, s, n, p) && Last(p) == v
  }

  /** Reachability off a path is reachability from the successors off the longer path. */
  lemma ReachesStep(g: Graph, s: set<nat>, n: nat, v: nat)
    requires n < |g| && n !in s
    ensures Reaches(g, s, n, v) <==> v == n || exists kid :: kid in g[n] && Reaches(g, s + {n}, kid, v)
  {
    if Reaches(g, s, n, v) && v != n {
      var p :| ChainFrom(g, s, n, p) && Last(p) == v;
      var i := LastVisit(p);
      ChainTail(g, s, n, p, i);
      assert Reaches(g, s + {n}, p[i + 1], v);
    }
    if v == n {
      assert ChainFrom(g, s, n, [n]) && Last([n]) == v;
    }
    if kid :| kid in g[n] && Reaches(g, s + {n}, kid, v) {
      var q :| ChainFrom(g, s + {n}, kid, q) && Last(q) == v;
      ChainCons(g, s, n, kid, q);
    }
  }

  /** The nodes that can be reached from `n` without entering `s`. */
  ghost function ReachSet(g: Graph, s: set<nat>, n: nat): set<nat> {
    set v | v in Nodes(g) && Reaches(g, s, n, v)
  }

  // ---------------------------------------------------------------- find_loop as a function

  /** The marks of all nodes: the loop flag and the loop counter. */
  datatype Marks = Marks(flag: seq<bool>, count: seq<int>)

  ghost predicate Fits(g: Graph, m: Marks) { |m.flag| == |m.count| == |g| }

  /** The end of find_loop: flag the node if a loop was found, and count the arrival if the node is flagged. */
  function Arrive(m: Marks, n: nat, ret: bool, first: bool): (r: Marks)
    requires n < |m.flag| == |m.count|
    ensures |r.flag| == |m.flag| && |r.count| == |m.count|
  {
    var flag := if ret then m.flag[n := true] else m.flag;
    Marks(flag, if !first && flag[n] then m.count[n := m.count[n] + 1] else m.count)
  }

  /** find_loop on node `n` while the nodes of `s` are signed; `e` is the node looked for. */
  ghost function Walk(g: Graph, e: nat, n: nat, s: set<nat>, first: bool, m: Marks): (r: (bool, Marks))
    requires Closed(g) && Fits(g, m) && n < |g|
    ensures Fits(g, r.1)
    decreases Nodes(g) - s, 0
  {
    if n in s then (n == e, Arrive(m, n, n == e, first))
    else
      var (ret, m') := WalkAll(g, e, g[n], s + {n}, m);
      (ret, Arrive(m', n, ret, first))
  }

  /** The loop of find_loop over the references of one node; every reference is followed. */
  ghost function WalkAll(g: Graph, e: nat, kids: seq<nat>, s: set<nat>, m: Marks): (r: (bool, Marks))
    requires Closed(g) && Fits(g, m) && forall k :: 0 <= k < |kids| ==> kids[k] < |g|
    ensures Fits(g, r.1)
    decreases Nodes(g) - s, |kids| + 1
  {
    if kids == [] then (false, m)
    else
      var last := |kids| - 1;
      var (before, m') := WalkAll(g, e, kids[..last], s, m);
      var (t, m'') := Walk(g, e, kids[last], s, false, m');
      (before || t, m'')
  }

  // ---------------------------------------------------------------- what find_loop finds

  /** A simple path from `n` that stays off `s` and whose last node refers to `e`. */
  ghost predicate Route(g: Graph, e: nat, s: set<nat>, n: nat, p: seq<nat>) {
    ChainFrom(g, s, n, p) && Simple(p) && e in g[Last(p)]
  }

  /** Following references from `n` off `s` can close a loop at `e` with `v` on it. */
  ghost predicate Closes(g: Graph, e: nat, s: set<nat>, n: nat, v: nat) {
    if n in s then n == e && v == e
    else exists p :: Route(g, e, s, n, p) && (v in p || v == e)
  }

  lemma RouteStepDown(g: Graph, e: nat, s: set<nat>, n: nat, v: nat, p: seq<nat>) returns (kid: nat)
    requires Closed(g) && n < |g| && n !in s && (e in s || e == n)
    requires Route(g, e, s, n, p) && (v in p || v == e)
    ensures kid in g[n] && Closes(g, e, s + {n}, kid, if v == n then e else v)
  {
    var w := if v == n then e else v;
    if |p| == 1 {
      kid := e;
    } else {
      kid := p[1];
      var q := p[1..];
      ChainTail(g, s, n, p, 0);
      assert Route(g, e, s + {n}, kid, q);
      assert w in q || w == e;
    }
  }

  lemma RouteStepUp(g: Graph, e: nat, s: set<nat>, n: nat, v: nat, kid: nat) returns (p: seq<nat>)
    requires Closed(g) && n < |g| && n !in s && (e in s || e == n)
    requires kid in g[n] && Closes(g, e, s + {n}, kid, if v == n then e else v)
    ensures Route(g, e, s, n, p) && (v in p || v == e)
  {
    var w := if v == n then e else v;
    if kid in s + {n} {
      p := [n];
    } else {
      var q :| Route(g, e, s + {n}, kid, q) && (w in q || w == e);
      ChainCons(g, s, n, kid, q);
      p := [n] + q;
      assert v in p || v == e;
    }
  }

  /** Closing a loop from a node off the path is closing it from one of its successors off the longer path. */
  lemma RouteStep(g: Graph, e: nat, s: set<nat>, n: nat, v: nat)
    requires Closed(g) && n < |g| && n !in s && (e in s || e == n)
    ensures Closes(g, e, s, n, v)
       <==> exists kid :: kid in g[n] && Closes(g, e, s + {n}, kid, if v == n then e else v)
  {
    if Closes(g, e, s, n, v) {
      var p :| Route(g, e, s, n, p) && (v in p || v == e);
      var kid := RouteStepDown(g, e, s, n, v, p);
    }
    if kid :| kid in g[n] && Closes(g, e, s + {n}, kid, if v == n then e else v) {
      var p := RouteStepUp(g, e, s, n, v, kid);
    }
  }

  /** What one find_loop call returns and flags: exactly the nodes on loops it can close. */
  lemma {:induction false} WalkExact(g: Graph, e: nat, n: nat, s: set<nat>, first: bool, m: Marks)
    requires Closed(g) && Fits(g, m) && n < |g| && e < |g| && (e in s || e == n)
    ensures var (ret, m') := Walk(g, e, n, s, first, m);
            && ret == Closes(g, e, s, n, e)
            && forall v: nat :: v < |g| ==> (m'.flag[v] <==> m.flag[v] || Closes(g, e, s, n, v))
    decreases Nodes(g) - s, 0
  {
    var (ret, m') := Walk(g, e, n, s, first, m);
    if n !in s {
      WalkAllExact(g, e, g[n], s + {n}, m);
      RouteStep(g, e, s, n, e);
      forall v: nat | v < |g|
        ensures m'.flag[v] <==> m.flag[v] || Closes(g, e, s, n, v)
      {
        RouteStep(g, e, s, n, v);
      }
    }
  }

  lemma {:induction false} WalkAllExact(g: Graph, e: nat, kids: seq<nat>, s: set<nat>, m: Marks)
    requires Closed(g) && Fits(g, m) && e < |g| && e in s && forall k :: 0 <= k < |kids| ==> kids[k] < |g|
    ensures var (ret, m') := WalkAll(g, e, kids, s, m);
            && ret == (exists kid :: kid in kids && Closes(g, e, s, kid, e))
            && forall v: nat :: v < |g| ==>
                 (m'.flag[v] <==> m.flag[v] || exists kid :: kid in kids && Closes(g, e, s, kid, v))
    decreases Nodes(g) - s, |kids| + 1
  {
    if kids != [] {
      var last := |kids| - 1;
      var (before, m') := WalkAll(g, e, kids[..last], s, m);
      WalkAllExact(g, e, kids[..last], s, m);
      WalkExact(g, e, kids[last], s, false, m');
      assert forall kid :: kid in kids <==> kid in kids[..last] || kid == kids[last];
    }
  }

  // ---------------------------------------------------------------- cycles

  /** A directed cycle, not necessarily simple, leads from `e` back to `e`. */
  ghost predicate OnCycle(g: Graph, e: nat) {
    exists p :: ChainFrom(g, {}, e, p) && e in g[Last(p)]
  }

  /** `v` lies on a simple cycle through `e`. */
  ghost predicate OnSimpleCycle(g: Graph, e: nat, v: nat) {
    exists p :: Route(g, e, {}, e, p) && v in p
  }

  /** Cutting out detours turns a chain into a simple one with the same ends. */
  lemma {:induction false} Shorten(g: Graph, s: set<nat>, n: nat, p: seq<nat>) returns (q: seq<nat>)
    requires ChainFrom(g, s, n, p)
    ensures ChainFrom(g, s, n, q) && Simple(q) && Last(q) == Last(p)
    decreases |p|
  {
    var i := LastVisit(p);
    if i == |p| - 1 {
      q := [n];
    } else {
      ChainTail(g, s, n, p, i);
      var rest := Shorten(g, s + {n}, p[i + 1], p[i + 1..]);
      ChainCons(g, s, n, p[i + 1], rest);
      q := [n] + rest;
    }
  }

  /** find_loop called on `e` for `e` returns whether `e` lies on a directed cycle. */
  lemma FindLoopDetectsCycles(g: Graph, e: nat, m: Marks)
    requires Closed(g) && Fits(g, m) && e < |g|
    ensures Walk(g, e, e, {}, true, m).0 <==> OnCycle(g, e)
  {
    WalkExact(g, e, e, {}, true, m);
    if OnCycle(g, e) {
      var p :| ChainFrom(g, {}, e, p) && e in g[Last(p)];
      var q := Shorten(g, {}, e, p);
      assert Route(g, e, {}, e, q);
    }
  }

  /** What `reset` leaves behind. */
  ghost function Cleared(g: Graph): (m: Marks)
    ensures Fits(g, m)
  {
    Marks(seq(|g|, i => false), seq(|g|, i => 0))
  }

  /** From cleared marks it flags exactly the nodes on simple cycles through `e`. */
  lemma FindLoopFlagsSimpleCycles(g: Graph, e: nat, v: nat)
    requires Closed(g) && e < |g| && v < |g|
    ensures Walk(g, e, e, {}, true, Cleared(g)).1.flag[v] <==> OnSimpleCycle(g, e, v)
  {
    WalkExact(g, e, e, {}, true, Cleared(g));
    if Closes(g, e, {}, e, v) {
      var p :| Route(g, e, {}, e, p) && (v in p || v == e);
      assert v in p;
    }
  }

  // ---------------------------------------------------------------- the marks of other nodes

  /** The references of the nodes of `r` stay in `r`. */
  ghost predicate ClosedUnder(g: Graph, r: set<nat>) {
    forall n, k :: n in r && n < |g| && 0 <= k < |g[n]| ==> g[n][k] in r
  }

  ghost predicate AgreeOn(a: Marks, b: Marks, r: set<nat>) {
    && |a.flag| == |a.count| == |b.flag| == |b.count|
    && forall v :: v in r && v < |a.flag| ==> a.flag[v] == b.flag[v] && a.count[v] == b.count[v]
  }

  ghost predicate AgreeOff(a: Marks, b: Marks, r: set<nat>) {
    && |a.flag| == |a.count| == |b.flag| == |b.count|
    && forall v: nat :: v !in r && v < |a.flag| ==> a.flag[v] == b.flag[v] && a.count[v] == b.count[v]
  }

  /** find_loop neither looks at the marks of nodes it cannot reach nor changes them. */
  lemma {:induction false} WalkLocal(g: Graph, e: nat, n: nat, s: set<nat>, first: bool, a: Marks, b: Marks,
                                     r: set<nat>)
    requires Closed(g) && Fits(g, a) && AgreeOn(a, b, r) && ClosedUnder(g, r) && n < |g| && n in r
    ensures var (p, a') := Walk(g, e, n, s, first, a);
            var (q, b') := Walk(g, e, n, s, first, b);
            p == q && AgreeOn(a', b', r) && AgreeOff(a', a, r)
    decreases Nodes(g) - s, 0
  {
    if n !in s {
      WalkAllLocal(g, e, g[n], s + {n}, a, b, r);
    }
  }

  lemma {:induction false} WalkAllLocal(g: Graph, e: nat, kids: seq<nat>, s: set<nat>, a: Marks, b: Marks, r: set<nat>)
    requires Closed(g) && Fits(g, a) && AgreeOn(a, b, r) && ClosedUnder(g, r)
    requires forall k :: 0 <= k < |kids| ==> kids[k] < |g| && kids[k] in r
    ensures var (p, a') := WalkAll(g, e, kids, s, a);
            var (q, b') := WalkAll(g, e, kids, s, b);
            p == q && AgreeOn(a', b', r) && AgreeOff(a', a, r)
    decreases Nodes(g) - s, |kids| + 1
  {
    if kids != [] {
      var last := |kids| - 1;
      WalkAllLocal(g, e, kids[..last], s, a, b, r);
      var (p, a') := WalkAll(g, e, kids[..last], s, a);
      var (q, b') := WalkAll(g, e, kids[..last], s, b);
      WalkLocal(g, e, kids[last], s, false, a', b', r);
    }
  }

  /** Nor does check_live look at them. */
  lemma LiveLocal(g: Graph, a: Marks, b: Marks, refs: seq<int>, s: set<nat>, n: nat, r: set<nat>)
    requires AgreeOn(a, b, r) && ClosedUnder(g, r) && |a.flag| == |g| && n in r
    ensures Live(g, a, refs, s, n) ==> Live(g, b, refs, s, n)
  {
    if Live(g, a, refs, s, n) {
      var p :| ChainFrom(g, s, n, p) && AllFlagged(a, p) && Outside(a, refs, Last(p));
      ChainStays(g, p, r);
      assert AllFlagged(b, p) && Outside(b, refs, Last(p));
    }
  }

  lemma {:induction false} ChainStays(g: Graph, p: seq<nat>, r: set<nat>)
    requires Chain(g, p) && p[0] in r && ClosedUnder(g, r)
    ensures forall i :: 0 <= i < |p| ==> p[i] in r
  {
    if |p| > 1 {
      assert p[1] in g[p[0]];
      ChainStays(g, p[1..], r);
    }
  }

  // ---------------------------------------------------------------- the loop counters

  /** Counters only grow, stay put on nodes that are not flagged, and grow wherever a loop is closed. */
  lemma {:induction false} WalkCounts(g: Graph, e: nat, n: nat, s: set<nat>, first: bool, m: Marks)
    requires Closed(g) && Fits(g, m) && n < |g| && e < |g|
    requires if first then n == e && e !in s else e in s
    ensures var m' := Walk(g, e, n, s, first, m).1;
            forall v: nat :: v < |g| ==>
              && m'.count[v] >= m.count[v]
              && (!m'.flag[v] ==> m'.count[v] == m.count[v])
              && (Closes(g, e, s, n, v) ==> m'.count[v] > m.count[v])
    decreases Nodes(g) - s, 0
  {
    WalkExact(g, e, n, s, first, m);
    if n !in s {
      WalkAllCounts(g, e, g[n], s + {n}, m);
      WalkAllExact(g, e, g[n], s + {n}, m);
      forall v: nat | v < |g| && Closes(g, e, s, n, v)
        ensures v != n || first ==> exists kid :: kid in g[n] && Closes(g, e, s + {n}, kid, v)
      {
        RouteStep(g, e, s, n, v);
      }
    }
  }

  lemma {:induction false} WalkAllCounts(g: Graph, e: nat, kids: seq<nat>, s: set<nat>, m: Marks)
    requires Closed(g) && Fits(g, m) && e < |g| && e in s && forall k :: 0 <= k < |kids| ==> kids[k] < |g|
    ensures var m' := WalkAll(g, e, kids, s, m).1;
            forall v: nat :: v < |g| ==>
              && m'.count[v] >= m.count[v]
              && (!m'.flag[v] ==> m'.count[v] == m.count[v])
              && ((exists kid :: kid in kids && Closes(g, e, s, kid, v)) ==> m'.count[v] > m.count[v])
    decreases Nodes(g) - s, |kids| + 1
  {
    if kids != [] {
      var last := |kids| - 1;
      var m' := WalkAll(g, e, kids[..last], s, m).1;
      WalkAllCounts(g, e, kids[..last], s, m);
      WalkCounts(g, e, kids[last], s, false, m');
      WalkExact(g, e, kids[last], s, false, m');
      assert forall kid :: kid in kids <==> kid in kids[..last] || kid == kids[last];
    }
  }

  /** After reset and find_loop the counter of a node is positive exactly when the node is flagged. */
  lemma CountedIffFlagged(g: Graph, e: nat, v: nat)
    requires Closed(g) && e < |g| && v < |g|
    ensures var m := Walk(g, e, e, {}, true, Cleared(g)).1;
            m.count[v] >= 0 && (m.count[v] > 0 <==> m.flag[v])
  {
    WalkCounts(g, e, e, {}, true, Cleared(g));
    WalkExact(g, e, e, {}, true, Cleared(g));
  }

  // ---------------------------------------------------------------- check_live

  ghost predicate AllFlagged(m: Marks, p: seq<nat>) {
    forall i :: 0 <= i < |p| ==> p[i] < |m.flag| && m.flag[p[i]]
  }

  /** More references than loop arrivals: the node is held from outside, as far as the collector can tell. */
  ghost predicate Outside(m: Marks, refs: seq<int>, v: nat) {
    v < |m.count| && v < |refs| && m.count[v] < refs[v]
  }

  /** A chain of flagged nodes from `n` off `s` reaches a node held from outside. */
  ghost predicate Live(g: Graph, m: Marks, refs: seq<int>, s: set<nat>, n: nat) {
    exists p :: ChainFrom(g, s, n, p) && AllFlagged(m, p) && Outside(m, refs, Last(p))
  }

  /** The recursion of check_live: a flagged node that is not outside is live through one of its references. */
  lemma LiveStep(g: Graph, m: Marks, refs: seq<int>, s: set<nat>, n: nat)
    requires Fits(g, m) && |refs| == |g| && n < |g| && n !in s
    requires m.flag[n] && !Outside(m, refs, n)
    ensures Live(g, m, refs, s, n) <==> exists kid :: kid in g[n] && Live(g, m, refs, s + {n}, kid)
  {
    if Live(g, m, refs, s, n) {
      var p :| ChainFrom(g, s, n, p) && AllFlagged(m, p) && Outside(m, refs, Last(p));
      var i := LastVisit(p);
      ChainTail(g, s, n, p, i);
      assert AllFlagged(m, p[i + 1..]);
      assert Live(g, m, refs, s + {n}, p[i + 1]);
    }
    if kid :| kid in g[n] && Live(g, m, refs, s + {n}, kid) {
      var q :| ChainFrom(g, s + {n}, kid, q) && AllFlagged(m, q) && Outside(m, refs, Last(q));
      ChainCons(g, s, n, kid, q);
      assert AllFlagged(m, [n] + q);
    }
  }

  /** Every flagged node is reached through flagged nodes, so check_live asks whether any flagged node is outside. */
  lemma LiveIffFlaggedOutside(g: Graph, refs: seq<int>, e: nat)
    requires Closed(g) && e < |g| == |refs|
    ensures var m := Walk(g, e, e, {}, true, Cleared(g)).1;
            Live(g, m, refs, {}, e) <==> exists v: nat :: v < |g| && m.flag[v] && Outside(m, refs, v)
  {
    var m := Walk(g, e, e, {}, true, Cleared(g)).1;
    if Live(g, m, refs, {}, e) {
      var p :| ChainFrom(g, {}, e, p) && AllFlagged(m, p) && Outside(m, refs, Last(p));
      assert m.flag[Last(p)];
    }
    if v: nat :| v < |g| && m.flag[v] && Outside(m, refs, v) {
      FindLoopFlagsSimpleCycles(g, e, v);
      var p :| Route(g, e, {}, e, p) && v in p;
      forall i | 0 <= i < |p|
        ensures m.flag[p[i]]
      {
        FindLoopFlagsSimpleCycles(g, e, p[i]);
      }
      var i :| 0 <= i < |p| && p[i] == v;
      assert ChainFrom(g, {}, e, p[..i + 1]) && Last(p[..i + 1]) == v;
    }
  }

  // ---------------------------------------------------------------- the decision of try_collect

  /** try_collect: no reference is left, or find_loop finds a loop and check_live finds nobody outside. */
  ghost predicate Collects(g: Graph, refs: seq<int>, e: nat)
    requires Closed(g) && e < |g| == |refs|
  {
    var (loop, m) := Walk(g, e, e, {}, true, Cleared(g));
    refs[e] <= 0 || (loop && !Live(g, m, refs, {}, e))
  }

  /** The decision in terms of the graph: every node on a simple cycle has no more references than loop arrivals. */
  lemma CollectsExact(g: Graph, refs: seq<int>, e: nat)
    requires Closed(g) && e < |g| == |refs|
    ensures var m := Walk(g, e, e, {}, true, Cleared(g)).1;
            Collects(g, refs, e) <==>
              || refs[e] <= 0
              || (OnCycle(g, e) && forall v: nat :: v < |g| && OnSimpleCycle(g, e, v) ==> refs[v] <= m.count[v])
  {
    var m := Walk(g, e, e, {}, true, Cleared(g)).1;
    FindLoopDetectsCycles(g, e, Cleared(g));
    LiveIffFlaggedOutside(g, refs, e);
    forall v: nat | v < |g|
      ensures m.flag[v] <==> OnSimpleCycle(g, e, v)
    {
      FindLoopFlagsSimpleCycles(g, e, v);
    }
  }

  // ---------------------------------------------------------------- nodes with at most one reference

  ghost predicate SingleReferences(g: Graph) { forall n :: 0 <= n < |g| ==> |g[n]| <= 1 }

  /** Then every node is arrived at no more than once. */
  lemma {:induction false} SingleCounts(g: Graph, e: nat, n: nat, s: set<nat>, first: bool, m: Marks)
    requires Closed(g) && SingleReferences(g) && Fits(g, m) && n < |g| && e < |g|
    requires if first then n == e && e !in s else e in s
    requires forall v: nat :: v < |g| ==> !m.flag[v]
    ensures var m' := Walk(g, e, n, s, first, m).1;
            forall v: nat :: v < |g| ==> m'.count[v] == m.count[v] + if Closes(g, e, s, n, v) then 1 else 0
    decreases Nodes(g) - s
  {
    WalkExact(g, e, n, s, first, m);
    if n !in s {
      forall v: nat | v < |g|
        ensures Closes(g, e, s, n, v)
           <==> exists kid :: kid in g[n] && Closes(g, e, s + {n}, kid, if v == n then e else v)
      {
        RouteStep(g, e, s, n, v);
      }
      if |g[n]| == 1 {
        var kid := g[n][0];
        assert g[n] == [kid] && g[n][..0] == [];
        assert WalkAll(g, e, g[n], s + {n}, m) == Walk(g, e, kid, s + {n}, false, m);
        SingleCounts(g, e, kid, s + {n}, false, m);
        WalkExact(g, e, kid, s + {n}, false, m);
      }
    }
  }

  /**
    When no node holds more than one reference a cycle is collected if and only if no node on it has a reference
    besides the one from the cycle.
   */
  lemma SingleReferencesExact(g: Graph, refs: seq<int>, e: nat)
    requires Closed(g) && SingleReferences(g) && e < |g| == |refs|
    ensures Collects(g, refs, e) <==>
              || refs[e] <= 0
              || (OnCycle(g, e) && forall v: nat :: v < |g| && OnSimpleCycle(g, e, v) ==> refs[v] <= 1)
  {
    CollectsExact(g, refs, e);
    SingleCounts(g, e, e, {}, true, Cleared(g));
  }

  /** How often the nodes of `r` below `k` refer to `v`. */
  ghost function Arcs(g: Graph, r: set<nat>, v: nat, k: nat): nat
    requires k <= |g|
  {
    if k == 0 then 0 else Arcs(g, r, v, k - 1) + if k - 1 in r then multiset(g[k - 1])[v] else 0
  }

  /** How often the nodes of the graph refer to `v`. */
  ghost function References(g: Graph, v: nat): nat { Arcs(g, Nodes(g), v, |g|) }

  /**
    With shared substructure find_loop counts paths, not references: here node 0 has one reference inside the graph
    and one from outside, two paths lead from it back to itself, and try_collect collects it all the same.
   */
  lemma PathsAreNotReferences(g: Graph, refs: seq<int>)
    requires g == [[1, 2], [3], [3], [0]] && refs == [2, 1, 1, 2]
    ensures Closed(g) && References(g, 0) == 1 < refs[0] && Collects(g, refs, 0)
  {
    var z := Cleared(g);
    var r := Nodes(g);
    assert g[0] == [1] + [2] && multiset(g[0]) == multiset{1, 2};
    assert Arcs(g, r, 0, 1) == 0 && 0 !in g[1] && 0 !in g[2];
    assert Arcs(g, r, 0, 2) == 0;
    assert Arcs(g, r, 0, 3) == 0;
    TwoPathsWalk(g, z);
    var m := Walk(g, 0, 0, {}, true, z).1;
    forall v: nat
      ensures !Outside(m, refs, v)
    {
      if v < 4 {
        assert v == 0 || v == 1 || v == 2 || v == 3;
      }
    }
    LiveIffFlaggedOutside(g, refs, 0);
  }

  lemma TwoPathsWalk(g: Graph, z: Marks)
    requires g == [[1, 2], [3], [3], [0]] && z == Cleared(g)
    ensures Walk(g, 0, 0, {}, true, z) == (true, Marks([true, true, true, true], [2, 1, 1, 2]))
  {
    var left := Marks([true, true, false, true], [1, 1, 0, 1]);
    var both := Marks([true, true, true, true], [2, 1, 1, 2]);
    TwoPathsBranch(g, 1, z, left);
    TwoPathsBranch(g, 2, left, both);
    assert g[0][..1] == [1] && [1][..0] == [];
    assert WalkAll(g, 0, [], {0}, z) == (false, z);
    assert WalkAll(g, 0, [1], {0}, z) == (true, left);
    assert WalkAll(g, 0, g[0], {0}, z) == (true, both);
    assert both.flag[0 := true] == both.flag;
    assert {} + {0} == {0};
  }

  /** One of the two paths 0 -> branch -> 3 -> 0. */
  lemma TwoPathsBranch(g: Graph, branch: nat, m: Marks, after: Marks)
    requires g == [[1, 2], [3], [3], [0]] && Fits(g, m) && 1 <= branch <= 2
    requires !m.flag[branch] && after.flag == m.flag[0 := true][3 := true][branch := true]
    requires after.count == m.count[0 := m.count[0] + 1][3 := m.count[3] + 1][branch := m.count[branch] + 1]
    ensures Closed(g) && Walk(g, 0, branch, {0}, false, m) == (true, after)
  {
    var s := {0} + {branch};
    var m1 := Arrive(m, 0, true, false);
    var m2 := Arrive(m1, 3, true, false);
    assert Walk(g, 0, 0, s + {3}, false, m) == (true, m1);
    assert WalkAll(g, 0, [], s + {3}, m) == (false, m) && g[3] == [0] && g[3][..0] == [];
    assert WalkAll(g, 0, g[3], s + {3}, m) == (true, m1);
    assert Walk(g, 0, 3, s, false, m) == (true, m2);
    assert WalkAll(g, 0, [], s, m) == (false, m) && g[branch] == [3] && g[branch][..0] == [];
    assert WalkAll(g, 0, g[branch], s, m) == (true, m2);
    assert Arrive(m2, branch, true, false) == after;
  }
}
