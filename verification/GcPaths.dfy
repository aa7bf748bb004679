/**
  Simple paths in the reference graph of zvm/zvm_gc.cpp, told apart by the members they go through: how many there are
  from one node to another, which is how often the recursive walks enter it.
 */
module GcPaths {
  import opened GcGraph

  /** The member indices `ks` lead from `n` to `u` off `s`, and never to a node twice. */
  ghost predicate Path(g: Graph, s: set<nat>, n: nat, ks: seq<nat>, u: nat)
    decreases ks
  {
    && n < |g| && n !in s
    && if ks == [] then n == u else ks[0] < |g[n]| && Path(g, s + {n}, g[n][ks[0]], ks[1..], u)
  }

  /** At most one simple path leads from `e` to `u`. */
  ghost predicate OnePath(g: Graph, e: nat, u: nat) {
    forall a, b :: Path(g, {}, e, a, u) && Path(g, {}, e, b, u) ==> a == b
  }

  // ---------------------------------------------------------------- their number

  ghost function Paths(g: Graph, n: nat, s: set<nat>, u: nat): nat
    requires Closed(g) && n < |g|
    decreases Nodes(g) - s, 0
  {
    if n in s then 0 else (if n == u then 1 else 0) + PathsAll(g, g[n], s + {n}, u)
  }

  ghost function PathsAll(g: Graph, kids: seq<nat>, s: set<nat>, u: nat): nat
    requires Closed(g) && forall k :: 0 <= k < |kids| ==> kids[k] < |g|
    decreases Nodes(g) - s, |kids| + 1
  {
    if kids == [] then 0 else PathsAll(g, kids[..|kids| - 1], s, u) + Paths(g, kids[|kids| - 1], s, u)
  }

  /** There is a path exactly if the node can be reached. */
  lemma {:induction false} PathsPositive(g: Graph, n: nat, s: set<nat>, u: nat)
    requires Closed(g) && n < |g|
    ensures Paths(g, n, s, u) > 0 <==> Reaches(g, s, n, u)
    decreases Nodes(g) - s, 0
  {
    if n !in s {
      PathsAllPositive(g, g[n], s + {n}, u);
      ReachesStep(g, s, n, u);
    }
  }

  lemma {:induction false} PathsAllPositive(g: Graph, kids: seq<nat>, s: set<nat>, u: nat)
    requires Closed(g) && forall k :: 0 <= k < |kids| ==> kids[k] < |g|
    ensures PathsAll(g, kids, s, u) > 0 <==> exists kid :: kid in kids && Reaches(g, s, kid, u)
    decreases Nodes(g) - s, |kids| + 1
  {
    if kids != [] {
      var last := |kids| - 1;
      PathsAllPositive(g, kids[..last], s, u);
      PathsPositive(g, kids[last], s, u);
      assert forall kid :: kid in kids <==> kid in kids[..last] || kid == kids[last];
    }
  }

  /** A path avoids the nodes it has to avoid at its end, too. */
  lemma {:induction false} PathEnd(g: Graph, s: set<nat>, n: nat, ks: seq<nat>, u: nat)
    requires Path(g, s, n, ks, u)
    ensures u !in s && u < |g|
    decreases ks
  {
    if ks != [] {
      PathEnd(g, s + {n}, g[n][ks[0]], ks[1..], u);
    }
  }

  lemma {:induction false} NoPaths(g: Graph, n: nat, s: set<nat>, u: nat)
    requires Closed(g) && n < |g| && u in s
    ensures Paths(g, n, s, u) == 0
    decreases Nodes(g) - s, 0
  {
    if n !in s {
      NoPathsAll(g, g[n], s + {n}, u);
    }
  }

  lemma {:induction false} NoPathsAll(g: Graph, kids: seq<nat>, s: set<nat>, u: nat)
    requires Closed(g) && u in s && forall k :: 0 <= k < |kids| ==> kids[k] < |g|
    ensures PathsAll(g, kids, s, u) == 0
    decreases Nodes(g) - s, |kids| + 1
  {
    if kids != [] {
      NoPathsAll(g, kids[..|kids| - 1], s, u);
      NoPaths(g, kids[|kids| - 1], s, u);
    }
  }

  /** All paths through a member count, and those through two different members count twice. */
  lemma {:induction false} PathsThrough(g: Graph, kids: seq<nat>, s: set<nat>, u: nat, i: nat)
    requires Closed(g) && i < |kids| && forall k :: 0 <= k < |kids| ==> kids[k] < |g|
    ensures PathsAll(g, kids, s, u) >= Paths(g, kids[i], s, u)
    ensures forall j :: 0 <= j < |kids| && j != i ==>
              PathsAll(g, kids, s, u) >= Paths(g, kids[i], s, u) + Paths(g, kids[j], s, u)
    decreases |kids|
  {
    hide Paths;
    var last := |kids| - 1;
    if i < last {
      PathsThrough(g, kids[..last], s, u, i);
    }
    forall j | 0 <= j < |kids| && j != i
      ensures PathsAll(g, kids, s, u) >= Paths(g, kids[i], s, u) + Paths(g, kids[j], s, u)
    {
      if i == last {
        PathsThrough(g, kids[..last], s, u, j);
      }
    }
  }

  lemma {:induction false} PathCounts(g: Graph, s: set<nat>, n: nat, ks: seq<nat>, u: nat)
    requires Closed(g) && Path(g, s, n, ks, u)
    ensures Paths(g, n, s, u) >= 1
    decreases ks
  {
    if ks != [] {
      PathCounts(g, s + {n}, g[n][ks[0]], ks[1..], u);
      PathsThrough(g, g[n], s + {n}, u, ks[0]);
    }
  }

  /** Two different paths are counted as two. */
  lemma {:induction false} TwoPathsCount(g: Graph, s: set<nat>, n: nat, a: seq<nat>, b: seq<nat>, u: nat)
    requires Closed(g) && Path(g, s, n, a, u) && Path(g, s, n, b, u) && a != b
    ensures Paths(g, n, s, u) >= 2
    decreases a
  {
    if a == [] || b == [] {
      var c := if a == [] then b else a;
      PathEnd(g, s + {n}, g[n][c[0]], c[1..], u);
      assert false;
    }
    var x, y := g[n][a[0]], g[n][b[0]];
    PathsThrough(g, g[n], s + {n}, u, a[0]);
    if a[0] == b[0] {
      assert a == [a[0]] + a[1..] && b == [b[0]] + b[1..];
      TwoPathsCount(g, s + {n}, x, a[1..], b[1..], u);
    } else {
      PathCounts(g, s + {n}, x, a[1..], u);
      PathCounts(g, s + {n}, y, b[1..], u);
    }
  }

  /** What is counted can be named. */
  lemma {:induction false} FindPath(g: Graph, n: nat, s: set<nat>, u: nat) returns (ks: seq<nat>)
    requires Closed(g) && n < |g| && Paths(g, n, s, u) >= 1
    ensures Path(g, s, n, ks, u)
    decreases Nodes(g) - s
  {
    if n == u {
      ks := [];
    } else {
      var i := FindMember(g, g[n], s + {n}, u);
      var rest := FindPath(g, g[n][i], s + {n}, u);
      ks := [i] + rest;
      assert ks[1..] == rest;
    }
  }

  lemma {:induction false} FindMember(g: Graph, kids: seq<nat>, s: set<nat>, u: nat) returns (i: nat)
    requires Closed(g) && (forall k :: 0 <= k < |kids| ==> kids[k] < |g|) && PathsAll(g, kids, s, u) >= 1
    ensures i < |kids| && Paths(g, kids[i], s, u) >= 1
    decreases |kids|
  {
    hide Paths;
    var last := |kids| - 1;
    if Paths(g, kids[last], s, u) >= 1 {
      i := last;
    } else {
      i := FindMember(g, kids[..last], s, u);
    }
  }

  /** A count of two comes from one member or from two. */
  lemma {:induction false} FindMembers(g: Graph, kids: seq<nat>, s: set<nat>, u: nat) returns (i: nat, j: nat)
    requires Closed(g) && (forall k :: 0 <= k < |kids| ==> kids[k] < |g|) && PathsAll(g, kids, s, u) >= 2
    ensures i < |kids| && j < |kids| && Paths(g, kids[i], s, u) >= 1 && Paths(g, kids[j], s, u) >= 1
    ensures i == j ==> Paths(g, kids[i], s, u) >= 2
    decreases |kids|
  {
    hide Paths;
    var last := |kids| - 1;
    if Paths(g, kids[last], s, u) >= 2 {
      i, j := last, last;
    } else if Paths(g, kids[last], s, u) == 1 {
      i := FindMember(g, kids[..last], s, u);
      j := last;
    } else {
      i, j := FindMembers(g, kids[..last], s, u);
    }
  }

  lemma {:induction false} FindTwoPaths(g: Graph, n: nat, s: set<nat>, u: nat) returns (a: seq<nat>, b: seq<nat>)
    requires Closed(g) && n < |g| && Paths(g, n, s, u) >= 2
    ensures Path(g, s, n, a, u) && Path(g, s, n, b, u) && a != b
    decreases Nodes(g) - s
  {
    if n == u {
      NoPathsAll(g, g[n], s + {n}, u);
      assert false;
    }
    var i, j := FindMembers(g, g[n], s + {n}, u);
    var x: seq<nat>, y: seq<nat>;
    if i == j {
      x, y := FindTwoPaths(g, g[n][i], s + {n}, u);
    } else {
      x := FindPath(g, g[n][i], s + {n}, u);
      y := FindPath(g, g[n][j], s + {n}, u);
    }
    a, b := [i] + x, [j] + y;
    assert a[0] == i && a[1..] == x && b[0] == j && b[1..] == y;
  }

  /** The number decides whether a path is the only one. */
  lemma OnePathIff(g: Graph, e: nat, u: nat)
    requires Closed(g) && e < |g|
    ensures OnePath(g, e, u) <==> Paths(g, e, {}, u) <= 1
  {
    hide Paths, Path;
    if Paths(g, e, {}, u) >= 2 {
      var a, b := FindTwoPaths(g, e, {}, u);
    } else {
      forall a, b | Path(g, {}, e, a, u) && Path(g, {}, e, b, u)
        ensures a == b
      {
        if a != b {
          TwoPathsCount(g, {}, e, a, b, u);
        }
      }
    }
  }

  // ---------------------------------------------------------------- longer and shorter paths

  /** The nodes a path visits. */
  ghost function Visited(g: Graph, n: nat, ks: seq<nat>): set<nat>
    decreases ks
  {
    if ks == [] || n >= |g| || ks[0] >= |g[n]| then {n} else {n} + Visited(g, g[n][ks[0]], ks[1..])
  }

  lemma {:induction false} VisitedEnd(g: Graph, s: set<nat>, n: nat, ks: seq<nat>, u: nat)
    requires Path(g, s, n, ks, u)
    ensures u in Visited(g, n, ks)
    decreases ks
  {
    if ks != [] {
      VisitedEnd(g, s + {n}, g[n][ks[0]], ks[1..], u);
    }
  }

  /** One step more. */
  lemma {:induction false} PathSnoc(g: Graph, s: set<nat>, n: nat, ks: seq<nat>, u: nat, k: nat)
    requires Path(g, s, n, ks, u) && u < |g| && k < |g[u]| && g[u][k] < |g| && g[u][k] !in s + Visited(g, n, ks)
    ensures Path(g, s, n, ks + [k], g[u][k]) && Visited(g, n, ks + [k]) == Visited(g, n, ks) + {g[u][k]}
    decreases ks
  {
    if ks == [] {
      assert ks + [k] == [k] && [k][1..] == [];
    } else {
      PathSnoc(g, s + {n}, g[n][ks[0]], ks[1..], u, k);
      assert (ks + [k])[1..] == ks[1..] + [k] && (ks + [k])[0] == ks[0];
    }
  }

  /** The first step of the rest of a path. */
  lemma {:induction false} PathSplit(g: Graph, s: set<nat>, n: nat, ks: seq<nat>, u: nat, rest: seq<nat>, end: nat)
    requires Path(g, s, n, ks, u) && Path(g, s, n, ks + rest, end) && rest != []
    ensures u < |g| && rest[0] < |g[u]| && g[u][rest[0]] < |g| && g[u][rest[0]] !in s + Visited(g, n, ks)
    decreases ks
  {
    if ks == [] {
      assert ks + rest == rest;
    } else {
      assert (ks + rest)[1..] == ks[1..] + rest && (ks + rest)[0] == ks[0];
      PathSplit(g, s + {n}, g[n][ks[0]], ks[1..], u, rest, end);
    }
  }

  /** A path up to a node it visits on the way. */
  lemma {:induction false} PathPrefix(g: Graph, s: set<nat>, n: nat, ks: seq<nat>, u: nat, x: nat) returns (i: nat)
    requires Path(g, s, n, ks, u) && x in Visited(g, n, ks)
    ensures i <= |ks| && Path(g, s, n, ks[..i], x)
    ensures x != u ==> u !in Visited(g, n, ks[..i])
    decreases ks
  {
    if x == n {
      i := 0;
      if ks != [] {
        PathEnd(g, s + {n}, g[n][ks[0]], ks[1..], u);
      }
    } else {
      var kid := g[n][ks[0]];
      var j := PathPrefix(g, s + {n}, kid, ks[1..], u, x);
      PathEnd(g, s + {n}, kid, ks[1..], u);
      i := j + 1;
      assert ks[..i][1..] == ks[1..][..j] && ks[..i][0] == ks[0];
    }
  }

  /**
    Two paths to a node on the way to another give two paths to that one: each is led on, or cut short where it has
    been already.
   */
  lemma {:induction false} Recombine(g: Graph, e: nat, a: seq<nat>, b: seq<nat>, v: nat, c: seq<nat>, u: nat)
    returns (x: seq<nat>, y: seq<nat>)
    requires Closed(g) && Path(g, {}, e, a, v) && Path(g, {}, e, b, v) && a != b && Path(g, {}, e, a + c, u)
    ensures Path(g, {}, e, x, u) && Path(g, {}, e, y, u) && x != y
    decreases c
  {
    hide Path, Visited;
    if c == [] {
      assert a + c == a;
      EndsAgree(g, {}, e, a, v, u);
      return a, b;
    }
    var k := c[0];
    PathSplit(g, {}, e, a, v, c, u);
    var w := g[v][k];
    PathSnoc(g, {}, e, a, v, k);
    VisitedEnd(g, {}, e, a, v);
    assert a + c == (a + [k]) + c[1..];
    if w in Visited(g, e, b) {
      var i := PathPrefix(g, {}, e, b, v, w);
      assert v in Visited(g, e, a + [k]) && v !in Visited(g, e, b[..i]);
      x, y := Recombine(g, e, a + [k], b[..i], w, c[1..], u);
    } else {
      PathSnoc(g, {}, e, b, v, k);
      SnocDiffers(a, b, k);
      x, y := Recombine(g, e, a + [k], b + [k], w, c[1..], u);
    }
  }

  lemma SnocDiffers(a: seq<nat>, b: seq<nat>, k: nat)
    ensures a + [k] == b + [k] ==> a == b
  {
    assert (a + [k])[..|a + [k]| - 1] == a && (b + [k])[..|b + [k]| - 1] == b;
  }

  lemma {:induction false} EndsAgree(g: Graph, s: set<nat>, n: nat, ks: seq<nat>, u: nat, v: nat)
    requires Path(g, s, n, ks, u) && Path(g, s, n, ks, v)
    ensures u == v
    decreases ks
  {
    if ks != [] {
      EndsAgree(g, s + {n}, g[n][ks[0]], ks[1..], u, v);
    }
  }

  /** A simple chain of nodes goes through some members, up to each of its nodes. */
  lemma {:induction false} ChainPath(g: Graph, s: set<nat>, n: nat, p: seq<nat>) returns (ks: seq<nat>)
    requires ChainFrom(g, s, n, p) && Simple(p)
    ensures |ks| == |p| - 1 && forall i :: 0 <= i < |p| ==> Path(g, s, n, ks[..i], p[i])
    decreases |p|
  {
    if |p| == 1 {
      ks := [];
    } else {
      assert p[1] in g[n];
      var k :| 0 <= k < |g[n]| && g[n][k] == p[1];
      ChainTail(g, s, n, p, 0);
      var rest := ChainPath(g, s + {n}, p[1], p[1..]);
      ks := [k] + rest;
      forall i | 0 <= i < |p|
        ensures Path(g, s, n, ks[..i], p[i])
      {
        if i > 0 {
          assert ks[..i][0] == k && ks[..i][1..] == rest[..i - 1] && p[i] == p[1..][i - 1];
        }
      }
    }
  }
}
