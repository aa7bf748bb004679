/**
  gc::try_collect of zvm/zvm_gc.cpp on values: the work list yields a node, the node is checked, and clear destroys it
  and what it takes along, before the next node is taken from what is left of the list.
 */
module GcSweep {
  import opened GcGraph
  import opened GcPaths
  import opened GcExact
  import opened GcClear
  import GcList

  type Lap = GcList.Lap<nat>

  /** The graph, the reference counts, the need-check marks, the work list, and the destroyed nodes. */
  datatype Store = Store(g: Graph, refs: seq<int>, check: seq<bool>, lap: Lap, gone: set<nat>)

  // ---------------------------------------------------------------- the work list

  ghost function Kept(s: seq<nat>, gone: set<nat>): (r: seq<nat>)
    ensures |r| <= |s|
  {
    if s == [] then []
    else Kept(s[..|s| - 1], gone) + if s[|s| - 1] in gone then [] else [s[|s| - 1]]
  }

  /** The list without the destroyed nodes. */
  ghost function Unlisted(l: Lap, gone: set<nat>): Lap { GcList.Turn(Kept(l.pending, gone), Kept(l.visited, gone)) }

  /** One entlist::del after the other. */
  function Deleted(l: Lap, order: seq<nat>): Lap {
    if order == [] then l
    else GcList.Step(Deleted(l, order[..|order| - 1]), GcList.Operation.Del(order[|order| - 1]))
  }

  lemma {:induction false} KeptOne(s: seq<nat>, gone: set<nat>, x: nat)
    ensures GcList.Without(Kept(s, gone), x) == Kept(s, gone + {x})
  {
    if s != [] {
      var last := |s| - 1;
      KeptOne(s[..last], gone, x);
      WithoutSnoc(Kept(s[..last], gone), s[last], x);
      assert Kept(s[..last], gone) + [] == Kept(s[..last], gone);
    }
  }

  lemma {:induction false} WithoutSnoc(s: seq<nat>, y: nat, x: nat)
    ensures GcList.Without(s + [y], x) == GcList.Without(s, x) + if y == x then [] else [y]
  {
    if s == [] {
      assert s + [y] == [y] && [y][1..] == [];
    } else {
      WithoutSnoc(s[1..], y, x);
      assert (s + [y])[1..] == s[1..] + [y];
    }
  }

  lemma {:induction false} KeptAll(s: seq<nat>)
    ensures Kept(s, {}) == s
  {
    if s != [] {
      KeptAll(s[..|s| - 1]);
    }
  }

  ghost function Members(order: seq<nat>): set<nat> { set x | x in order }

  /** The order of the deletions does not matter. */
  lemma {:induction false} DeletedUnlists(l: Lap, order: seq<nat>)
    requires GcList.Started(l)
    ensures Deleted(l, order) == Unlisted(l, Members(order))
  {
    hide Kept;
    if order == [] {
      KeptAll(l.pending);
      KeptAll(l.visited);
      assert Members(order) == {};
    } else {
      var front, x := order[..|order| - 1], order[|order| - 1];
      var gone := Members(front);
      DeletedUnlists(l, front);
      assert Members(order) == gone + {x};
      KeptOne(l.pending, gone, x);
      KeptOne(l.visited, gone, x);
      KeptNone(gone + {x});
      DelTurned(Kept(l.pending, gone), Kept(l.visited, gone), x);
    }
  }

  lemma DelTurned(pending: seq<nat>, visited: seq<nat>, x: nat)
    ensures GcList.Step(GcList.Turn(pending, visited), GcList.Operation.Del(x))
         == GcList.Turn(GcList.Without(pending, x), GcList.Without(visited, x))
  {
  }

  lemma KeptNone(gone: set<nat>)
    ensures Kept([], gone) == []
  {
  }

  lemma {:induction false} KeptMember(s: seq<nat>, gone: set<nat>, x: nat)
    ensures x in Kept(s, gone) <==> x in s && x !in gone
  {
    if s != [] {
      KeptMember(s[..|s| - 1], gone, x);
      assert s == s[..|s| - 1] + [s[|s| - 1]];
    }
  }

  // ---------------------------------------------------------------- one check

  ghost predicate InList(l: Lap, x: nat) { x in l.pending || x in l.visited }

  ghost predicate Sized(s: Store) {
    && Closed(s.g) && |s.refs| == |s.check| == |s.g| && GcList.Started(s.lap)
    && (forall x: nat :: InList(s.lap, x) ==> x < |s.g| && x !in s.gone)
  }

  /** entlist::check_one_node. */
  ghost function CheckOne(s: Store): (r: (Store, bool))
    requires Sized(s)
    ensures Sized(r.0) && |r.0.g| == |s.g|
  {
    if s.lap.pending == [] then (s, false)
    else
      var n := s.lap.pending[0];
      var lap := GcList.Step(s.lap, GcList.Operation.Get);
      assert InList(s.lap, n) && forall x: nat :: InList(lap, x) <==> InList(s.lap, x);
      if s.check[n] && Collects(s.g, s.refs, n) then
        var gone := Destroyed(s.g, s.refs, n);
        (UnlistedMembers(lap, gone);
         (Store(Without(s.g, gone), Dropped(s.g, s.refs, gone), s.check, Unlisted(lap, gone), s.gone + gone), true))
      else (s.(lap := lap), false)
  }

  lemma UnlistedMembers(l: Lap, gone: set<nat>)
    ensures GcList.Started(Unlisted(l, gone))
    ensures forall x: nat :: InList(Unlisted(l, gone), x) <==> InList(l, x) && x !in gone
  {
    hide Kept;
    forall x: nat
      ensures InList(Unlisted(l, gone), x) <==> InList(l, x) && x !in gone
    {
      KeptMember(l.pending, gone, x);
      KeptMember(l.visited, gone, x);
    }
  }

  /** `k` turns of the loop of gc::try_collect, and how many nodes they collect. */
  ghost function Checks(s: Store, k: nat): (r: (Store, nat))
    requires Sized(s)
    ensures Sized(r.0) && |r.0.g| == |s.g|
    decreases k
  {
    if k == 0 then (s, 0)
    else
      var (next, collected) := CheckOne(s);
      var (end, num) := Checks(next, k - 1);
      (end, num + if collected then 1 else 0)
  }

  /** Before every check no reference leads to a destroyed node. */
  ghost predicate NeverDangles(s: Store, k: nat)
    requires Sized(s)
    decreases k
  {
    k > 0 ==> Intact(s.g, s.gone) && NeverDangles(CheckOne(s).0, k - 1)
  }

  // ---------------------------------------------------------------- what every sweep keeps

  /** Reference counts stay honest, and every node keeps the references it has from outside. */
  lemma {:induction false} SweepHonest(s: Store, k: nat)
    requires Sized(s) && Honest(s.g, s.refs)
    ensures var r := Checks(s, k).0;
            && Honest(r.g, r.refs) && s.gone <= r.gone && r.check == s.check
            && forall v: nat :: v < |s.g| ==> r.refs[v] - References(r.g, v) == s.refs[v] - References(s.g, v)
    decreases k
  {
    hide Collects, Destroyed, Arcs, Honest, Sized, Unlisted;
    if k > 0 {
      CheckHonest(s);
      SweepHonest(CheckOne(s).0, k - 1);
    }
  }

  lemma CheckHonest(s: Store)
    requires Sized(s) && Honest(s.g, s.refs)
    ensures var r := CheckOne(s).0;
            && Honest(r.g, r.refs) && s.gone <= r.gone && r.check == s.check
            && forall v: nat :: v < |s.g| ==> r.refs[v] - References(r.g, v) == s.refs[v] - References(s.g, v)
  {
    hide Collects, Destroyed, Arcs, Unlisted;
    if s.lap.pending != [] {
      assert InList(s.lap, s.lap.pending[0]);
      HonestLeft(s.g, s.refs, Destroyed(s.g, s.refs, s.lap.pending[0]));
    }
  }

  /** A check that collects destroys the node it collects and perhaps others, and none that was destroyed before. */
  lemma {:induction false} CollectedAreDestroyed(s: Store, k: nat)
    requires Sized(s) && s.gone <= Nodes(s.g)
    ensures var (r, num) := Checks(s, k);
            s.gone <= r.gone <= Nodes(s.g) && num <= |r.gone| - |s.gone|
    decreases k
  {
    hide Collects, Destroyed, Arcs, Sized, Unlisted;
    if k > 0 {
      CheckDestroys(s);
      CollectedAreDestroyed(CheckOne(s).0, k - 1);
    }
  }

  lemma {:induction false} CheckDestroys(s: Store)
    requires Sized(s) && s.gone <= Nodes(s.g)
    ensures var (r, collected) := CheckOne(s);
            && s.gone <= r.gone <= Nodes(s.g) && (collected ==> |r.gone| >= |s.gone| + 1)
            && (!collected ==> r.gone == s.gone) && Nodes(r.g) == Nodes(s.g)
  {
    hide Collects, Destroyed, Arcs, Unlisted;
    if s.lap.pending != [] {
      var n := s.lap.pending[0];
      assert InList(s.lap, n);
      DestroyedLeast(s.g, s.refs, n);
      var r := CheckOne(s).0;
      if s.gone + {n} <= r.gone {
        Smaller(s.gone + {n}, r.gone);
      }
    }
  }

  lemma {:induction false} Smaller(a: set<nat>, b: set<nat>)
    requires a <= b
    ensures |a| <= |b|
  {
    if x :| x in a {
      Smaller(a - {x}, b - {x});
    }
  }

  // ---------------------------------------------------------------- unique returns

  ghost predicate AllUnique(g: Graph) { forall e: nat :: e < |g| ==> UniqueReturns(g, e) }

  lemma {:induction false} PathBack(g: Graph, gone: set<nat>, s: set<nat>, n: nat, ks: seq<nat>, u: nat)
    requires Path(Without(g, gone), s, n, ks, u)
    ensures Path(g, s, n, ks, u)
    decreases ks
  {
    if ks != [] {
      PathBack(g, gone, s + {n}, g[n][ks[0]], ks[1..], u);
    }
  }

  lemma UniqueLeft(g: Graph, gone: set<nat>)
    requires AllUnique(g)
    ensures AllUnique(Without(g, gone))
  {
    hide Path;
    var r := Without(g, gone);
    forall e: nat, u: nat, a, b |
        e < |r| && u < |r| && e in r[u] && Path(r, {}, e, a, u) && Path(r, {}, e, b, u)
      ensures a == b
    {
      PathBack(g, gone, {}, e, a, u);
      PathBack(g, gone, {}, e, b, u);
      assert UniqueReturns(g, e) && OnePath(g, e, u);
    }
    forall e: nat, u: nat | e < |r| && u < |r| && e in r[u]
      ensures OnePath(r, e, u)
    {
    }
  }

  /** One check of a heap with unique returns. */
  lemma {:induction false} CheckSafe(s: Store)
    requires Sized(s) && Honest(s.g, s.refs) && Intact(s.g, s.gone) && AllUnique(s.g)
    ensures Intact(CheckOne(s).0.g, CheckOne(s).0.gone) && AllUnique(CheckOne(s).0.g)
    ensures CheckOne(s).1 ==> s.lap.pending != [] && InList(s.lap, s.lap.pending[0])
                              && Safe(s.g, s.refs, s.lap.pending[0])
  {
    hide Collects, Destroyed, Arcs, Unlisted, UniqueReturns, Safe;
    if s.lap.pending != [] {
      var n := s.lap.pending[0];
      assert InList(s.lap, n);
      if s.check[n] && Collects(s.g, s.refs, n) {
        var gone := Destroyed(s.g, s.refs, n);
        CollectedSafe(s.g, s.refs, n);
        SafeMeans(s.g, s.refs, n);
        UniqueLeft(s.g, gone);
      }
    }
  }

  /** A heap with honest counts and unique returns can be swept any number of times without a dangling reference. */
  lemma {:induction false} SweepSafe(s: Store, k: nat)
    requires Sized(s) && Honest(s.g, s.refs) && Intact(s.g, s.gone) && AllUnique(s.g)
    ensures NeverDangles(s, k) && Intact(Checks(s, k).0.g, Checks(s, k).0.gone) && AllUnique(Checks(s, k).0.g)
    decreases k
  {
    hide CheckOne, AllUnique, Honest, Intact;
    if k > 0 {
      CheckSafe(s);
      CheckHonest(s);
      SweepSafe(CheckOne(s).0, k - 1);
    }
  }

  /** What a chain leads to in the old graph it leads to in the new one, if none of its nodes is destroyed. */
  lemma ChainLeft(g: Graph, gone: set<nat>, w: nat, v: nat)
    requires Reaches(g, {}, w, v) && forall u :: Reaches(g, {}, w, u) ==> u !in gone
    ensures Reaches(Without(g, gone), {}, w, v)
  {
    var p :| ChainFrom(g, {}, w, p) && Last(p) == v;
    forall i | 0 <= i < |p|
      ensures p[i] !in gone
    {
      assert ChainFrom(g, {}, w, p[..i + 1]) && Last(p[..i + 1]) == p[i];
    }
    assert ChainFrom(Without(g, gone), {}, w, p);
  }

  /**
    Safety of the collector: with honest reference counts and unique returns, in any number of sweeps, everything that
    can be reached from a node held from outside survives, with all its members.
   */
  lemma {:induction false} SweepKeepsLive(s: Store, k: nat, w: nat, v: nat)
    requires Sized(s) && Honest(s.g, s.refs) && Intact(s.g, s.gone) && AllUnique(s.g)
    requires w < |s.g| && s.refs[w] > References(s.g, w) && Reaches(s.g, {}, w, v) && v !in s.gone
    ensures var r := Checks(s, k).0; v < |s.g| && v !in r.gone && r.g[v] == s.g[v]
    decreases k
  {
    hide CheckOne, AllUnique, Honest, Intact, Arcs;
    ReachesBelow(s.g, w, v);
    if k > 0 {
      CheckSafe(s);
      CheckHonest(s);
      CheckKeepsLive(s, w, v);
      SweepKeepsLive(CheckOne(s).0, k - 1, w, v);
    }
  }

  lemma ReachesBelow(g: Graph, w: nat, v: nat)
    requires Reaches(g, {}, w, v)
    ensures v < |g|
  {
    var p :| ChainFrom(g, {}, w, p) && Last(p) == v;
  }

  lemma {:induction false} CheckKeepsLive(s: Store, w: nat, v: nat)
    requires Sized(s) && Honest(s.g, s.refs) && Intact(s.g, s.gone) && AllUnique(s.g)
    requires w < |s.g| && s.refs[w] > References(s.g, w) && Reaches(s.g, {}, w, v) && v !in s.gone
    ensures var r := CheckOne(s).0; v < |s.g| && v !in r.gone && r.g[v] == s.g[v] && Reaches(r.g, {}, w, v)
  {
    hide Collects, Destroyed, Arcs, Unlisted, AllUnique, Intact, Safe, Reaches;
    CheckSafe(s);
    ReachesBelow(s.g, w, v);
    if CheckOne(s).1 {
      var n := s.lap.pending[0];
      assert InList(s.lap, n);
      forall u: nat | Reaches(s.g, {}, w, u)
        ensures u !in Destroyed(s.g, s.refs, n)
      {
        LiveKept(s.g, s.refs, n, w, u);
      }
      ChainLeft(s.g, Destroyed(s.g, s.refs, n), w, v);
    }
  }

  // ---------------------------------------------------------------- what is never collected

  /** Nodes without need-check mark that all have a reference from one of them. */
  ghost predicate Unmarked(s: Store, t: set<nat>) {
    && (forall v :: v in t ==> v < |s.g| && v < |s.check| && !s.check[v])
    && forall v :: v in t ==> HeldIn(s.g, t, v)
  }

  ghost predicate HeldIn(g: Graph, t: set<nat>, v: nat) { exists u :: u in t && u < |g| && v in g[u] }

  /**
    clear drops references without setting the need-check mark. So nodes that hold each other and carry no mark are
    never destroyed, however many sweeps there are and whatever referred to them is collected.
   */
  lemma {:induction false} UnmarkedStay(s: Store, k: nat, t: set<nat>)
    requires Sized(s) && Honest(s.g, s.refs) && Unmarked(s, t) && t !! s.gone
    ensures var r := Checks(s, k).0; t !! r.gone && forall v :: v in t ==> v < |s.g| && r.g[v] == s.g[v]
    decreases k
  {
    hide CheckOne, Honest, Unmarked, Sized;
    UnmarkedBelow(s, t);
    if k > 0 {
      CheckUnmarked(s, t);
      CheckHonest(s);
      UnmarkedStay(CheckOne(s).0, k - 1, t);
    }
  }

  lemma UnmarkedBelow(s: Store, t: set<nat>)
    requires Unmarked(s, t)
    ensures forall v :: v in t ==> v < |s.g|
  {
  }

  lemma {:induction false} CheckUnmarked(s: Store, t: set<nat>)
    requires Sized(s) && Honest(s.g, s.refs) && Unmarked(s, t) && t !! s.gone
    ensures var r := CheckOne(s).0;
            t !! r.gone && Unmarked(r, t) && forall v :: v in t ==> v < |s.g| && r.g[v] == s.g[v]
  {
    hide Collects, Destroyed, Arcs, Unlisted, Honest, Unmarked, Settled;
    UnmarkedBelow(s, t);
    var r := CheckOne(s).0;
    if CheckOne(s).1 {
      var n := s.lap.pending[0];
      assert InList(s.lap, n);
      var gone := Destroyed(s.g, s.refs, n);
      DestroyedLeast(s.g, s.refs, n);
      SettledWithout(s, gone, t);
      MarkedOutside(s, n, t);
      assert gone <= gone - t;
      assert r.gone == s.gone + gone;
    }
    UnmarkedSame(s, r, t);
  }

  lemma MarkedOutside(s: Store, n: nat, t: set<nat>)
    requires Unmarked(s, t) && n < |s.check| && s.check[n]
    ensures n !in t
  {
  }

  lemma UnmarkedSame(s: Store, r: Store, t: set<nat>)
    requires Unmarked(s, t) && |r.g| == |s.g| && r.check == s.check
    requires forall v :: v in t && v < |s.g| ==> r.g[v] == s.g[v]
    ensures Unmarked(r, t)
  {
    forall v | v in t
      ensures HeldIn(r.g, t, v)
    {
      assert HeldIn(s.g, t, v);
      var u :| u in t && u < |s.g| && v in s.g[u];
      assert v in r.g[u];
    }
  }

  lemma SettledWithout(s: Store, gone: set<nat>, t: set<nat>)
    requires Sized(s) && Honest(s.g, s.refs) && Unmarked(s, t) && Settled(s.g, s.refs, gone)
    ensures Settled(s.g, s.refs, gone - t)
  {
    hide Arcs;
    forall v: nat | v < |s.g| && v !in gone - t
      ensures Arcs(s.g, gone - t, v, |s.g|) == 0 || s.refs[v] > Arcs(s.g, gone - t, v, |s.g|)
    {
      if v in t {
        assert HeldIn(s.g, t, v);
        var u :| u in t && u < |s.g| && v in s.g[u];
        ArcsWithin(s.g, gone - t, v, u, |s.g|);
        assert s.refs[v] >= References(s.g, v);
      } else {
        ArcsGrow(s.g, gone - t, gone, v, |s.g|);
      }
    }
  }

  // ---------------------------------------------------------------- a pair

  /**
    Two nodes that hold each other, both marked: the first check destroys both, the list is empty, and a full round
    collects one and not two.
   */
  lemma {:induction false} PairCountedOnce(s: Store)
    requires s == Store([[1], [0]], [1, 1], [true, true], GcList.Lap([0, 1], []), {})
    ensures Sized(s)
    ensures Checks(s, 2) == (Store([[], []], [0, 0], [true, true], GcList.Lap([], []), {0, 1}), 1)
  {
    hide Collects, Destroyed, Arcs, Unlisted, Without, Dropped;
    PairCollected(s.g, s.refs);
    PairUnlisted(GcList.Step(s.lap, GcList.Operation.Get));
    var end := Store([[], []], [0, 0], [true, true], GcList.Lap([], []), {0, 1});
    assert s.gone + {0, 1} == {0, 1};
    assert CheckOne(s) == (end, true);
    assert Checks(end, 1) == (end, 0);
  }

  lemma PairUnlisted(l: Lap)
    requires l == GcList.Step(GcList.Lap([0, 1], []), GcList.Operation.Get)
    ensures Unlisted(l, {0, 1}) == GcList.Lap([], [])
  {
    var two: seq<nat> := [0, 1];
    assert two[1..] == [1] && l == GcList.Lap([1], [0]);
    assert [1][..0] == [] && [0][..0] == [];
    KeptNone({0, 1});
  }

  lemma PairCollected(g: Graph, refs: seq<int>)
    requires g == [[1], [0]] && refs == [1, 1]
    ensures Closed(g) && Collects(g, refs, 0) && Destroyed(g, refs, 0) == {0, 1}
    ensures Dropped(g, refs, {0, 1}) == [0, 0] && Without(g, {0, 1}) == [[], []]
  {
    hide Collects, Destroyed, Walk;
    var gone := Destroyed(g, refs, 0);
    assert ChainFrom(g, {}, 0, [0, 1]) && Last([0, 1]) == 1;
    assert 0 in g[1] && 1 in g[0];
    assert OnCycle(g, 0);
    forall v: nat | v < |g|
      ensures refs[v] <= 1
    {
      assert v == 0 || v == 1;
    }
    SingleReferencesExact(g, refs, 0);
    DestroyedLeast(g, refs, 0);
    if 1 !in gone {
      ArcCounts(g, gone, 1, 0, 2);
    }
    assert multiset(g[0]) == multiset{1} && multiset(g[1]) == multiset{0};
    forall v: nat | v < 2
      ensures Arcs(g, {0, 1}, v, 2) == 1
    {
      assert Arcs(g, {0, 1}, v, 1) == multiset(g[0])[v];
    }
    assert gone == {0, 1};
  }
}
