/**
  gc_type::try_collect, user_type::clear and gc::try_collect as methods on the nodes of GcWalks: the decision, the
  recursive destruction that follows it, and the sweep over the work list. The ghost parameter `g` is the reference
  graph before the clear, and `gone` holds the nodes whose clear has begun.
 */
module GcCollect {
  import opened GcGraph
  import opened GcExact
  import opened GcClear
  import opened GcSweep
  import opened GcWalks
  import GcList

  // ---------------------------------------------------------------- members

  function EmptiedOne(m: Member): Member { if m.Reference? then Reference(null) else m }

  /** What clear leaves of the members: the objects have lost their entries. */
  function Emptied(members: seq<Member>): (r: seq<Member>)
    ensures |r| == |members|
  {
    seq(|members|, i requires 0 <= i < |members| => EmptiedOne(members[i]))
  }

  predicate Holds(m: Member) { m.Reference? && m.target != null }

  lemma {:induction false} EmptiedTargets(members: seq<Member>)
    ensures Ids(Targets(Emptied(members))) == []
    ensures forall k :: 0 <= k < |Targets(Emptied(members))| ==> Targets(Emptied(members))[k] == null
  {
    if members != [] {
      var last := |members| - 1;
      EmptiedTargets(members[..last]);
      assert Emptied(members)[..last] == Emptied(members[..last]);
      if members[last].Reference? {
        IdsAppend(Targets(Emptied(members[..last])), null);
      } else {
        assert Targets(Emptied(members)) == Targets(Emptied(members[..last]));
      }
    }
  }

  lemma {:induction false} IdsConcat(a: seq<Node?>, b: seq<Node?>)
    ensures Ids(a + b) == Ids(a) + Ids(b)
  {
    if b == [] {
      assert a + b == a;
    } else {
      var last := |b| - 1;
      IdsConcat(a, b[..last]);
      assert a + b == a + b[..last] + [b[last]] && b == b[..last] + [b[last]];
      IdsAppend(a + b[..last], b[last]);
      IdsAppend(b[..last], b[last]);
    }
  }

  lemma {:induction false} TargetsConcat(a: seq<Member>, b: seq<Member>)
    ensures Targets(a + b) == Targets(a) + Targets(b)
  {
    if b == [] {
      assert a + b == a;
    } else {
      var last := |b| - 1;
      TargetsConcat(a, b[..last]);
      assert a + b == a + b[..last] + [b[last]] && b == b[..last] + [b[last]];
      TargetsAppend(a + b[..last], b[last]);
      TargetsAppend(b[..last], b[last]);
    }
  }

  /** The members of a node while clear is at place `i`. */
  function Part(members: seq<Member>, i: nat): seq<Member>
    requires i <= |members|
  {
    members[..i] + Emptied(members[i..])
  }

  /** Only the members before the place still count. */
  lemma {:induction false} PartIds(members: seq<Member>, i: nat)
    requires i <= |members|
    ensures Ids(Targets(Part(members, i))) == Ids(Targets(members[..i]))
    ensures forall t :: t in Targets(Part(members, i)) ==> t == null || t in Targets(members)
  {
    TargetsConcat(members[..i], Emptied(members[i..]));
    IdsConcat(Targets(members[..i]), Targets(Emptied(members[i..])));
    EmptiedTargets(members[i..]);
    TargetsPrefix(members, i);
    assert Ids(Targets(members[..i])) + [] == Ids(Targets(members[..i]));
  }

  lemma PartStep(members: seq<Member>, i: nat)
    requires i < |members|
    ensures |Part(members, i + 1)| == |members| && Part(members, i + 1)[i] == members[i]
    ensures Part(members, i) == Part(members, i + 1)[i := EmptiedOne(members[i])]
    ensures var m, kids := members[i], Ids(Targets(members[..i]));
            Ids(Targets(members[..i + 1])) == if Holds(m) then kids + [m.target.id] else kids
  {
    hide Ids, Targets;
    var m := members[i];
    assert members[..i + 1] == members[..i] + [m];
    TargetsAppend(members[..i], m);
    assert Targets(members[..i]) + [] == Targets(members[..i]);
    if m.Reference? {
      IdsAppend(Targets(members[..i]), m.target);
    }
    PartUpdate(members, i);
  }

  lemma PartUpdate(members: seq<Member>, i: nat)
    requires i < |members|
    ensures Part(members, i) == Part(members, i + 1)[i := EmptiedOne(members[i])]
    ensures Part(members, i + 1)[i] == members[i]
  {
  }

  lemma PartEnds(members: seq<Member>)
    ensures Part(members, |members|) == members && Part(members, 0) == Emptied(members)
    ensures Targets(members[..0]) == [] && Ids([]) == []
  {
    assert members[0..] == members && members[..0] + Emptied(members) == Emptied(members);
    assert members[|members|..] == [] && Emptied([]) == [];
  }

  // ---------------------------------------------------------------- the heap during a clear

  function WithMembers(h: Heap, n: nat, m: seq<Member>): Heap
    requires n < |h|
  {
    h[n := h[n].(members := m)]
  }

  function WithRefs(h: Heap, n: nat, c: int): Heap
    requires n < |h|
  {
    h[n := h[n].(refs := c)]
  }

  /**
    Nodes whose clear has not begun are as they were; the others carry STATUS_CLEAR until their last reference is gone;
    and all references that are left are counted.
   */
  ghost predicate Clears(h: Heap, g: Graph, gone: set<nat>) {
    && |g| == |h|
    && (forall i :: 0 <= i < |h| ==>
          if i in gone then h[i].status == STATUS_CLEAR || (h[i].status == STATUS_NULL && h[i].refs <= 0)
          else h[i].status == STATUS_NULL && GraphOf(h)[i] == g[i])
    && Honest(GraphOf(h), RefsOf(h))
  }

  /** The nodes in `ended` are destroyed; of the others the count, and in `gone` also the status, may have changed. */
  ghost predicate ClearedIn(before: Heap, after: Heap, gone: set<nat>, ended: set<nat>) {
    && |after| == |before|
    && forall i :: 0 <= i < |after| ==>
         && after[i] == before[i].(refs := after[i].refs, status := after[i].status, members := after[i].members)
         && after[i].members == (if i in ended then Emptied(before[i].members) else before[i].members)
         && (if i in ended then after[i].status == STATUS_NULL
             else after[i].status == before[i].status || (i in gone && after[i].status == STATUS_NULL))
  }

  lemma ClearedWorld(before: Heap, after: Heap, gone: set<nat>, ended: set<nat>, w: seq<Node>)
    requires ClearedIn(before, after, gone, ended) && IsWorld(w, before)
    ensures IsWorld(w, after)
  {
    forall i, k | 0 <= i < |after| && 0 <= k < |Targets(after[i].members)|
      ensures var t := Targets(after[i].members)[k]; t == null || In(w, t)
    {
      if i in ended {
        EmptiedTargets(before[i].members);
      }
    }
  }

  lemma ClearedChain(before: Heap, middle: Heap, after: Heap, gone: set<nat>, a: set<nat>, b: set<nat>)
    requires ClearedIn(before, middle, gone, a) && ClearedIn(middle, after, gone + a, b) && a !! b
    ensures ClearedIn(before, after, gone, a + b)
  {
  }

  lemma ClearedPart(before: Heap, after: Heap, gone: set<nat>, ended: set<nat>, n: nat, m: seq<Member>)
    requires ClearedIn(before, after, gone, ended) && n < |before| && n !in ended
    ensures ClearedIn(WithMembers(before, n, m), WithMembers(after, n, m), gone, ended)
  {
  }

  lemma ClearedSelf(h: Heap, gone: set<nat>)
    ensures ClearedIn(h, h, gone, {})
  {
  }

  /** A clear from its first to its last status. */
  lemma ClearedWhole(h: Heap, end: Heap, gone: set<nat>, ended: set<nat>, n: nat)
    requires n < |h| == |end| && n !in gone && n !in ended
    requires ClearedIn(WithMembers(WithStatus(h, n, STATUS_CLEAR), n, Emptied(h[n].members)), end, gone + {n}, ended)
    ensures ClearedIn(h, WithStatus(end, n, STATUS_NULL), gone, ended + {n})
  {
  }

  lemma ClearsStart(h: Heap, g: Graph, gone: set<nat>, n: nat)
    requires Clears(h, g, gone) && n < |h| && n !in gone
    ensures Clears(WithStatus(h, n, STATUS_CLEAR), g, gone + {n})
    ensures RefsOf(WithStatus(h, n, STATUS_CLEAR)) == RefsOf(h) && GraphOf(h)[n] == g[n]
  {
    SameMarks(h, n, STATUS_CLEAR, 0);
    assert RefsOf(WithStatus(h, n, STATUS_CLEAR)) == RefsOf(h);
  }

  lemma StatusWorld(w: seq<Node>, h: Heap, n: nat, s: Status)
    requires IsWorld(w, h) && n < |h|
    ensures IsWorld(w, WithStatus(h, n, s)) && GraphOf(WithStatus(h, n, s)) == GraphOf(h)
    ensures RefsOf(WithStatus(h, n, s)) == RefsOf(h) && WithStatus(h, n, s)[n] == h[n].(status := s)
  {
    assert RefsOf(WithStatus(h, n, s)) == RefsOf(h);
  }

  /** The last reference to a node whose clear is running takes its status. */
  lemma {:induction false} StatusLost(h: Heap, g: Graph, gone: set<nat>, n: nat)
    requires Closed(g) && Clears(h, g, gone) && n < |h| && h[n].refs <= 0 && h[n].status != STATUS_NULL
    ensures n in gone && Clears(WithStatus(h, n, STATUS_NULL), g, gone)
    ensures ClearedIn(h, WithStatus(h, n, STATUS_NULL), gone, {})
    ensures Clearing(g, n, Drops(RefsOf(h), gone)) == Drops(RefsOf(h), gone)
    ensures Members([]) == {} && GcList.Distinct<nat>([])
  {
    ClearsEnd(h, g, gone, n);
  }

  lemma ClearsNull(h: Heap, g: Graph, gone: set<nat>, n: nat)
    requires Clears(h, g, gone) && n < |h|
    ensures h[n].status != STATUS_NULL ==> n in gone
  {
  }

  lemma ClearingUnfolds(g: Graph, n: nat, d: Drops)
    requires Closed(g) && n < |g| == |d.counts| && n !in d.gone
    ensures Clearing(g, n, d) == DropAll(g, g[n], d.(gone := d.gone + {n}))
    ensures Clearing(g, n, d).counts[n] <= d.counts[n]
  {
    hide Arcs, DropAll;
    ClearingCounts(g, n, d, n);
    ArcsGrow(g, d.gone, Clearing(g, n, d).gone, n, |g|);
  }

  lemma MembersAppend(order: seq<nat>, n: nat)
    requires GcList.Distinct(order) && n !in Members(order)
    ensures Members(order + [n]) == Members(order) + {n} && GcList.Distinct(order + [n])
  {
  }

  lemma {:induction false} ClearsEnd(h: Heap, g: Graph, gone: set<nat>, n: nat)
    requires Clears(h, g, gone) && n < |h| && n in gone
    ensures h[n].refs <= 0 ==> Clears(WithStatus(h, n, STATUS_NULL), g, gone)
    ensures RefsOf(WithStatus(h, n, STATUS_NULL)) == RefsOf(h)
  {
    SameMarks(h, n, STATUS_NULL, 0);
    assert RefsOf(WithStatus(h, n, STATUS_NULL)) == RefsOf(h);
  }

  /** A reference that is dropped is one reference less to its target. */
  lemma {:induction false} ArcsReplaced(g: Graph, r: Graph, v: nat, n: nat, k: nat)
    requires k <= |g| == |r| && n < |g| && r == g[n := r[n]]
    ensures Arcs(r, Nodes(g), v, k) + (if n < k then multiset(g[n])[v] else 0)
         == Arcs(g, Nodes(g), v, k) + (if n < k then multiset(r[n])[v] else 0)
    decreases k
  {
    if k > 0 {
      ArcsReplaced(g, r, v, n, k - 1);
    }
  }

  lemma HonestDrop(a: Graph, b: Graph, refs: seq<int>, n: nat, kid: nat)
    requires Honest(a, refs) && |b| == |a| && n < |a| && kid < |a| && b == a[n := b[n]] && a[n] == b[n] + [kid]
    ensures Honest(b, refs[kid := refs[kid] - 1]) && refs[kid] >= 1
  {
    hide Arcs;
    forall v: nat | v < |a|
      ensures refs[v] - (if v == kid then 1 else 0) >= References(b, v)
    {
      ArcsReplaced(a, b, v, n, |a|);
      assert refs[v] >= References(a, v);
    }
  }

  /** The heap after one force_clear, up to what the target does about it. */
  lemma {:induction false} ClearsDrop(h: Heap, g: Graph, gone: set<nat>, n: nat, m: seq<Member>, kid: nat)
    requires Clears(h, g, gone) && n < |h| && n in gone && kid < |h|
    requires GraphOf(h)[n] == Ids(Targets(m)) + [kid]
    ensures var after := WithRefs(WithMembers(h, n, m), kid, h[kid].refs - 1);
            Clears(after, g, gone) && RefsOf(after) == RefsOf(h)[kid := h[kid].refs - 1]
    ensures h[kid].refs >= 1
  {
    hide Arcs, Honest, Ids, Targets;
    var after := WithRefs(WithMembers(h, n, m), kid, h[kid].refs - 1);
    var a, b := GraphOf(h), GraphOf(after);
    assert b == a[n := Ids(Targets(m))];
    assert RefsOf(after) == RefsOf(h)[kid := h[kid].refs - 1];
    HonestDrop(a, b, RefsOf(h), n, kid);
  }

  lemma {:induction false} ClearsSkip(h: Heap, g: Graph, gone: set<nat>, n: nat, m: seq<Member>)
    requires Clears(h, g, gone) && n < |h| && n in gone && GraphOf(h)[n] == Ids(Targets(m))
    ensures Clears(WithMembers(h, n, m), g, gone) && RefsOf(WithMembers(h, n, m)) == RefsOf(h)
  {
    assert GraphOf(WithMembers(h, n, m)) == GraphOf(h);
    assert RefsOf(WithMembers(h, n, m)) == RefsOf(h);
  }

  // ---------------------------------------------------------------- clear

  /** obj::force_clear sets the entry of a member to NULL. */
  method SetMember(node: Node, i: nat, m: Member, ghost w: seq<Node>)
    requires IsList(w) && In(w, node) && i < |node.members|
    modifies node`members
    ensures node.members == old(node.members)[i := m]
    ensures HeapOf(w) == WithMembers(old(HeapOf(w)), node.id, node.members)
  {
    hide HeapOf;
    HeapCells(w);
    node.members := node.members[i := m];
    HeapCells(w);
  }

  /** entry::dec_ref. */
  method DecRef(node: Node, ghost w: seq<Node>)
    requires IsList(w) && In(w, node)
    modifies node`refCount
    ensures HeapOf(w) == WithRefs(old(HeapOf(w)), node.id, old(node.refCount) - 1)
    ensures node.refCount == old(node.refCount) - 1
  {
    hide HeapOf;
    HeapCells(w);
    node.refCount := node.refCount - 1;
    HeapCells(w);
  }

  /**
    user_type::clear for a class without parent; the result lists the destroyed nodes in the order in which their
    destructors run. A node whose clear is running only loses its status.
   */
  method Clear(node: Node, ghost w: seq<Node>, ghost g: Graph, ghost gone: set<nat>) returns (destroyed: seq<nat>)
    requires IsWorld(w, HeapOf(w)) && In(w, node) && Closed(g) && Clears(HeapOf(w), g, gone)
    requires node.refCount <= 0 || gone == {}
    requires node.id in gone ==> node.status != STATUS_NULL
    modifies w
    ensures ClearedIn(old(HeapOf(w)), HeapOf(w), gone, Members(destroyed))
    ensures Members(destroyed) !! gone && GcList.Distinct(destroyed)
    ensures Drops(RefsOf(HeapOf(w)), gone + Members(destroyed))
         == Clearing(g, node.id, Drops(old(RefsOf(HeapOf(w))), gone))
    ensures old(node.refCount) <= 0 ==> Clears(HeapOf(w), g, gone + Members(destroyed))
    decreases Nodes(g) - gone, 0
  {
    hide HeapOf, IsWorld, Clears, ClearedIn, WithStatus, WithMembers, RefsOf, Clearing, DropAll, GcList.Distinct,
         Members, GraphOf;
    ghost var h, n := HeapOf(w), node.id;
    WorldLists(w, h, n);
    HeapAt(w, n);
    ClearsNull(h, g, gone, n);
    if node.status != STATUS_NULL {
      StatusLost(h, g, gone, n);
      StatusWorld(w, h, n, STATUS_NULL);
      assert gone + {} == gone;
      node.SetStatus(STATUS_NULL, w);
      return [];
    }
    node.SetStatus(STATUS_CLEAR, w);
    ghost var h1, longer := HeapOf(w), gone + {n};
    ClearsStart(h, g, gone, n);
    StatusWorld(w, h, n, STATUS_CLEAR);
    ClearingUnfolds(g, n, Drops(RefsOf(h), gone));
    destroyed := DropMembers(node, w, g, longer);
    ghost var h2 := HeapOf(w);
    HeapAt(w, n);
    RefsAt(h, n);
    RefsAt(h2, n);
    ClearsEnd(h2, g, longer + Members(destroyed), n);
    ClearedWhole(h, h2, gone, Members(destroyed), n);
    MembersAppend(destroyed, n);
    assert longer + Members(destroyed) == gone + Members(destroyed + [n]);
    node.SetStatus(STATUS_NULL, w);
    destroyed := destroyed + [node.id];
  }

  lemma RefsAt(h: Heap, n: nat)
    requires n < |h|
    ensures RefsOf(h)[n] == h[n].refs
  {
  }

  /** entry::recycle on the target of a member that has just lost it. */
  method Recycle(target: Node, ghost w: seq<Node>, ghost g: Graph, ghost gone: set<nat>) returns (destroyed: seq<nat>)
    requires IsWorld(w, HeapOf(w)) && In(w, target) && Closed(g)
    requires Clears(WithRefs(HeapOf(w), target.id, target.refCount - 1), g, gone)
    requires target.id in gone ==> target.status != STATUS_NULL
    modifies w
    ensures ClearedIn(old(HeapOf(w)), HeapOf(w), gone, Members(destroyed))
    ensures Members(destroyed) !! gone && GcList.Distinct(destroyed)
    ensures Drops(RefsOf(HeapOf(w)), gone + Members(destroyed))
         == DropOne(g, target.id, Drops(old(RefsOf(HeapOf(w))), gone))
    ensures Clears(HeapOf(w), g, gone + Members(destroyed))
    decreases Nodes(g) - gone, 1
  {
    hide HeapOf, IsWorld, Clears, ClearedIn, WithRefs, RefsOf, Clearing, GcList.Distinct, Members, GraphOf;
    ghost var h, n := HeapOf(w), target.id;
    WorldLists(w, h, n);
    HeapAt(w, n);
    RefsWorld(w, h, n, target.refCount - 1, gone);
    NoneDestroyed();
    Sizes(WithRefs(h, n, target.refCount - 1), g, gone);
    DropOneUnfolds(g, n, Drops(RefsOf(h), gone));
    DecRef(target, w);
    ghost var h1 := HeapOf(w);
    assert gone + {} == gone;
    destroyed := [];
    if target.refCount <= 0 {
      destroyed := Clear(target, w, g, gone);
      ClearedChain(h, h1, HeapOf(w), gone, {}, Members(destroyed));
      assert {} + Members(destroyed) == Members(destroyed);
    }
  }

  lemma RefsWorld(w: seq<Node>, h: Heap, n: nat, c: int, gone: set<nat>)
    requires IsWorld(w, h) && n < |h|
    ensures IsWorld(w, WithRefs(h, n, c)) && |WithRefs(h, n, c)| == |h| == |RefsOf(h)|
    ensures RefsOf(WithRefs(h, n, c)) == RefsOf(h)[n := c] && RefsOf(h)[n] == h[n].refs
    ensures ClearedIn(h, WithRefs(h, n, c), gone, {})
  {
    assert RefsOf(WithRefs(h, n, c)) == RefsOf(h)[n := c];
  }

  lemma NoneDestroyed()
    ensures Members([]) == {} && GcList.Distinct<nat>([])
  {
  }

  lemma DropOneUnfolds(g: Graph, kid: nat, d: Drops)
    requires Closed(g) && kid < |g| == |d.counts|
    ensures var dropped := d.(counts := d.counts[kid := d.counts[kid] - 1]);
            DropOne(g, kid, d) == if dropped.counts[kid] <= 0 then Clearing(g, kid, dropped) else dropped
  {
  }

  lemma Sizes(h: Heap, g: Graph, gone: set<nat>)
    requires Clears(h, g, gone)
    ensures |RefsOf(h)| == |h| == |g|
  {
  }

  /** One turn of the loop of clear. */
  method DropMember(node: Node, i: nat, ghost w: seq<Node>, ghost g: Graph, ghost gone: set<nat>)
    returns (destroyed: seq<nat>)
    requires IsWorld(w, HeapOf(w)) && In(w, node) && Closed(g) && Clears(HeapOf(w), g, gone) && node.id in gone
    requires i < |node.members|
    requires var m, rest := node.members[i], Ids(Targets(node.members[i := EmptiedOne(node.members[i])]));
             Ids(Targets(node.members)) == if Holds(m) then rest + [m.target.id] else rest
    requires Holds(node.members[i]) ==> In(w, node.members[i].target)
    modifies w
    ensures node.members == old(node.members)[i := EmptiedOne(old(node.members[i]))]
    ensures IsWorld(w, HeapOf(w)) && Clears(HeapOf(w), g, gone + Members(destroyed))
    ensures ClearedIn(WithMembers(old(HeapOf(w)), node.id, node.members), HeapOf(w), gone, Members(destroyed))
    ensures Members(destroyed) !! gone && GcList.Distinct(destroyed)
    ensures |RefsOf(HeapOf(w))| == |g| == |old(RefsOf(HeapOf(w)))|
    ensures var d := Drops(old(RefsOf(HeapOf(w))), gone);
            Drops(RefsOf(HeapOf(w)), gone + Members(destroyed)) ==
              if Holds(old(node.members[i])) then DropOne(g, old(node.members[i]).target.id, d) else d
    decreases Nodes(g) - gone, 2
  {
    hide HeapOf, IsWorld, Clears, ClearedIn, WithRefs, WithMembers, RefsOf, Clearing, DropOne, GcList.Distinct, Members,
         GraphOf, Ids, Targets;
    ghost var h, n := HeapOf(w), node.id;
    var m := node.members[i];
    ghost var left := node.members[i := EmptiedOne(m)];
    HeapAt(w, n);
    WorldLists(w, h, n);
    NoneDestroyed();
    Sizes(h, g, gone);
    MembersWorld(w, h, n, i);
    assert gone + {} == gone;
    destroyed := [];
    if m.Reference? {
      SetMember(node, i, Reference(null), w);
    } else {
      assert left == node.members;
      SameMembers(h, n);
    }
    ghost var h1 := HeapOf(w);
    HeapAt(w, n);
    ClearedSelf(h1, gone);
    if Holds(m) {
      ghost var kid := m.target.id;
      ClearsDrop(h, g, gone, n, left, kid);
      ClearsHeld(h, g, gone, kid);
      OtherFields(h, n, left, kid);
      HeapAt(w, kid);
      destroyed := Recycle(m.target, w, g, gone);
      ClearedWorld(h1, HeapOf(w), gone, Members(destroyed), w);
      ClearedAt(h1, HeapOf(w), gone, Members(destroyed), n);
      HeapAt(w, n);
      Sizes(HeapOf(w), g, gone + Members(destroyed));
    } else {
      ClearsSkip(h, g, gone, n, left);
    }
  }

  lemma MembersWorld(w: seq<Node>, h: Heap, n: nat, i: nat)
    requires IsWorld(w, h) && n < |h| && i < |h[n].members|
    ensures var m := h[n].members[i := EmptiedOne(h[n].members[i])];
            IsWorld(w, WithMembers(h, n, m)) && WithMembers(h, n, m)[n].members == m
  {
    OneEmptied(h[n].members, i);
  }

  lemma OneEmptied(members: seq<Member>, i: nat)
    requires i < |members|
    ensures var before, after := Targets(members), Targets(members[i := EmptiedOne(members[i])]);
            |after| == |before| && forall k :: 0 <= k < |after| ==> after[k] == null || after[k] == before[k]
  {
    hide Targets;
    var x, y := [members[i]], [EmptiedOne(members[i])];
    assert members == members[..i] + x + members[i + 1..];
    assert members[i := EmptiedOne(members[i])] == members[..i] + y + members[i + 1..];
    TargetsConcat(members[..i] + x, members[i + 1..]);
    TargetsConcat(members[..i] + y, members[i + 1..]);
    TargetsAppend(members[..i], x[0]);
    TargetsAppend(members[..i], y[0]);
  }

  lemma SameMembers(h: Heap, n: nat)
    requires n < |h|
    ensures WithMembers(h, n, h[n].members) == h
  {
  }

  lemma ClearsHeld(h: Heap, g: Graph, gone: set<nat>, kid: nat)
    requires Clears(h, g, gone) && kid < |h| && h[kid].refs >= 1
    ensures kid in gone ==> h[kid].status != STATUS_NULL
  {
  }

  lemma OtherFields(h: Heap, n: nat, m: seq<Member>, kid: nat)
    requires n < |h| && kid < |h|
    ensures |WithMembers(h, n, m)| == |h| && WithMembers(h, n, m)[kid].refs == h[kid].refs
    ensures WithMembers(h, n, m)[kid].status == h[kid].status
    ensures RefsOf(WithMembers(h, n, m)) == RefsOf(h)
  {
    assert RefsOf(WithMembers(h, n, m)) == RefsOf(h);
  }

  lemma ClearedAt(before: Heap, after: Heap, gone: set<nat>, ended: set<nat>, n: nat)
    requires ClearedIn(before, after, gone, ended) && n < |before| && n !in ended
    ensures |after| == |before| && after[n].members == before[n].members
  {
  }

  /** The loop of clear over the members, from the last to the first. */
  method DropMembers(node: Node, ghost w: seq<Node>, ghost g: Graph, ghost gone: set<nat>) returns (destroyed: seq<nat>)
    requires IsWorld(w, HeapOf(w)) && In(w, node) && Closed(g) && Clears(HeapOf(w), g, gone)
    requires node.id in gone && GraphOf(HeapOf(w))[node.id] == g[node.id]
    modifies w
    ensures ClearedIn(WithMembers(old(HeapOf(w)), node.id, Emptied(old(node.members))), HeapOf(w), gone,
                      Members(destroyed))
    ensures Members(destroyed) !! gone && GcList.Distinct(destroyed)
    ensures Drops(RefsOf(HeapOf(w)), gone + Members(destroyed))
         == DropAll(g, g[node.id], Drops(old(RefsOf(HeapOf(w))), gone))
    ensures Clears(HeapOf(w), g, gone + Members(destroyed))
    decreases Nodes(g) - gone, 3
  {
    hide HeapOf, IsWorld, Clears, ClearedIn, WithRefs, WithMembers, RefsOf, Clearing, DropAll, DropOne, GcList.Distinct,
         Members, GraphOf, Ids, Targets, Emptied, Part;
    ghost var h, n, orig := HeapOf(w), node.id, node.members;
    HeapAt(w, n);
    WorldLists(w, h, n);
    NoneDestroyed();
    PartEnds(orig);
    DropStart(h, gone, n);
    Sizes(h, g, gone);
    KidsBelow(w, h, n, |orig|);
    assert orig[..|orig|] == orig && gone + {} == gone;
    destroyed := [];
    var i := |node.members|;
    while i > 0
      invariant 0 <= i <= |orig| && node.members == Part(orig, i)
      invariant IsWorld(w, HeapOf(w)) && Clears(HeapOf(w), g, gone + Members(destroyed))
      invariant ClearedIn(WithMembers(h, n, node.members), HeapOf(w), gone, Members(destroyed))
      invariant Members(destroyed) !! gone && GcList.Distinct(destroyed)
      invariant |RefsOf(HeapOf(w))| == |g|
      invariant (forall k :: 0 <= k < |Ids(Targets(orig[..i]))| ==> Ids(Targets(orig[..i]))[k] < |g|)
      invariant DropAll(g, Ids(Targets(orig[..i])), Drops(RefsOf(HeapOf(w)), gone + Members(destroyed)))
             == DropAll(g, g[n], Drops(RefsOf(h), gone))
    {
      i := i - 1;
      ghost var h1, begun := HeapOf(w), gone + Members(destroyed);
      PartIds(orig, i);
      PartIds(orig, i + 1);
      PartStep(orig, i);
      KidsBelow(w, h, n, i);
      TargetListed(w, h, n, i);
      var more := DropMember(node, i, w, g, begun);
      DropAllUnfolds(g, Ids(Targets(orig[..i])), orig[i], Drops(RefsOf(h1), begun));
      TwiceMembers(h, n, Part(orig, i + 1), Part(orig, i));
      assert n !in Members(destroyed);
      ClearedPart(WithMembers(h, n, Part(orig, i + 1)), h1, gone, Members(destroyed), n, Part(orig, i));
      ClearedChain(WithMembers(h, n, Part(orig, i)), WithMembers(h1, n, Part(orig, i)), HeapOf(w), gone,
                   Members(destroyed), Members(more));
      MembersConcat(destroyed, more);
      assert begun + Members(more) == gone + Members(destroyed + more);
      destroyed := destroyed + more;
    }
    DropEnds(g, Drops(RefsOf(HeapOf(w)), gone + Members(destroyed)));
  }

  lemma KidsBelow(w: seq<Node>, h: Heap, n: nat, i: nat)
    requires IsWorld(w, h) && n < |h| && i <= |h[n].members|
    ensures var kids := Ids(Targets(h[n].members[..i])); forall k :: 0 <= k < |kids| ==> kids[k] < |h|
  {
    TargetsPrefix(h[n].members, i);
    var targets := Targets(h[n].members[..i]);
    forall k | 0 <= k < |targets|
      ensures targets[k] == null || In(w, targets[k])
    {
      assert targets[k] == Targets(h[n].members)[k];
    }
    IdsInWorld(targets, w);
  }

  lemma TargetListed(w: seq<Node>, h: Heap, n: nat, i: nat)
    requires IsWorld(w, h) && n < |h| && i < |h[n].members|
    ensures Holds(h[n].members[i]) ==> In(w, h[n].members[i].target)
  {
    var members := h[n].members;
    TargetsPrefix(members, i + 1);
    TargetsAppend(members[..i], members[i]);
    assert members[..i + 1] == members[..i] + [members[i]];
    if Holds(members[i]) {
      assert Targets(members)[|Targets(members[..i])|] == members[i].target;
    }
  }

  lemma DropAllUnfolds(g: Graph, kids: seq<nat>, m: Member, d: Drops)
    requires Closed(g) && |d.counts| == |g| && (forall k :: 0 <= k < |kids| ==> kids[k] < |g|)
    requires Holds(m) ==> m.target.id < |g|
    ensures DropAll(g, if Holds(m) then kids + [m.target.id] else kids, d)
         == DropAll(g, kids, if Holds(m) then DropOne(g, m.target.id, d) else d)
  {
    if Holds(m) {
      assert (kids + [m.target.id])[..|kids|] == kids;
    }
  }

  lemma TwiceMembers(h: Heap, n: nat, a: seq<Member>, b: seq<Member>)
    requires n < |h|
    ensures WithMembers(WithMembers(h, n, a), n, b) == WithMembers(h, n, b) && |WithMembers(h, n, a)| == |h|
  {
  }

  lemma MembersConcat(a: seq<nat>, b: seq<nat>)
    requires GcList.Distinct(a) && GcList.Distinct(b) && Members(a) !! Members(b)
    ensures Members(a + b) == Members(a) + Members(b) && GcList.Distinct(a + b)
  {
    assert forall k :: 0 <= k < |b| ==> b[k] in Members(b);
    assert forall k :: 0 <= k < |a| ==> a[k] in Members(a);
  }

  lemma DropStart(h: Heap, gone: set<nat>, n: nat)
    requires n < |h|
    ensures ClearedIn(WithMembers(h, n, h[n].members), h, gone, {})
  {
  }

  lemma DropEnds(g: Graph, d: Drops)
    requires Closed(g) && |d.counts| == |g|
    ensures DropAll(g, [], d) == d
  {
  }

  // ---------------------------------------------------------------- try_collect

  /** The nodes in `gone` have lost their entries, and all nodes the references these held; the marks are as before. */
  ghost predicate Collected(before: Heap, after: Heap, gone: set<nat>) {
    && |after| == |before|
    && forall i :: 0 <= i < |after| ==>
         && after[i].members == (if i in gone then Emptied(before[i].members) else before[i].members)
         && after[i].refs == before[i].refs - Arcs(GraphOf(before), gone, i, |before|)
         && after[i].check == before[i].check
  }

  /** gc_type::try_collect. */
  method TryCollect(node: Node, ghost w: seq<Node>) returns (collected: bool, destroyed: seq<nat>)
    requires IsWorld(w, HeapOf(w)) && In(w, node) && Idle(HeapOf(w), node.id)
    requires Honest(GraphOf(HeapOf(w)), RefsOf(HeapOf(w)))
    modifies w
    ensures var h := old(HeapOf(w));
            (WorldClosed(w, h);
             && collected == (old(node.needCheck) && Collects(GraphOf(h), RefsOf(h), node.id))
             && Members(destroyed) == (if collected then Destroyed(GraphOf(h), RefsOf(h), node.id) else {}))
    ensures Collected(old(HeapOf(w)), HeapOf(w), Members(destroyed)) && GcList.Distinct(destroyed)
    ensures !collected ==> destroyed == []
    ensures IsWorld(w, HeapOf(w)) && (old(node.needCheck || AllNull(HeapOf(w))) ==> AllNull(HeapOf(w)))
  {
    hide HeapOf, IsWorld, Clears, ClearedIn, RefsOf, Clearing, Collects, GcList.Distinct, Members, GraphOf, SameNodes,
         AllNull, Idle, Honest, Collected, AgreeOff, MarksOf, ReachSet;
    ghost var h, n := HeapOf(w), node.id;
    ghost var g, refs := GraphOf(h), RefsOf(h);
    WorldClosed(w, h);
    NoneDestroyed();
    WorldLists(w, h, n);
    collected := Decide(node, w);
    ghost var h1 := HeapOf(w);
    SameWorld(w, h, h1);
    SameGraph(h, h1);
    destroyed := [];
    if collected {
      ClearsFirst(h1, g);
      HeapAt(w, n);
      destroyed := Clear(node, w, g, {});
      assert {} + Members(destroyed) == Members(destroyed);
      DestroyedLeast(g, refs, n);
      ClearedWorld(h1, HeapOf(w), {}, Members(destroyed), w);
      CollectedBy(h, h1, HeapOf(w), n, Members(destroyed));
    } else {
      NothingCollected(h, h1);
    }
  }

  lemma SameGraph(a: Heap, b: Heap)
    requires SameNodes(a, b)
    ensures GraphOf(b) == GraphOf(a) && RefsOf(b) == RefsOf(a) && ChecksOf(b) == ChecksOf(a)
  {
    assert ChecksOf(b) == ChecksOf(a);
  }

  lemma ClearsFirst(h: Heap, g: Graph)
    requires AllNull(h) && GraphOf(h) == g && Honest(g, RefsOf(h))
    ensures Clears(h, g, {})
  {
  }

  lemma CollectedBy(h: Heap, h1: Heap, h2: Heap, n: nat, gone: set<nat>)
    requires SameNodes(h, h1) && AllNull(h1) && ClearedIn(h1, h2, {}, gone)
    requires forall v: nat :: v < |h| && v < |RefsOf(h2)| ==>
               RefsOf(h2)[v] == RefsOf(h)[v] - Arcs(GraphOf(h), gone, v, |h|)
    ensures Collected(h, h2, gone) && AllNull(h2)
  {
    hide Arcs;
    forall i: nat | i < |h2|
      ensures h2[i].refs == h[i].refs - Arcs(GraphOf(h), gone, i, |h|)
    {
      RefsAt(h2, i);
      RefsAt(h, i);
      assert RefsOf(h2)[i] == RefsOf(h)[i] - Arcs(GraphOf(h), gone, i, |h|);
    }
  }

  lemma NothingCollected(h: Heap, h1: Heap)
    requires SameNodes(h, h1)
    ensures Collected(h, h1, {})
  {
    forall v: nat
      ensures Arcs(GraphOf(h), {}, v, |h|) == 0
    {
      ArcsNone(GraphOf(h), v, |h|);
    }
  }

  // ---------------------------------------------------------------- the sweep

  ghost function ChecksOf(h: Heap): (c: seq<bool>)
    ensures |c| == |h| && forall i :: 0 <= i < |h| ==> c[i] == h[i].check
  {
    seq(|h|, i requires 0 <= i < |h| => h[i].check)
  }

  ghost function StoreOf(h: Heap, list: Lap, gone: set<nat>): Store {
    Store(GraphOf(h), RefsOf(h), ChecksOf(h), list, gone)
  }

  lemma CollectedStore(h: Heap, h1: Heap, gone: set<nat>)
    requires Collected(h, h1, gone)
    ensures GraphOf(h1) == Without(GraphOf(h), gone) && RefsOf(h1) == Dropped(GraphOf(h), RefsOf(h), gone)
    ensures ChecksOf(h1) == ChecksOf(h)
  {
    hide Arcs;
    forall i | 0 <= i < |h|
      ensures GraphOf(h1)[i] == Without(GraphOf(h), gone)[i]
    {
      EmptiedTargets(h[i].members);
    }
    assert GraphOf(h1) == Without(GraphOf(h), gone);
    assert RefsOf(h1) == Dropped(GraphOf(h), RefsOf(h), gone);
    assert ChecksOf(h1) == ChecksOf(h);
  }

  function Length(list: Lap): nat { |list.pending| + |list.visited| }

  /**
    entlist::check_one_node. The work list is given by its lap, which GcList proves the linked list to keep; entries of
    destroyed nodes are deleted in the order of the destructors.
   */
  method CheckOneNode(w: seq<Node>, list: Lap, ghost gone: set<nat>)
    returns (collected: bool, left: Lap, ghost lost: set<nat>)
    requires IsWorld(w, HeapOf(w)) && AllNull(HeapOf(w)) && Honest(GraphOf(HeapOf(w)), RefsOf(HeapOf(w)))
    requires Sized(StoreOf(HeapOf(w), list, gone))
    requires Intact(GraphOf(HeapOf(w)), gone)
    modifies w
    ensures (StoreOf(HeapOf(w), left, lost), collected) == CheckOne(old(StoreOf(HeapOf(w), list, gone)))
    ensures IsWorld(w, HeapOf(w)) && AllNull(HeapOf(w))
  {
    hide HeapOf, IsWorld, RefsOf, Collects, GraphOf, AllNull, Honest, Sized, CheckOne, Collected, ChecksOf, Members,
         GcList.Distinct, Idle, Deleted, Destroyed, InList, GcList.Step, StoreOf, Intact;
    ghost var h := HeapOf(w);
    CheckSized(StoreOf(h, list, gone));
    StoreFields(h, list, gone);
    collected, left, lost := false, list, gone;
    if |list.pending| > 0 {
      var n := list.pending[0];
      FirstInWorld(w, h, list, gone);
      HeapAt(w, n);
      NullIdle(h, n);
      var destroyed;
      collected, destroyed := TryCollect(w[n], w);
      left := Deleted(GcList.Step(list, GcList.Operation.Get), destroyed);
      lost := gone + Members(destroyed);
      CheckOf(h, HeapOf(w), list, gone, collected, destroyed);
    }
  }

  lemma StoreFields(h: Heap, l: Lap, gone: set<nat>)
    ensures StoreOf(h, l, gone).lap == l
  {
  }

  /** gc::try_collect, specified as long as no reference leads to a destroyed node. */
  method Sweep(cnt: int, w: seq<Node>, list: Lap, ghost gone: set<nat>)
    returns (num: nat, left: Lap, ghost lost: set<nat>)
    requires IsWorld(w, HeapOf(w)) && AllNull(HeapOf(w)) && Honest(GraphOf(HeapOf(w)), RefsOf(HeapOf(w)))
    requires Sized(StoreOf(HeapOf(w), list, gone))
    requires NeverDangles(StoreOf(HeapOf(w), list, gone), if cnt < 0 then Length(list) else cnt)
    modifies w
    ensures (StoreOf(HeapOf(w), left, lost), num)
         == Checks(old(StoreOf(HeapOf(w), list, gone)), if cnt < 0 then Length(list) else cnt)
    ensures IsWorld(w, HeapOf(w)) && AllNull(HeapOf(w))
  {
    hide HeapOf, IsWorld, RefsOf, GraphOf, AllNull, Honest, Sized, CheckOne, ChecksOf, NeverDangles, Checks, Length,
         StoreOf, Intact;
    ghost var s := StoreOf(HeapOf(w), list, gone);
    var total := cnt;
    if cnt < 0 {
      total := Length(list);
    }
    num, left, lost := 0, list, gone;
    var i := 0;
    while i < total
      invariant 0 <= i <= total && IsWorld(w, HeapOf(w)) && AllNull(HeapOf(w))
      invariant Honest(GraphOf(HeapOf(w)), RefsOf(HeapOf(w))) && Sized(StoreOf(HeapOf(w), left, lost))
      invariant NeverDangles(StoreOf(HeapOf(w), left, lost), total - i)
      invariant Counted(s, total, StoreOf(HeapOf(w), left, lost), total - i, num)
    {
      CheckNext(s, total, HeapOf(w), left, lost, total - i, num);
      var collected;
      collected, left, lost := CheckOneNode(w, left, lost);
      StoreParts(HeapOf(w), left, lost);
      if collected {
        num := num + 1;
      }
      i := i + 1;
    }
    ChecksUnfold(StoreOf(HeapOf(w), left, lost), 0);
  }

  /** What is left to do leads to what is to be done in all. */
  ghost predicate Counted(s: Store, total: nat, now: Store, k: nat, num: nat)
    requires Sized(s) && Sized(now)
  {
    Checks(s, total) == (Checks(now, k).0, num + Checks(now, k).1)
  }

  lemma CheckNext(s: Store, total: nat, h: Heap, left: Lap, lost: set<nat>, k: nat, num: nat)
    requires Sized(s) && Sized(StoreOf(h, left, lost)) && Honest(GraphOf(h), RefsOf(h)) && k > 0
    requires NeverDangles(StoreOf(h, left, lost), k) && Counted(s, total, StoreOf(h, left, lost), k, num)
    ensures Intact(GraphOf(h), lost)
    ensures var (next, collected) := CheckOne(StoreOf(h, left, lost));
            && Sized(next) && Honest(next.g, next.refs) && NeverDangles(next, k - 1)
            && Counted(s, total, next, k - 1, num + if collected then 1 else 0)
  {
    hide CheckOne, Sized, Honest, Intact, GraphOf, RefsOf, ChecksOf;
    CheckSized(StoreOf(h, left, lost));
    CheckHonest(StoreOf(h, left, lost));
  }

  lemma StoreParts(h: Heap, left: Lap, lost: set<nat>)
    ensures StoreOf(h, left, lost).g == GraphOf(h) && StoreOf(h, left, lost).refs == RefsOf(h)
  {
  }

  lemma ChecksUnfold(s: Store, k: nat)
    requires Sized(s)
    ensures Checks(s, 0) == (s, 0)
    ensures k > 0 ==> var (next, collected) := CheckOne(s);
                      && Sized(next)
                      && var (end, num) := Checks(next, k - 1);
                         Checks(s, k) == (end, num + if collected then 1 else 0)
  {
  }

  /** The step of the heap is the step of the store. */
  lemma CheckOf(h: Heap, h1: Heap, l: Lap, gone: set<nat>, collected: bool, destroyed: seq<nat>)
    requires Sized(StoreOf(h, l, gone)) && l.pending != [] && InList(l, l.pending[0])
    requires Collected(h, h1, Members(destroyed))
    requires var n := l.pending[0];
             && collected == (h[n].check && Collects(GraphOf(h), RefsOf(h), n))
             && if collected then Members(destroyed) == Destroyed(GraphOf(h), RefsOf(h), n) else destroyed == []
    ensures var left := Deleted(GcList.Step(l, GcList.Operation.Get), destroyed);
            CheckOne(StoreOf(h, l, gone)) == (StoreOf(h1, left, gone + Members(destroyed)), collected)
  {
    hide Collects, Destroyed, Arcs, Unlisted, Deleted;
    CollectedStore(h, h1, Members(destroyed));
    DeletedUnlists(GcList.Step(l, GcList.Operation.Get), destroyed);
    if !collected {
      NothingLost(GraphOf(h), RefsOf(h), GcList.Step(l, GcList.Operation.Get));
      assert gone + {} == gone;
    }
  }

  lemma NothingLost(g: Graph, refs: seq<int>, l: Lap)
    requires |refs| == |g|
    ensures Without(g, {}) == g && Dropped(g, refs, {}) == refs && Deleted(l, []) == l && Members([]) == {}
  {
    forall v: nat | v < |g|
      ensures Arcs(g, {}, v, |g|) == 0
    {
      ArcsNone(g, v, |g|);
    }
    assert Without(g, {}) == g;
    assert Dropped(g, refs, {}) == refs;
  }

  lemma CheckSized(s: Store)
    requires Sized(s)
    ensures Sized(CheckOne(s).0) && (s.lap.pending == [] ==> CheckOne(s) == (s, false))
  {
  }

  lemma FirstInWorld(w: seq<Node>, h: Heap, l: Lap, gone: set<nat>)
    requires IsWorld(w, h) && Sized(StoreOf(h, l, gone)) && l.pending != []
    ensures l.pending[0] < |w| == |h| && In(w, w[l.pending[0]]) && w[l.pending[0]].id == l.pending[0]
    ensures InList(l, l.pending[0]) && Closed(GraphOf(h))
  {
    assert InList(l, l.pending[0]);
  }
}
