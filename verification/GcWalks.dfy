/**
  The collectable objects of zvm/zvm_gc.h and zvm/zvm_class.cpp as objects, with the recursive walks of
  zvm/zvm_gc.cpp as methods that update status, flag, counter and cursor in place. Each walk is proved against
  GcGraph. The ghost parameter `w` lists a set of nodes closed under references, by number; `path` holds the numbers
  of the nodes whose call is still running.
 */
module GcWalks {
  import opened Wrappers
  import opened GcGraph

  datatype Status = STATUS_NULL | STATUS_SIGN | STATUS_CHECK | STATUS_CLONE | STATUS_CLEAR | STATUS_RESET

  /** A member slot: a plain value, or an object that may hold a collectable entry. */
  datatype Member = Plain(value: int) | Reference(target: Node?)

  /** The entries of the object members, in order. */
  function Targets(members: seq<Member>): seq<Node?> {
    if members == [] then []
    else
      var last := members[|members| - 1];
      Targets(members[..|members| - 1]) + if last.Reference? then [last.target] else []
  }

  /** The numbers of the entries that are there. */
  function Ids(targets: seq<Node?>): seq<nat> {
    if targets == [] then []
    else
      var last := targets[|targets| - 1];
      Ids(targets[..|targets| - 1]) + (if last == null then [] else [last.id])
  }

  class Node {
    const id: nat
    var members: seq<Member>
    var cursor: nat
    var status: Status
    var flag: bool
    var loopCount: int
    var refCount: int
    var needCheck: bool

    constructor (id: nat)
      ensures this.id == id && members == [] && refCount == 1 && loopCount == 0 && !flag && status == STATUS_NULL
    {
      this.id := id;
      members, cursor, status, flag, loopCount, refCount, needCheck := [], 0, STATUS_NULL, false, 0, 1, false;
    }

    /** gc_type::set_status. */
    method SetStatus(s: Status, ghost w: seq<Node>)
      requires IsList(w) && In(w, this)
      modifies this`status
      ensures HeapOf(w) == WithStatus(old(HeapOf(w)), id, s)
    {
      hide HeapOf;
      HeapCells(w);
      status := s;
      HeapCells(w);
    }

    /** user_type::begin. */
    method Begin(ghost w: seq<Node>)
      requires IsList(w) && In(w, this)
      modifies this`cursor
      ensures cursor == 0 && HeapOf(w) == WithCursor(old(HeapOf(w)), id, 0)
    {
      hide HeapOf;
      HeapCells(w);
      cursor := 0;
      HeapCells(w);
    }

    /** user_type::get_refer_obj for a class without parent: the next object member at or after the cursor. */
    method GetReferObj(ghost w: seq<Node>) returns (r: Option<Node?>)
      requires IsList(w) && In(w, this) && cursor <= |members|
      modifies this`cursor
      ensures cursor <= |members| && HeapOf(w) == WithCursor(old(HeapOf(w)), id, cursor)
      ensures var targets, passed := Targets(members), old(Passed(members, cursor));
              && passed <= |targets|
              && (if passed < |targets| then r == Some(targets[passed]) && Passed(members, cursor) == passed + 1
                  else r == None)
    {
      hide HeapOf, Passed, Targets;
      HeapCells(w);
      cursor, r := NextReference(members, cursor);
      HeapCells(w);
    }
  }

  /** How many object members lie before a cursor. */
  function Passed(members: seq<Member>, cursor: nat): nat
    requires cursor <= |members|
  {
    |Targets(members[..cursor])|
  }

  /** The loop of get_refer_obj. */
  method NextReference(members: seq<Member>, start: nat) returns (cursor: nat, r: Option<Node?>)
    requires start <= |members|
    ensures start <= cursor <= |members| && Passed(members, start) <= |Targets(members)|
    ensures if Passed(members, start) < |Targets(members)|
            then r == Some(Targets(members)[Passed(members, start)])
                 && Passed(members, cursor) == Passed(members, start) + 1
            else r == None
  {
    cursor := start;
    while cursor < |members|
      invariant start <= cursor <= |members|
      invariant Targets(members[..cursor]) == Targets(members[..start])
    {
      var m := members[cursor];
      TargetsAppend(members[..cursor], m);
      assert members[..cursor] + [m] == members[..cursor + 1];
      cursor := cursor + 1;
      if m.Reference? {
        TargetsPrefix(members, cursor);
        return cursor, Some(m.target);
      }
    }
    assert members[..cursor] == members;
    return cursor, None;
  }

  lemma TargetsAppend(members: seq<Member>, m: Member)
    ensures Targets(members + [m]) == Targets(members) + if m.Reference? then [m.target] else []
  {
    assert (members + [m])[..|members|] == members;
  }

  lemma {:induction false} TargetsPrefix(members: seq<Member>, k: nat)
    requires k <= |members|
    ensures Targets(members[..k]) <= Targets(members)
  {
    if k == |members| {
      assert members[..k] == members;
    } else {
      TargetsPrefix(members[..|members| - 1], k);
      assert members[..|members| - 1][..k] == members[..k];
    }
  }

  // ---------------------------------------------------------------- the heap as values

  /** The fields of one node. */
  datatype Cell = Cell(members: seq<Member>, cursor: nat, status: Status, flag: bool, count: int, refs: int,
                       check: bool)

  ghost function CellOf(n: Node): Cell
    reads n
  {
    Cell(n.members, n.cursor, n.status, n.flag, n.loopCount, n.refCount, n.needCheck)
  }

  type Heap = seq<Cell>

  ghost function HeapOf(w: seq<Node>): (h: Heap)
    reads w
    ensures |h| == |w|
  {
    if w == [] then [] else HeapOf(w[..|w| - 1]) + [CellOf(w[|w| - 1])]
  }

  lemma {:induction false} HeapAt(w: seq<Node>, i: nat)
    requires i < |w|
    ensures HeapOf(w)[i] == CellOf(w[i])
  {
    if i < |w| - 1 {
      HeapAt(w[..|w| - 1], i);
    }
  }

  lemma HeapCells(w: seq<Node>)
    ensures forall i :: 0 <= i < |w| ==> HeapOf(w)[i] == CellOf(w[i])
  {
    forall i | 0 <= i < |w|
      ensures HeapOf(w)[i] == CellOf(w[i])
    {
      HeapAt(w, i);
    }
  }

  /** `w` lists nodes at their own numbers. */
  ghost predicate IsList(w: seq<Node>) { forall i :: 0 <= i < |w| ==> w[i].id == i }

  ghost predicate In(w: seq<Node>, node: Node) { node.id < |w| && w[node.id] == node }

  /** Nothing refers to a node outside `w`. */
  ghost predicate IsWorld(w: seq<Node>, h: Heap) {
    && IsList(w) && |h| == |w|
    && forall i, k :: 0 <= i < |h| && 0 <= k < |Targets(h[i].members)| ==>
         var t := Targets(h[i].members)[k]; t == null || In(w, t)
  }

  ghost function GraphOf(h: Heap): (g: Graph)
    ensures |g| == |h| && forall i :: 0 <= i < |h| ==> g[i] == Ids(Targets(h[i].members))
  {
    seq(|h|, i requires 0 <= i < |h| => Ids(Targets(h[i].members)))
  }

  ghost function MarksOf(h: Heap): (m: Marks)
    ensures |m.flag| == |m.count| == |h|
    ensures forall i :: 0 <= i < |h| ==> m.flag[i] == h[i].flag && m.count[i] == h[i].count
  {
    Marks(seq(|h|, i requires 0 <= i < |h| => h[i].flag), seq(|h|, i requires 0 <= i < |h| => h[i].count))
  }

  ghost function RefsOf(h: Heap): (refs: seq<int>)
    ensures |refs| == |h|
  {
    seq(|h|, i requires 0 <= i < |h| => h[i].refs)
  }

  /** Members, reference counts and need-check marks are the same. */
  ghost predicate SameNodes(before: Heap, after: Heap) {
    && |after| == |before|
    && forall i :: 0 <= i < |after| ==>
         && after[i].members == before[i].members && after[i].refs == before[i].refs
         && after[i].check == before[i].check
  }

  ghost predicate AllNull(h: Heap) { forall i :: 0 <= i < |h| ==> h[i].status == STATUS_NULL }

  /** Exactly the nodes of the path carry `mark`, all others STATUS_NULL. */
  ghost predicate PathMarked(h: Heap, path: set<nat>, mark: Status) {
    forall i :: 0 <= i < |h| ==> h[i].status == if i in path then mark else STATUS_NULL
  }

  /** What every walk keeps: members, reference counts, need-check marks, and the cursors of the nodes on the path. */
  ghost predicate Keeps(before: Heap, after: Heap, path: set<nat>) {
    && |after| == |before|
    && forall i :: 0 <= i < |after| ==>
         && after[i].members == before[i].members && after[i].refs == before[i].refs
         && after[i].check == before[i].check
         && (i in path ==> after[i].cursor == before[i].cursor)
  }

  lemma KeepsWorld(before: Heap, after: Heap, path: set<nat>, w: seq<Node>)
    requires Keeps(before, after, path) && IsWorld(w, before)
    ensures IsWorld(w, after) && GraphOf(after) == GraphOf(before)
  {
  }

  function WithStatus(h: Heap, n: nat, s: Status): Heap
    requires n < |h|
  {
    h[n := h[n].(status := s)]
  }

  function WithCursor(h: Heap, n: nat, c: nat): Heap
    requires n < |h|
  {
    h[n := h[n].(cursor := c)]
  }

  lemma SameMarks(h: Heap, n: nat, s: Status, c: nat)
    requires n < |h|
    ensures MarksOf(WithStatus(h, n, s)) == MarksOf(h) && GraphOf(WithStatus(h, n, s)) == GraphOf(h)
    ensures MarksOf(WithCursor(h, n, c)) == MarksOf(h) && GraphOf(WithCursor(h, n, c)) == GraphOf(h)
  {
  }

  lemma IdsInWorld(targets: seq<Node?>, w: seq<Node>)
    requires IsList(w) && forall k :: 0 <= k < |targets| ==> targets[k] == null || In(w, targets[k])
    ensures forall k :: 0 <= k < |Ids(targets)| ==> Ids(targets)[k] < |w|
  {
    if targets != [] {
      IdsInWorld(targets[..|targets| - 1], w);
    }
  }

  lemma WorldClosed(w: seq<Node>, h: Heap)
    requires IsWorld(w, h)
    ensures Closed(GraphOf(h))
  {
    var g := GraphOf(h);
    forall n, k | 0 <= n < |g| && 0 <= k < |g[n]|
      ensures g[n][k] < |g|
    {
      IdsInWorld(Targets(h[n].members), w);
    }
  }

  lemma IdsAppend(done: seq<Node?>, t: Node?)
    ensures Ids(done + [t]) == if t == null then Ids(done) else Ids(done) + [t.id]
  {
    assert (done + [t])[..|done|] == done;
    assert Ids(done) + [] == Ids(done);
  }

  // ---------------------------------------------------------------- find_loop

  lemma WalkUnfolds(g: Graph, e: nat, n: nat, s: set<nat>, first: bool, m: Marks)
    requires Closed(g) && Fits(g, m) && n < |g|
    ensures n in s ==> Walk(g, e, n, s, first, m) == (n == e, Arrive(m, n, n == e, first))
    ensures n !in s ==> var r := WalkAll(g, e, g[n], s + {n}, m);
                        Walk(g, e, n, s, first, m) == (r.0, Arrive(r.1, n, r.0, first))
  {
  }

  lemma WalkAllAppend(g: Graph, e: nat, kids: seq<nat>, kid: nat, s: set<nat>, m: Marks)
    requires Closed(g) && Fits(g, m) && kid < |g| && forall k :: 0 <= k < |kids| ==> kids[k] < |g|
    ensures var r := WalkAll(g, e, kids, s, m);
            var t := Walk(g, e, kid, s, false, r.1);
            WalkAll(g, e, kids + [kid], s, m) == (r.0 || t.0, t.1)
  {
    assert (kids + [kid])[..|kids|] == kids;
  }

  lemma NothingFollowed(g: Graph, e: nat, s: set<nat>, m: Marks)
    requires Closed(g) && Fits(g, m)
    ensures Ids([]) == [] && WalkAll(g, e, [], s, m) == (false, m)
  {
  }

  lemma KeepsUpdate(before: Heap, after: Heap, path: set<nat>, n: nat, s: Status, c: nat)
    requires Keeps(before, after, path) && n < |after|
    ensures Keeps(before, WithStatus(after, n, s), path)
    ensures n !in path ==> Keeps(before, WithCursor(after, n, c), path)
  {
  }

  lemma KeepsChain(before: Heap, middle: Heap, after: Heap, path: set<nat>, longer: set<nat>)
    requires Keeps(before, middle, path) && Keeps(middle, after, longer) && path <= longer
    ensures Keeps(before, after, path)
  {
  }

  lemma PathUpdate(h: Heap, path: set<nat>, mark: Status, n: nat, c: nat)
    requires PathMarked(h, path, mark) && n < |h| && mark != STATUS_NULL
    ensures PathMarked(WithCursor(h, n, c), path, mark)
    ensures PathMarked(WithStatus(h, n, mark), path + {n}, mark)
    ensures PathMarked(WithStatus(h, n, STATUS_NULL), path - {n}, mark)
    ensures h[n].status == mark <==> n in path
  {
  }

  /** gc_type::find_loop. */
  method FindLoop(node: Node, e: Node, first: bool, ghost w: seq<Node>, ghost path: set<nat>) returns (ret: bool)
    requires IsWorld(w, HeapOf(w)) && In(w, node) && In(w, e)
    requires PathMarked(HeapOf(w), path, STATUS_SIGN)
    modifies w
    ensures Keeps(old(HeapOf(w)), HeapOf(w), path) && PathMarked(HeapOf(w), path, STATUS_SIGN)
    ensures var h := old(HeapOf(w));
            (WorldClosed(w, h);
             (ret, MarksOf(HeapOf(w))) == Walk(GraphOf(h), e.id, node.id, path, first, MarksOf(h)))
    decreases Nodes(GraphOf(HeapOf(w))) - path, 0
  {
    hide Walk, WalkAll, GraphOf, MarksOf, HeapOf, Arrive, Keeps, PathMarked, WithStatus;
    ghost var h := HeapOf(w);
    ghost var n, g, m := node.id, GraphOf(h), MarksOf(h);
    WorldClosed(w, h);
    WalkUnfolds(g, e.id, n, path, first, m);
    WorldLists(w, h, n);
    HeapAt(w, n);
    KeepsSelf(h, path);
    PathUpdate(h, path, STATUS_SIGN, n, 0);
    ret := false;
    if node.status == STATUS_SIGN {
      ret := node == e;
    } else {
      node.SetStatus(STATUS_SIGN, w);
      SameMarks(h, n, STATUS_SIGN, 0);
      KeepsUpdate(h, h, path, n, STATUS_SIGN, 0);
      KeepsWorld(h, HeapOf(w), path, w);
      ghost var h1 := HeapOf(w);
      ret := FollowAll(node, e, w, path + {n});
      assert path + {n} - {n} == path;
      ghost var h2 := HeapOf(w);
      KeepsChain(h, h1, h2, path, path);
      KeepsUpdate(h, h2, path, n, STATUS_NULL, 0);
      PathUpdate(h2, path + {n}, STATUS_SIGN, n, 0);
      SameMarks(h2, n, STATUS_NULL, 0);
      node.SetStatus(STATUS_NULL, w);
    }
    ghost var h3 := HeapOf(w);
    Mark(node, ret, first, w);
    MarksOnly(h, h3, HeapOf(w), path, STATUS_SIGN);
  }

  lemma KeepsSelf(h: Heap, path: set<nat>)
    ensures Keeps(h, h, path)
  {
  }

  lemma MarksOnly(before: Heap, middle: Heap, after: Heap, path: set<nat>, mark: Status)
    requires Keeps(before, middle, path) && PathMarked(middle, path, mark)
    requires OnlyMarksDiffer(middle, after)
    ensures Keeps(before, after, path) && PathMarked(after, path, mark)
  {
  }

  /** The loop of find_loop over the references of a signed node; all of them are followed. */
  method FollowAll(node: Node, e: Node, ghost w: seq<Node>, ghost path: set<nat>) returns (ret: bool)
    requires IsWorld(w, HeapOf(w)) && In(w, node) && In(w, e)
    requires PathMarked(HeapOf(w), path, STATUS_SIGN) && node.id in path
    modifies w
    ensures Keeps(old(HeapOf(w)), HeapOf(w), path - {node.id}) && PathMarked(HeapOf(w), path, STATUS_SIGN)
    ensures var h := old(HeapOf(w));
            (WorldClosed(w, h);
             (ret, MarksOf(HeapOf(w))) == WalkAll(GraphOf(h), e.id, GraphOf(h)[node.id], path, MarksOf(h)))
    decreases Nodes(GraphOf(HeapOf(w))) - path, 1
  {
    hide Walk, WalkAll, Ids, Targets, GraphOf, MarksOf, HeapOf, Arrive, Passed, IsWorld, Keeps, PathMarked, WithCursor;
    ghost var h := HeapOf(w);
    ghost var n, g, m := node.id, GraphOf(h), MarksOf(h);
    HeapAt(w, n);
    ghost var targets := Targets(h[n].members);
    ghost var kids: seq<nat>, k := [], 0;
    ret := false;
    WorldClosed(w, h);
    NothingFollowed(g, e.id, path, m);
    WorldLists(w, h, n);
    KeepsSelf(h, path - {n});
    node.Begin(w);
    CursorMoved(w, h, h, path - {n}, path, n, 0);
    ghost var h1 := HeapOf(w);
    var r := node.GetReferObj(w);
    CursorMoved(w, h, h1, path - {n}, path, n, node.cursor);
    while r.Some?
      invariant Keeps(h, HeapOf(w), path - {n}) && PathMarked(HeapOf(w), path, STATUS_SIGN)
      invariant node.members == h[n].members && node.cursor <= |node.members|
      invariant k <= |targets| && kids == Ids(targets[..k]) && forall j :: 0 <= j < |kids| ==> kids[j] < |w|
      invariant if k < |targets| then r == Some(targets[k]) && Passed(h[n].members, node.cursor) == k + 1 else r == None
      invariant ret == WalkAll(g, e.id, kids, path, m).0
      invariant MarksOf(HeapOf(w)) == WalkAll(g, e.id, kids, path, m).1
      decreases |targets| - k
    {
      var t := false;
      KidsAppend(targets, k, kids);
      if r.value != null {
        TargetInWorld(w, h, n, k);
        WalkAllAppend(g, e.id, kids, r.value.id, path, m);
        ghost var h2 := HeapOf(w);
        KeepsWorld(h, h2, path - {n}, w);
        HeapAt(w, n);
        t := FindLoop(r.value, e, false, w, path);
        HeapAt(w, n);
        KeepsAt(h2, HeapOf(w), path, n);
        KeepsChain(h, h2, HeapOf(w), path - {n}, path);
        kids := kids + [r.value.id];
      }
      ret := ret || t;
      k := k + 1;
      ghost var h3 := HeapOf(w);
      r := node.GetReferObj(w);
      CursorMoved(w, h, h3, path - {n}, path, n, node.cursor);
    }
    assert targets[..k] == targets;
  }

  lemma KeepsAt(before: Heap, after: Heap, path: set<nat>, n: nat)
    requires Keeps(before, after, path) && n in path && n < |before|
    ensures |after| == |before| && after[n].members == before[n].members && after[n].cursor == before[n].cursor
  {
  }

  /** Moving the cursor of a node that is not among the kept ones. */
  lemma CursorMoved(w: seq<Node>, h: Heap, before: Heap, kept: set<nat>, path: set<nat>, n: nat, c: nat)
    requires n !in kept && n < |before| && Keeps(h, before, kept) && PathMarked(before, path, STATUS_SIGN)
    ensures var after := WithCursor(before, n, c);
            && Keeps(h, after, kept) && PathMarked(after, path, STATUS_SIGN) && MarksOf(after) == MarksOf(before)
  {
    SameMarks(before, n, STATUS_NULL, c);
  }

  lemma KidsAppend(targets: seq<Node?>, k: nat, kids: seq<nat>)
    requires k < |targets| && kids == Ids(targets[..k])
    ensures Ids(targets[..k + 1]) == if targets[k] == null then kids else kids + [targets[k].id]
  {
    assert targets[..k + 1] == targets[..k] + [targets[k]];
    IdsAppend(targets[..k], targets[k]);
  }

  lemma WorldLists(w: seq<Node>, h: Heap, n: nat)
    requires IsWorld(w, h) && n < |h|
    ensures IsList(w) && |h| == |w| && GraphOf(h)[n] == Ids(Targets(h[n].members))
    ensures Ids(Targets(h[n].members)[..0]) == [] && Passed(h[n].members, 0) == 0
  {
  }

  lemma TargetInWorld(w: seq<Node>, h: Heap, n: nat, k: nat)
    requires IsWorld(w, h) && n < |h| && k < |Targets(h[n].members)|
    ensures var targets := Targets(h[n].members);
            && (targets[k] == null || In(w, targets[k]))
            && forall j :: 0 <= j < |Ids(targets[..k])| ==> Ids(targets[..k])[j] < |w|
  {
    IdsInWorld(Targets(h[n].members)[..k], w);
  }

  ghost predicate OnlyMarksDiffer(before: Heap, after: Heap) {
    && |after| == |before|
    && forall i :: 0 <= i < |after| ==> after[i] == before[i].(flag := after[i].flag, count := after[i].count)
  }

  /** The exit of find_loop: the flag, then the counter. */
  method Mark(node: Node, ret: bool, first: bool, ghost w: seq<Node>)
    requires IsList(w) && In(w, node)
    modifies node`flag, node`loopCount
    ensures MarksOf(HeapOf(w)) == Arrive(old(MarksOf(HeapOf(w))), node.id, ret, first)
    ensures OnlyMarksDiffer(old(HeapOf(w)), HeapOf(w))
  {
    hide HeapOf;
    HeapCells(w);
    if ret {
      node.flag := true;
    }
    if !first && node.flag {
      node.loopCount := node.loopCount + 1;
    }
    HeapCells(w);
  }

  // ---------------------------------------------------------------- reset

  /** The nodes reset visits from several nodes. */
  ghost function ReachSetAll(g: Graph, s: set<nat>, kids: seq<nat>): set<nat> {
    if kids == [] then {}
    else ReachSetAll(g, s, kids[..|kids| - 1]) + ReachSet(g, s, kids[|kids| - 1])
  }

  lemma {:induction false} ReachSetAllMember(g: Graph, s: set<nat>, kids: seq<nat>, v: nat)
    ensures v in ReachSetAll(g, s, kids) <==> v < |g| && exists kid :: kid in kids && Reaches(g, s, kid, v)
  {
    if kids != [] {
      var last := |kids| - 1;
      ReachSetAllMember(g, s, kids[..last], v);
      assert forall kid :: kid in kids <==> kid in kids[..last] || kid == kids[last];
    }
  }

  lemma ReachSetStep(g: Graph, s: set<nat>, n: nat)
    requires n < |g|
    ensures n in s ==> ReachSet(g, s, n) == {}
    ensures n !in s ==> ReachSet(g, s, n) == {n} + ReachSetAll(g, s + {n}, g[n])
  {
    hide ReachSetAll;
    if n !in s {
      forall v: nat
        ensures v in ReachSet(g, s, n) <==> v in {n} + ReachSetAll(g, s + {n}, g[n])
      {
        ReachesStep(g, s, n, v);
        ReachSetAllMember(g, s + {n}, g[n], v);
      }
    }
  }

  lemma ReachSetAllAppend(g: Graph, s: set<nat>, kids: seq<nat>, kid: nat)
    ensures ReachSetAll(g, s, kids + [kid]) == ReachSetAll(g, s, kids) + ReachSet(g, s, kid)
  {
    assert (kids + [kid])[..|kids|] == kids;
  }

  lemma ReachSetAvoids(g: Graph, s: set<nat>, kids: seq<nat>)
    ensures ReachSetAll(g, s, kids) !! s
  {
    forall v: nat | v in s
      ensures v !in ReachSetAll(g, s, kids)
    {
      ReachSetAllMember(g, s, kids, v);
    }
  }

  /** Exactly the nodes of `path` carry STATUS_RESET. */
  ghost predicate ResetMarked(h: Heap, path: set<nat>) {
    forall i :: 0 <= i < |h| ==> (h[i].status == STATUS_RESET <==> i in path)
  }

  /** The nodes in `hit` are back to their initial marks, the cursors in `moved` may have moved, and that is all. */
  ghost predicate ResetIn(before: Heap, after: Heap, hit: set<nat>, moved: set<nat>) {
    && |after| == |before|
    && forall i :: 0 <= i < |after| ==>
         if i in hit then
           after[i] == before[i].(status := STATUS_NULL, flag := false, count := 0, cursor := after[i].cursor)
         else
           after[i] == before[i].(cursor := if i in moved then after[i].cursor else before[i].cursor)
  }

  lemma ResetInWorld(before: Heap, after: Heap, hit: set<nat>, moved: set<nat>, path: set<nat>, w: seq<Node>)
    requires ResetIn(before, after, hit, moved) && IsWorld(w, before) && ResetMarked(before, path) && hit !! path
    ensures IsWorld(w, after) && GraphOf(after) == GraphOf(before) && ResetMarked(after, path)
  {
  }

  lemma ResetInChain(before: Heap, middle: Heap, after: Heap, hit1: set<nat>, hit2: set<nat>, moved: set<nat>)
    requires ResetIn(before, middle, hit1, moved) && ResetIn(middle, after, hit2, {})
    ensures ResetIn(before, after, hit1 + hit2, moved)
  {
  }

  lemma ResetInCursor(before: Heap, middle: Heap, hit: set<nat>, n: nat, c: nat, path: set<nat>)
    requires ResetIn(before, middle, hit, {n}) && n < |middle| && ResetMarked(middle, path) && n !in hit
    ensures ResetIn(before, WithCursor(middle, n, c), hit, {n}) && ResetMarked(WithCursor(middle, n, c), path)
  {
  }

  lemma ResetInSelf(h: Heap, moved: set<nat>)
    ensures ResetIn(h, h, {}, moved)
  {
  }

  /** The status reset leaves the node with while it follows the references. */
  function Entered(h: Heap, n: nat): Heap
    requires n < |h|
  {
    h[n := h[n].(status := STATUS_RESET, flag := false, count := 0)]
  }

  lemma ResetInEnds(h: Heap, middle: Heap, n: nat, path: set<nat>, hit: set<nat>)
    requires n < |h| && ResetMarked(h, path) && n !in path
    ensures ResetMarked(Entered(h, n), path + {n})
    ensures ResetIn(Entered(h, n), middle, hit, {n}) && n !in hit ==>
              ResetIn(h, WithStatus(middle, n, STATUS_NULL), {n} + hit, {})
  {
  }

  method Enter(node: Node, ghost w: seq<Node>)
    requires IsList(w) && In(w, node)
    modifies node`status, node`flag, node`loopCount
    ensures HeapOf(w) == Entered(old(HeapOf(w)), node.id)
  {
    hide HeapOf;
    HeapCells(w);
    node.status := STATUS_RESET;
    node.flag := false;
    node.loopCount := 0;
    HeapCells(w);
  }

  /**
    gc_type::reset. `path` holds the nodes that carry STATUS_RESET on entry, apart from a forced one; exactly the
    nodes reachable without passing them are reset.
   */
  method Reset(node: Node, force: bool, ghost w: seq<Node>, ghost path: set<nat>) returns (ret: bool)
    requires IsWorld(w, HeapOf(w)) && In(w, node)
    requires ResetMarked(if force then WithStatus(HeapOf(w), node.id, STATUS_NULL) else HeapOf(w), path)
    modifies w
    ensures ret
    ensures ResetIn(old(HeapOf(w)), HeapOf(w), ReachSet(old(GraphOf(HeapOf(w))), path, node.id), {})
    decreases Nodes(GraphOf(HeapOf(w))) - path, 0
  {
    hide ReachSet, ReachSetAll, GraphOf, HeapOf, IsWorld, ResetIn, ResetMarked, WithStatus, Entered, Keeps;
    ghost var h := HeapOf(w);
    ghost var n, g, hit := node.id, GraphOf(h), ReachSet(GraphOf(h), path, node.id);
    WorldLists(w, h, n);
    ReachSetStep(g, path, n);
    ForcedWorld(w, h, n);
    ResetInSelf(h, {});
    if force {
      node.SetStatus(STATUS_NULL, w);
    }
    ghost var h0 := HeapOf(w);
    HeapAt(w, n);
    ResetMarkedAt(h0, path, n);
    if node.status == STATUS_RESET {
      return true;
    }
    Enter(node, w);
    ghost var h1 := HeapOf(w);
    ResetInEnds(h0, h1, n, path, {});
    EnteredWorld(w, h0, n);
    ResetAll(node, w, path + {n});
    ghost var h2 := HeapOf(w);
    ghost var below := ReachSetAll(g, path + {n}, g[n]);
    ReachSetAvoids(g, path + {n}, g[n]);
    ResetInEnds(h0, h2, n, path, below);
    node.SetStatus(STATUS_NULL, w);
    if force {
      ForcedReset(h, HeapOf(w), hit, n);
    }
    ret := true;
  }

  lemma ForcedWorld(w: seq<Node>, h: Heap, n: nat)
    requires IsWorld(w, h) && n < |h|
    ensures IsWorld(w, WithStatus(h, n, STATUS_NULL)) && GraphOf(WithStatus(h, n, STATUS_NULL)) == GraphOf(h)
    ensures WithStatus(h, n, STATUS_NULL)[n].status == STATUS_NULL
  {
  }

  lemma EnteredWorld(w: seq<Node>, h: Heap, n: nat)
    requires IsWorld(w, h) && n < |h|
    ensures IsWorld(w, Entered(h, n)) && GraphOf(Entered(h, n)) == GraphOf(h)
  {
  }

  lemma ResetMarkedAt(h: Heap, path: set<nat>, n: nat)
    requires ResetMarked(h, path) && n < |h|
    ensures h[n].status == STATUS_RESET <==> n in path
  {
  }

  /** A forced node is reset, whatever status it had. */
  lemma ForcedReset(h: Heap, after: Heap, hit: set<nat>, n: nat)
    requires n < |h| && n in hit && ResetIn(WithStatus(h, n, STATUS_NULL), after, hit, {})
    ensures ResetIn(h, after, hit, {})
  {
  }

  /** The loop of reset. */
  method ResetAll(node: Node, ghost w: seq<Node>, ghost path: set<nat>)
    requires IsWorld(w, HeapOf(w)) && In(w, node)
    requires ResetMarked(HeapOf(w), path) && node.id in path
    modifies w
    ensures ResetIn(old(HeapOf(w)), HeapOf(w),
                    ReachSetAll(old(GraphOf(HeapOf(w))), path, old(GraphOf(HeapOf(w)))[node.id]), {node.id})
    decreases Nodes(GraphOf(HeapOf(w))) - path, 1
  {
    hide ReachSet, ReachSetAll, Ids, Targets, GraphOf, HeapOf, Passed, IsWorld, ResetIn, ResetMarked, WithCursor;
    ghost var h := HeapOf(w);
    ghost var n, g := node.id, GraphOf(h);
    HeapAt(w, n);
    ghost var targets := Targets(h[n].members);
    ghost var kids: seq<nat>, k := [], 0;
    ghost var hit := {};
    NothingReset(g, path);
    WorldLists(w, h, n);
    ResetInSelf(h, {n});
    node.Begin(w);
    ResetInCursor(h, h, hit, n, 0, path);
    ghost var h1 := HeapOf(w);
    var r := node.GetReferObj(w);
    ResetInCursor(h, h1, hit, n, node.cursor, path);
    while r.Some?
      invariant ResetIn(h, HeapOf(w), hit, {n}) && ResetMarked(HeapOf(w), path)
      invariant hit == ReachSetAll(g, path, kids) && hit !! path
      invariant node.members == h[n].members && node.cursor <= |node.members|
      invariant k <= |targets| && kids == Ids(targets[..k]) && forall j :: 0 <= j < |kids| ==> kids[j] < |w|
      invariant if k < |targets| then r == Some(targets[k]) && Passed(h[n].members, node.cursor) == k + 1 else r == None
      decreases |targets| - k
    {
      KidsAppend(targets, k, kids);
      if r.value != null {
        TargetInWorld(w, h, n, k);
        ReachSetAllAppend(g, path, kids, r.value.id);
        ghost var h2 := HeapOf(w);
        ResetInWorld(h, h2, hit, {n}, path, w);
        HeapAt(w, n);
        var done := Reset(r.value, false, w, path);
        HeapAt(w, n);
        ghost var more := ReachSet(g, path, r.value.id);
        kids := kids + [r.value.id];
        ReachSetAvoids(g, path, kids);
        ResetInAt(h2, HeapOf(w), more, n);
        ResetInChain(h, h2, HeapOf(w), hit, more, {n});
        hit := hit + more;
        ResetInWorld(h, HeapOf(w), hit, {n}, path, w);
      }
      k := k + 1;
      ghost var h3 := HeapOf(w);
      r := node.GetReferObj(w);
      ResetInCursor(h, h3, hit, n, node.cursor, path);
    }
    assert targets[..k] == targets;
  }

  lemma NothingReset(g: Graph, path: set<nat>)
    ensures Ids([]) == [] && ReachSetAll(g, path, []) == {}
  {
  }

  lemma ResetInAt(before: Heap, after: Heap, hit: set<nat>, n: nat)
    requires ResetIn(before, after, hit, {}) && n !in hit && n < |before|
    ensures |after| == |before| && after[n] == before[n]
  {
  }

  // ---------------------------------------------------------------- check_live

  /** What check_live keeps while it runs: the nodes of the path are flagged, and none of them is outside. */
  ghost predicate Checking(h: Heap, path: set<nat>) {
    && PathMarked(h, path, STATUS_CHECK)
    && forall i :: 0 <= i < |h| && i in path ==> h[i].flag && h[i].count >= h[i].refs
  }

  /** Some node of `kids` is live. */
  ghost predicate AnyLive(g: Graph, m: Marks, refs: seq<int>, s: set<nat>, kids: seq<nat>) {
    exists kid :: kid in kids && Live(g, m, refs, s, kid)
  }

  lemma AnyLiveAppend(g: Graph, m: Marks, refs: seq<int>, s: set<nat>, kids: seq<nat>, kid: nat)
    ensures AnyLive(g, m, refs, s, kids + [kid]) <==> AnyLive(g, m, refs, s, kids) || Live(g, m, refs, s, kid)
  {
    if Live(g, m, refs, s, kid) {
      assert kid in kids + [kid];
    }
    forall k | k in kids && Live(g, m, refs, s, k)
      ensures k in kids + [kid]
    {
    }
  }

  lemma AnyLivePrefix(g: Graph, m: Marks, refs: seq<int>, s: set<nat>, kids: seq<nat>, all: seq<nat>)
    requires kids <= all && AnyLive(g, m, refs, s, kids)
    ensures AnyLive(g, m, refs, s, all)
  {
    var kid :| kid in kids && Live(g, m, refs, s, kid);
    assert kid in all;
  }

  lemma {:induction false} IdsPrefix(targets: seq<Node?>, k: nat)
    requires k <= |targets|
    ensures Ids(targets[..k]) <= Ids(targets)
  {
    if k == |targets| {
      assert targets[..k] == targets;
    } else {
      IdsPrefix(targets[..|targets| - 1], k);
      assert targets[..|targets| - 1][..k] == targets[..k];
    }
  }

  /** The tests check_live makes before it follows the references. */
  lemma LiveCases(g: Graph, h: Heap, path: set<nat>, n: nat)
    requires g == GraphOf(h) && n < |h| && Checking(h, path)
    ensures var m, refs := MarksOf(h), RefsOf(h);
            if !h[n].flag then !Live(g, m, refs, path, n)
            else if h[n].count < h[n].refs then Live(g, m, refs, path, n)
            else if h[n].status == STATUS_CHECK then !Live(g, m, refs, path, n)
            else n !in path && (Live(g, m, refs, path, n) <==> AnyLive(g, m, refs, path + {n}, g[n]))
    ensures h[n].status != STATUS_CHECK && h[n].flag && h[n].count >= h[n].refs ==>
              Checking(WithStatus(h, n, STATUS_CHECK), path + {n})
  {
    var m, refs := MarksOf(h), RefsOf(h);
    if h[n].flag && h[n].count < h[n].refs {
      assert ChainFrom(g, path, n, [n]) && AllFlagged(m, [n]) && Outside(m, refs, Last([n]));
    } else if h[n].flag && n !in path {
      LiveStep(g, m, refs, path, n);
    }
  }

  /** Nothing but cursors off the path has moved. */
  ghost predicate OnlyCursors(before: Heap, after: Heap, path: set<nat>) {
    && |after| == |before|
    && forall i :: 0 <= i < |after| ==>
         after[i] == before[i].(cursor := if i in path then before[i].cursor else after[i].cursor)
  }

  lemma OnlyCursorsWorld(before: Heap, after: Heap, path: set<nat>, marked: set<nat>, w: seq<Node>)
    requires OnlyCursors(before, after, path) && IsWorld(w, before)
    ensures IsWorld(w, after) && GraphOf(after) == GraphOf(before)
    ensures MarksOf(after) == MarksOf(before) && RefsOf(after) == RefsOf(before)
    ensures Checking(before, marked) ==> Checking(after, marked)
  {
  }

  lemma OnlyCursorsChain(before: Heap, middle: Heap, after: Heap, path: set<nat>, longer: set<nat>)
    requires OnlyCursors(before, middle, path) && OnlyCursors(middle, after, longer) && path <= longer
    ensures OnlyCursors(before, after, path)
  {
  }

  lemma OnlyCursorsAt(before: Heap, after: Heap, path: set<nat>, n: nat)
    requires OnlyCursors(before, after, path) && n in path && n < |before|
    ensures |after| == |before| && after[n] == before[n]
  {
  }

  lemma OnlyCursorsMove(h: Heap, before: Heap, path: set<nat>, n: nat, c: nat)
    requires n !in path && n < |before| && OnlyCursors(h, before, path)
    ensures OnlyCursors(h, WithCursor(before, n, c), path)
  {
  }

  lemma OnlyCursorsSelf(h: Heap, path: set<nat>)
    ensures OnlyCursors(h, h, path)
  {
  }

  /** Marking a node and taking the mark off again. */
  lemma OnlyCursorsAround(h: Heap, after: Heap, path: set<nat>, n: nat)
    requires n < |h| && h[n].status == STATUS_NULL && n !in path
    requires OnlyCursors(WithStatus(h, n, STATUS_CHECK), after, path)
    ensures OnlyCursors(h, WithStatus(after, n, STATUS_NULL), path)
  {
  }

  /** gc_type::check_live. */
  method CheckLive(node: Node, ghost w: seq<Node>, ghost path: set<nat>) returns (ret: bool)
    requires IsWorld(w, HeapOf(w)) && In(w, node) && Checking(HeapOf(w), path)
    modifies w
    ensures OnlyCursors(old(HeapOf(w)), HeapOf(w), path)
    ensures var h := old(HeapOf(w)); ret == Live(GraphOf(h), MarksOf(h), RefsOf(h), path, node.id)
    decreases Nodes(GraphOf(HeapOf(w))) - path, 0
  {
    hide GraphOf, MarksOf, RefsOf, HeapOf, IsWorld, Live, AnyLive, OnlyCursors, Checking, WithStatus;
    ghost var h := HeapOf(w);
    ghost var n, g := node.id, GraphOf(h);
    HeapAt(w, n);
    WorldLists(w, h, n);
    LiveCases(g, h, path, n);
    OnlyCursorsSelf(h, path);
    ret := false;
    if !node.flag {
      return false;
    }
    if node.loopCount < node.refCount {
      return true;
    }
    if node.status == STATUS_CHECK {
      return false;
    }
    CheckWorld(w, h, path, n);
    node.SetStatus(STATUS_CHECK, w);
    ret := AnyReferenceLive(node, w, path + {n});
    assert path + {n} - {n} == path;
    OnlyCursorsAround(h, HeapOf(w), path, n);
    node.SetStatus(STATUS_NULL, w);
  }

  lemma CheckWorld(w: seq<Node>, h: Heap, path: set<nat>, n: nat)
    requires IsWorld(w, h) && n < |h| && Checking(h, path) && h[n].status != STATUS_CHECK
    ensures h[n].status == STATUS_NULL
    ensures var h1 := WithStatus(h, n, STATUS_CHECK);
            IsWorld(w, h1) && GraphOf(h1) == GraphOf(h) && MarksOf(h1) == MarksOf(h) && RefsOf(h1) == RefsOf(h)
  {
  }

  /** The loop of check_live over the references; it stops at the first live one. */
  method AnyReferenceLive(node: Node, ghost w: seq<Node>, ghost path: set<nat>) returns (ret: bool)
    requires IsWorld(w, HeapOf(w)) && In(w, node)
    requires Checking(HeapOf(w), path) && node.id in path
    modifies w
    ensures OnlyCursors(old(HeapOf(w)), HeapOf(w), path - {node.id})
    ensures var h := old(HeapOf(w)); ret == AnyLive(GraphOf(h), MarksOf(h), RefsOf(h), path, GraphOf(h)[node.id])
    decreases Nodes(GraphOf(HeapOf(w))) - path, 1
  {
    hide Ids, Targets, GraphOf, MarksOf, RefsOf, HeapOf, Passed, IsWorld, Live, AnyLive, OnlyCursors, Checking,
         WithCursor;
    ghost var h := HeapOf(w);
    ghost var n, g, m, refs := node.id, GraphOf(h), MarksOf(h), RefsOf(h);
    HeapAt(w, n);
    ghost var targets := Targets(h[n].members);
    ghost var kids: seq<nat>, k := [], 0;
    ret := false;
    NothingLive(g, m, refs, path);
    WorldLists(w, h, n);
    OnlyCursorsSelf(h, path - {n});
    node.Begin(w);
    OnlyCursorsMove(h, h, path - {n}, n, 0);
    ghost var h1 := HeapOf(w);
    var r := node.GetReferObj(w);
    OnlyCursorsMove(h, h1, path - {n}, n, node.cursor);
    while r.Some?
      invariant OnlyCursors(h, HeapOf(w), path - {n})
      invariant node.members == h[n].members && node.cursor <= |node.members|
      invariant k <= |targets| && kids == Ids(targets[..k]) && !ret && !AnyLive(g, m, refs, path, kids)
      invariant if k < |targets| then r == Some(targets[k]) && Passed(h[n].members, node.cursor) == k + 1 else r == None
      decreases |targets| - k
    {
      KidsAppend(targets, k, kids);
      IdsPrefix(targets, k + 1);
      if r.value != null {
        TargetInWorld(w, h, n, k);
        AnyLiveAppend(g, m, refs, path, kids, r.value.id);
        ghost var h2 := HeapOf(w);
        OnlyCursorsWorld(h, h2, path - {n}, path, w);
        HeapAt(w, n);
        ret := CheckLive(r.value, w, path);
        HeapAt(w, n);
        OnlyCursorsAt(h2, HeapOf(w), path, n);
        OnlyCursorsChain(h, h2, HeapOf(w), path - {n}, path);
        kids := kids + [r.value.id];
        if ret {
          AnyLivePrefix(g, m, refs, path, kids, g[n]);
          return true;
        }
      }
      k := k + 1;
      ghost var h3 := HeapOf(w);
      r := node.GetReferObj(w);
      OnlyCursorsMove(h, h3, path - {n}, n, node.cursor);
    }
    assert targets[..k] == targets;
  }

  lemma NothingLive(g: Graph, m: Marks, refs: seq<int>, path: set<nat>)
    ensures Ids([]) == [] && !AnyLive(g, m, refs, path, [])
  {
  }

  // ---------------------------------------------------------------- try_collect

  /** No call is in progress, except that the nodes to be reset may carry any status but that of a reset. */
  ghost predicate Idle(h: Heap, e: nat) {
    forall i :: 0 <= i < |h| && i != e ==>
      h[i].status == STATUS_NULL || (h[i].status != STATUS_RESET && i in ReachSet(GraphOf(h), {}, e))
  }

  /**
    gc_type::try_collect up to the decision. `w` may be the whole heap: the flags and counters of the nodes that cannot
    be reached may be left over from other checks, and stay as they are.
   */
  method Decide(node: Node, ghost w: seq<Node>) returns (collected: bool)
    requires IsWorld(w, HeapOf(w)) && In(w, node) && Idle(HeapOf(w), node.id)
    modifies w
    ensures var h := old(HeapOf(w));
            (WorldClosed(w, h);
             collected == (old(node.needCheck) && Collects(GraphOf(h), RefsOf(h), node.id)))
    ensures SameNodes(old(HeapOf(w)), HeapOf(w))
    ensures AgreeOff(MarksOf(HeapOf(w)), old(MarksOf(HeapOf(w))), old(ReachSet(GraphOf(HeapOf(w)), {}, node.id)))
    ensures old(node.needCheck) ==> AllNull(HeapOf(w))
    ensures !old(node.needCheck) ==> HeapOf(w) == old(HeapOf(w))
  {
    hide GraphOf, MarksOf, RefsOf, HeapOf, IsWorld, Live, Walk, Cleared, Idle, ReachSet, ResetIn, Keeps, PathMarked,
         Checking, OnlyCursors, ResetMarked, WithStatus, Collects, AgreeOn, AgreeOff, SameNodes, AllNull;
    ghost var h := HeapOf(w);
    ghost var n, g, refs := node.id, GraphOf(h), RefsOf(h);
    ghost var r := ReachSet(g, {}, n);
    WorldClosed(w, h);
    UnchangedSelf(h, r);
    HeapAt(w, n);
    if !node.needCheck {
      return false;
    }
    IdleReset(h, n);
    var done := Reset(node, true, w, {});
    ghost var h1 := HeapOf(w);
    AfterReset(w, h, h1, n);
    HeapAt(w, n);
    ResetKeepsRefs(h, h1, n);
    CollectsLocal(g, refs, n, MarksOf(h1));
    if node.refCount <= 0 {
      return true;
    }
    var loop := FindLoop(node, node, true, w, {});
    ghost var h2 := HeapOf(w);
    AfterWalk(w, h1, h2);
    AgreeChain(MarksOf(h), MarksOf(h1), MarksOf(h2), r);
    SameChain(h, h1, h2);
    if !loop {
      return false;
    }
    var live := CheckLive(node, w, {});
    AfterCheck(h2, HeapOf(w));
    SameChain(h, h2, HeapOf(w));
    return !live;
  }

  lemma SameChain(a: Heap, b: Heap, c: Heap)
    requires SameNodes(a, b) && SameNodes(b, c)
    ensures SameNodes(a, c)
  {
  }

  lemma UnchangedSelf(h: Heap, r: set<nat>)
    ensures AgreeOff(MarksOf(h), MarksOf(h), r) && SameNodes(h, h)
  {
  }

  lemma AgreeChain(a: Marks, b: Marks, c: Marks, r: set<nat>)
    requires AgreeOff(b, a, r) && AgreeOff(c, b, r)
    ensures AgreeOff(c, a, r)
  {
  }

  lemma IdleReset(h: Heap, n: nat)
    requires Idle(h, n) && n < |h|
    ensures ResetMarked(WithStatus(h, n, STATUS_NULL), {})
  {
    hide ReachSet, GraphOf;
  }

  lemma ReachSetClosed(g: Graph, e: nat)
    requires Closed(g) && e < |g|
    ensures e in ReachSet(g, {}, e) && ClosedUnder(g, ReachSet(g, {}, e))
  {
    ReachesStep(g, {}, e, e);
    forall n, k | n in ReachSet(g, {}, e) && n < |g| && 0 <= k < |g[n]|
      ensures g[n][k] in ReachSet(g, {}, e)
    {
      var p :| ChainFrom(g, {}, e, p) && Last(p) == n;
      assert ChainFrom(g, {}, e, p + [g[n][k]]) && Last(p + [g[n][k]]) == g[n][k];
    }
  }

  /** The decision from marks that are clear as far as the node reaches is the decision from clear marks. */
  lemma {:induction false} CollectsLocal(g: Graph, refs: seq<int>, e: nat, m: Marks)
    requires Closed(g) && e < |g| == |refs| && Fits(g, m) && AgreeOn(m, Cleared(g), ReachSet(g, {}, e))
    ensures var (loop, after) := Walk(g, e, e, {}, true, m);
            && (Collects(g, refs, e) <==> refs[e] <= 0 || (loop && !Live(g, after, refs, {}, e)))
            && AgreeOff(after, m, ReachSet(g, {}, e))
  {
    hide Walk, Live, ReachSet, Cleared;
    var r, z := ReachSet(g, {}, e), Cleared(g);
    ClearedFits(g);
    ReachSetClosed(g, e);
    WalkLocal(g, e, e, {}, true, m, z, r);
    var a, b := Walk(g, e, e, {}, true, m).1, Walk(g, e, e, {}, true, z).1;
    assert AgreeOn(b, a, r);
    WalkFits(g, e, m);
    LiveLocal(g, a, b, refs, {}, e, r);
    LiveLocal(g, b, a, refs, {}, e, r);
    CollectsUnfolds(g, refs, e);
  }

  lemma ClearedFits(g: Graph)
    ensures Fits(g, Cleared(g))
  {
  }

  lemma WalkFits(g: Graph, e: nat, m: Marks)
    requires Closed(g) && Fits(g, m) && e < |g|
    ensures Fits(g, Walk(g, e, e, {}, true, m).1)
  {
  }

  lemma CollectsUnfolds(g: Graph, refs: seq<int>, e: nat)
    requires Closed(g) && e < |g| == |refs|
    ensures Collects(g, refs, e) <==>
              || refs[e] <= 0
              || (Walk(g, e, e, {}, true, Cleared(g)).0 && !Live(g, Walk(g, e, e, {}, true, Cleared(g)).1, refs, {}, e))
  {
  }

  lemma AfterReset(w: seq<Node>, h: Heap, h1: Heap, n: nat)
    requires IsWorld(w, h) && n < |h| && Idle(h, n) && ResetIn(h, h1, ReachSet(GraphOf(h), {}, n), {})
    ensures IsWorld(w, h1) && GraphOf(h1) == GraphOf(h) && RefsOf(h1) == RefsOf(h)
    ensures AgreeOn(MarksOf(h1), Cleared(GraphOf(h)), ReachSet(GraphOf(h), {}, n)) && PathMarked(h1, {}, STATUS_SIGN)
    ensures AgreeOff(MarksOf(h1), MarksOf(h), ReachSet(GraphOf(h), {}, n)) && Fits(GraphOf(h), MarksOf(h1))
    ensures AllNull(h1) && SameNodes(h, h1)
  {
    hide ReachSet;
    WorldClosed(w, h);
    ReachSetClosed(GraphOf(h), n);
  }

  lemma ResetKeepsRefs(h: Heap, h1: Heap, n: nat)
    requires |h| == |h1| && RefsOf(h1) == RefsOf(h) && n < |h|
    ensures h1[n].refs == RefsOf(h)[n]
  {
  }

  lemma AfterWalk(w: seq<Node>, h1: Heap, h2: Heap)
    requires IsWorld(w, h1) && Keeps(h1, h2, {}) && PathMarked(h2, {}, STATUS_SIGN)
    ensures IsWorld(w, h2) && GraphOf(h2) == GraphOf(h1) && RefsOf(h2) == RefsOf(h1) && Checking(h2, {})
    ensures AllNull(h2) && SameNodes(h1, h2)
  {
  }

  lemma AfterCheck(h2: Heap, h3: Heap)
    requires OnlyCursors(h2, h3, {}) && AllNull(h2)
    ensures MarksOf(h3) == MarksOf(h2) && AllNull(h3) && SameNodes(h2, h3)
  {
  }

  // ---------------------------------------------------------------- between two checks

  lemma SameWorld(w: seq<Node>, a: Heap, b: Heap)
    requires IsWorld(w, a) && SameNodes(a, b)
    ensures IsWorld(w, b) && |a| == |b| && forall i :: 0 <= i < |a| ==> a[i].check == b[i].check
  {
  }

  lemma NullIdle(h: Heap, e: nat)
    requires AllNull(h)
    ensures Idle(h, e)
  {
  }
}
