/**
  The work list of the collector in zvm/zvm_gc.cpp: a circular doubly linked list with a head sentinel and a cursor
  that moves on with every `get`. The list is proved to behave like a lap: the entries still to come in this round,
  and the entries already visited in it.
 */
module GcList {
  import opened Arithmetic

  class EntNode {
    var prev: EntNode?
    var next: EntNode?
    const entry: nat

    constructor (entry: nat)
      ensures prev == null && next == null && this.entry == entry
    {
      prev, next, this.entry := null, null, entry;
    }
  }

  // ---------------------------------------------------------------- the lap

  /** What the next calls of `get` return: first the pending entries, then the visited ones again. */
  datatype Lap<T> = Lap(pending: seq<T>, visited: seq<T>)

  /** A round starts again as soon as nothing is pending. */
  function Turn<T>(pending: seq<T>, visited: seq<T>): Lap<T> {
    if pending == [] then Lap(visited, []) else Lap(pending, visited)
  }

  function Without<T(==)>(s: seq<T>, x: T): seq<T> {
    if s == [] then [] else (if s[0] == x then [] else [s[0]]) + Without(s[1..], x)
  }

  datatype Operation<T> = Add(entry: T) | Del(entry: T) | Get

  function Step<T(==)>(l: Lap<T>, op: Operation<T>): Lap<T> {
    match op
    case Add(x) => Lap(l.pending + [x], l.visited)
    case Del(x) => Turn(Without(l.pending, x), Without(l.visited, x))
    case Get => if l.pending == [] then l else Turn(l.pending[1..], l.visited + [l.pending[0]])
  }

  /** The entries that `get` returns in a run. */
  function Returned<T(==)>(l: Lap<T>, ops: seq<Operation<T>>): seq<T>
    decreases ops
  {
    if ops == [] then []
    else (if ops[0].Get? && l.pending != [] then [l.pending[0]] else []) + Returned(Step(l, ops[0]), ops[1..])
  }

  function Gets<T>(ops: seq<Operation<T>>): nat {
    if ops == [] then 0 else (if ops[0].Get? then 1 else 0) + Gets(ops[1..])
  }

  ghost predicate Distinct<T>(s: seq<T>) { forall i, j :: 0 <= i < j < |s| ==> s[i] != s[j] }

  /** The place an entry is left at when another one is removed. */
  lemma {:induction false} WithoutPlace<T>(s: seq<T>, x: T, k: nat)
    requires k < |s| && s[k] != x
    ensures |Without(s, x)| <= |s| && exists i :: 0 <= i <= k && i < |Without(s, x)| && Without(s, x)[i] == s[k]
  {
    WithoutLength(s, x);
    var rest := Without(s[1..], x);
    var front := if s[0] == x then [] else [s[0]];
    assert Without(s, x) == front + rest;
    if k > 0 {
      WithoutPlace(s[1..], x, k - 1);
      var i :| 0 <= i <= k - 1 && i < |rest| && rest[i] == s[k];
      assert Without(s, x)[i + |front|] == s[k];
    } else {
      assert Without(s, x)[0] == s[0];
    }
  }

  lemma {:induction false} WithoutLength<T>(s: seq<T>, x: T)
    ensures |Without(s, x)| <= |s|
  {
    if s != [] {
      WithoutLength(s[1..], x);
    }
  }

  /**
    No starvation: in every run of adds, deletes and gets, the entry at place k of the pending ones is returned by one
    of the next k + 1 gets unless it is deleted before; entries added meanwhile do not delay it.
   */
  lemma {:induction false} PendingIsReturned<T>(l: Lap<T>, ops: seq<Operation<T>>, k: nat)
    requires k < |l.pending| && k < Gets(ops)
    requires forall i :: 0 <= i < |ops| ==> ops[i] != Del(l.pending[k])
    ensures exists i :: 0 <= i <= k && i < |Returned(l, ops)| && Returned(l, ops)[i] == l.pending[k]
    decreases |ops|
  {
    var x, next, rest := l.pending[k], Step(l, ops[0]), ops[1..];
    assert ops[0] != Del(x) && forall i :: 0 <= i < |rest| ==> rest[i] == ops[i + 1] != Del(x);
    match ops[0]
    case Add(y) =>
      PendingIsReturned(next, rest, k);
      assert Returned(l, ops) == Returned(next, rest);
    case Del(y) =>
      WithoutPlace(l.pending, y, k);
      var i :| 0 <= i <= k && i < |Without(l.pending, y)| && Without(l.pending, y)[i] == x;
      PendingIsReturned(next, rest, i);
      assert Returned(l, ops) == Returned(next, rest);
    case Get =>
      if k == 0 {
        assert Returned(l, ops)[0] == x;
      } else {
        PendingIsReturned(next, rest, k - 1);
        var i :| 0 <= i <= k - 1 && i < |Returned(next, rest)| && Returned(next, rest)[i] == x;
        assert Returned(l, ops)[i + 1] == x;
      }
  }

  function Repeat(k: nat): (ops: seq<Operation<EntNode>>)
    ensures |ops| == k && forall i :: 0 <= i < k ==> ops[i] == Get
  {
    seq(k, i => Get)
  }

  /** Everything in the list, in the order the coming gets return it. */
  function Upcoming<T>(l: Lap<T>): seq<T> { l.pending + l.visited }

  ghost predicate Started<T>(l: Lap<T>) { l.pending == [] ==> l.visited == [] }

  /** `k` gets in a row return the upcoming entries cyclically. */
  lemma {:induction false} GetsInARow(l: Lap<EntNode>, k: nat)
    requires Started(l)
    decreases k
    ensures Upcoming(l) == [] ==> Returned(l, Repeat(k)) == []
    ensures Upcoming(l) != [] ==>
              && |Returned(l, Repeat(k))| == k
              && forall i :: 0 <= i < k ==> Returned(l, Repeat(k))[i] == Upcoming(l)[i % |Upcoming(l)|]
  {
    if k > 0 {
      var next, n := Step(l, Get), |Upcoming(l)|;
      assert Repeat(k)[1..] == Repeat(k - 1);
      GetsInARow(next, k - 1);
      if n > 0 {
        assert Upcoming(next) == Upcoming(l)[1..] + [Upcoming(l)[0]];
        assert Returned(l, Repeat(k)) == [Upcoming(l)[0]] + Returned(next, Repeat(k - 1));
        forall i | 1 <= i < k
          ensures Returned(l, Repeat(k))[i] == Upcoming(l)[i % n]
        {
          RotatedIndex(Upcoming(l), i);
        }
        assert 0 % n == 0;
      }
    }
  }

  lemma {:induction false} RotatedIndex<T>(s: seq<T>, i: nat)
    requires s != [] && i > 0
    ensures (s[1..] + [s[0]])[(i - 1) % |s|] == s[i % |s|]
  {
    var n, q, r := |s|, (i - 1) / |s|, (i - 1) % |s|;
    assert i == q * n + r + 1;
    if r + 1 == n {
      assert i == (q + 1) * n;
      Quotient(i, n, q + 1, 0);
    } else {
      Quotient(i, n, q, r + 1);
    }
  }

  /** One full round of gets visits every entry exactly once. */
  lemma RoundVisitsAll(l: Lap<EntNode>)
    requires Started(l)
    ensures Returned(l, Repeat(|Upcoming(l)|)) == Upcoming(l)
  {
    var n := |Upcoming(l)|;
    GetsInARow(l, n);
    forall i | 0 <= i < n
      ensures i % n == i
    {
      Quotient(i, n, 0, i);
    }
  }

  /** An added entry is returned right behind those pending, before any entry of this round comes again. */
  lemma AddedIsNext(l: Lap<EntNode>, x: EntNode)
    requires Started(l)
    ensures Returned(Step(l, Add(x)), Repeat(|l.pending| + 1)) == l.pending + [x]
  {
    var next, k := Step(l, Add(x)), |l.pending| + 1;
    GetsInARow(next, k);
    forall i | 0 <= i < k
      ensures i % |Upcoming(next)| == i
    {
      Quotient(i, |Upcoming(next)|, 0, i);
    }
  }

  /** A deleted entry is never returned in any run that does not add it again. */
  lemma {:induction false} DeletedIsGone<T>(l: Lap<T>, x: T, ops: seq<Operation<T>>)
    requires Add(x) !in ops
    ensures x !in Returned(Step(l, Del(x)), ops)
  {
    WithoutGone(l.pending, x);
    WithoutGone(l.visited, x);
    AbsentNotReturned(Step(l, Del(x)), x, ops);
  }

  lemma {:induction false} WithoutGone<T>(s: seq<T>, x: T)
    ensures forall y :: y in Without(s, x) ==> y in s && y != x
  {
    if s != [] {
      WithoutGone(s[1..], x);
    }
  }

  lemma {:induction false} AbsentNotReturned<T>(l: Lap<T>, x: T, ops: seq<Operation<T>>)
    requires x !in l.pending && x !in l.visited && Add(x) !in ops
    ensures x !in Returned(l, ops)
    decreases |ops|
  {
    if ops != [] {
      assert ops[0] in ops;
      if ops[0].Del? {
        WithoutGone(l.pending, ops[0].entry);
        WithoutGone(l.visited, ops[0].entry);
      }
      AbsentNotReturned(Step(l, ops[0]), x, ops[1..]);
    }
  }

  // ---------------------------------------------------------------- the linked list

  class EntList {
    const head: EntNode
    var cur: EntNode
    var size: int
    /** The nodes in list order, the head first. */
    ghost var ring: seq<EntNode>
    /** The place of the cursor in the ring. */
    ghost var at: nat

    ghost predicate Linked()
      reads this, ring
    {
      && ring != [] && ring[0] == head
      && forall i :: 0 <= i < |ring| ==> LinkedAt(ring, i)
    }

    ghost predicate Valid()
      reads this, ring
    {
      Linked() && Distinct(ring) && at < |ring| && cur == ring[at] && size == |ring| - 1
    }

    /** The nodes of the list in their order, without the head. */
    ghost function Contents(): seq<EntNode>
      reads this
      requires ring != []
    {
      ring[1..]
    }

    ghost function View(): Lap<EntNode>
      reads this
      requires at < |ring|
    {
      LapAt(ring, at)
    }

    constructor ()
      ensures Valid() && Contents() == [] && fresh(head) && View() == Lap([], [])
    {
      var h := new EntNode(0);
      head, cur, size, ring, at := h, h, 0, [h], 0;
      new;
      head.next := head;
      head.prev := head;
    }

    /** entlist::add. */
    method Add(n: EntNode)
      requires Valid() && n !in ring
      modifies this, ring, n
      ensures Valid() && Contents() == old(Contents()) + [n]
      ensures View() == Step(old(View()), Operation.Add(n))
    {
      hide Distinct, Step, LapAt;
      ghost var r, l := ring, |ring| - 1;
      DistinctAppend(r, n);
      OthersDiffer(r, l);
      OthersDiffer(r, 0);
      assert LinkedAt(r, 0) && LinkedAt(r, l);
      n.prev := head.prev;
      head.prev.next := n;
      n.next := head;
      head.prev := n;
      size := size + 1;
      ring := ring + [n];
      forall k | 0 <= k < |ring|
        ensures LinkedAt(ring, k)
      {
        assert k <= l ==> ring[k] == r[k] && old(LinkedAt(r, k));
      }
      LapAdd(r, at, n);
    }

    /** entlist::del; `i` is the place of the node. */
    method Del(n: EntNode, ghost i: nat)
      requires Valid() && 1 <= i < |ring| && ring[i] == n
      modifies this, ring
      ensures Valid() && Contents() == old(Contents())[..i - 1] + old(Contents())[i..]
      ensures View() == Step(old(View()), Operation.Del(n))
      ensures n.prev == null && n.next == null
    {
      hide Distinct, Step, LapAt, LinkedAt, AfterDel, After;
      ghost var r, m := ring, |ring|;
      LapDel(r, at, i);
      DistinctRemove(r, i);
      RemovedAt(r, at, i);
      OthersDiffer(r, i);
      if n == cur {
        assert LinkedAt(r, i);
        cur := NextOf(n, r, i);
      }
      Unlink(n, r, i);
      size := size - 1;
      ring := r[..i] + r[i + 1..];
      at := AfterDel(m, at, i);
    }

    /** entlist::get. */
    method Get() returns (e: EntNode?)
      requires Valid()
      modifies this`cur, this`at
      ensures Valid() && e == if old(View()).pending == [] then null else old(View()).pending[0]
      ensures View() == Step(old(View()), Operation.Get)
    {
      if size == 0 {
        return null;
      }
      hide Distinct, Step, LapAt;
      LapGet(ring, at);
      OthersDiffer(ring, 0);
      e := cur;
      if e == head {
        e := e.next;
      }
      assert LinkedAt(ring, 0) && LinkedAt(ring, First(at));
      assert e == ring[First(at)] && e.next == After(ring, First(at));
      cur := e.next;
      at := AfterGet(|ring|, at);
    }

    /**
      gc::try_collect, with the nodes it checks as result; a negative count stands for one full round. The checks
      themselves do not change the list here.
     */
    method TryCollect(cnt: int) returns (checked: seq<EntNode>)
      requires Valid()
      modifies this`cur, this`at
      ensures Valid() && Contents() == old(Contents())
      ensures checked == Returned(old(View()), Repeat(if cnt < 0 then old(|Contents()|) else cnt))
      ensures cnt < 0 ==> checked == Upcoming(old(View())) && multiset(checked) == multiset(old(Contents()))
    {
      hide Distinct, Step, Returned, Repeat, LapAt;
      var total := cnt;
      if cnt < 0 {
        total := size;
      }
      ghost var l := View();
      LapEntries(ring, at);
      RoundVisitsAll(l);
      checked := [];
      var i := 0;
      while i < total
        invariant Valid() && 0 <= i <= total && ring == old(ring)
        invariant checked + Returned(View(), Repeat(total - i)) == Returned(l, Repeat(total))
      {
        FirstGet(View(), total - i);
        var e := Get();
        if e != null {
          checked := checked + [e];
        }
        i := i + 1;
      }
      NoGets(View());
    }
  }

  method NextOf(n: EntNode, ghost r: seq<EntNode>, ghost i: nat) returns (e: EntNode)
    requires i < |r| && r[i] == n && LinkedAt(r, i)
    ensures e == After(r, i)
  {
    e := n.next;
  }

  /** The pointer changes of entlist::del. */
  method Unlink(n: EntNode, ghost r: seq<EntNode>, ghost i: nat)
    requires Distinct(r) && 1 <= i < |r| && r[i] == n && forall k :: 0 <= k < |r| ==> LinkedAt(r, k)
    modifies r
    ensures var r' := r[..i] + r[i + 1..]; forall k :: 0 <= k < |r'| ==> LinkedAt(r', k)
    ensures n.prev == null && n.next == null
  {
    hide Distinct;
    ghost var following := if i + 1 == |r| then 0 else i + 1;
    OthersDiffer(r, i);
    OthersDiffer(r, i - 1);
    OthersDiffer(r, following);
    assert LinkedAt(r, i);
    n.prev.next := n.next;
    n.next.prev := n.prev;
    n.prev := null;
    n.next := null;
    ghost var r' := r[..i] + r[i + 1..];
    forall k | 0 <= k < |r'|
      ensures LinkedAt(r', k)
    {
      ghost var j := if k < i then k else k + 1;
      assert r'[k] == r[j] && old(LinkedAt(r, j));
    }
  }

  // ---------------------------------------------------------------- cursor arithmetic

  /** The place `get` takes its node from. */
  function First(at: nat): nat { if at == 0 then 1 else at }

  function LapAt<T>(ring: seq<T>, at: nat): Lap<T>
    requires at < |ring|
  {
    if |ring| == 1 then Lap([], []) else Lap(ring[First(at)..], ring[1..First(at)])
  }

  /** The node the place refers to next. */
  function After<T>(ring: seq<T>, i: nat): T
    requires i < |ring|
  {
    if i + 1 == |ring| then ring[0] else ring[i + 1]
  }

  /** The node it refers back to. */
  function Before<T>(ring: seq<T>, i: nat): T
    requires i < |ring|
  {
    if i == 0 then ring[|ring| - 1] else ring[i - 1]
  }

  ghost predicate LinkedAt(ring: seq<EntNode>, i: int)
    requires 0 <= i < |ring|
    reads ring
  {
    ring[i].next == After(ring, i) && ring[i].prev == Before(ring, i)
  }

  function AfterGet(m: nat, at: nat): nat { if First(at) + 1 == m then 0 else First(at) + 1 }

  function AfterDel(m: nat, at: nat, i: nat): nat
    requires at < m && i < m
  {
    if at == i then (if i + 1 == m then 0 else i) else if at > i then at - 1 else at
  }

  lemma OthersDiffer<T>(s: seq<T>, k: nat)
    requires Distinct(s) && k < |s|
    ensures forall i :: 0 <= i < |s| && i != k ==> s[i] != s[k]
  {
  }

  lemma DistinctAppend<T>(s: seq<T>, x: T)
    requires Distinct(s) && x !in s
    ensures Distinct(s + [x])
  {
  }

  lemma DistinctRemove<T>(s: seq<T>, k: nat)
    requires Distinct(s) && k < |s|
    ensures Distinct(s[..k] + s[k + 1..])
  {
  }

  lemma DistinctSlice<T>(s: seq<T>, lo: nat, hi: nat)
    requires Distinct(s) && lo <= hi <= |s|
    ensures Distinct(s[lo..hi])
  {
  }

  /** The lap holds the entries of the list, each once. */
  lemma LapEntries(r: seq<EntNode>, at: nat)
    requires at < |r|
    ensures Started(LapAt(r, at)) && |Upcoming(LapAt(r, at))| == |r| - 1
    ensures multiset(Upcoming(LapAt(r, at))) == multiset(r[1..])
  {
    if |r| > 1 {
      assert r[1..] == r[1..First(at)] + r[First(at)..];
    }
  }

  lemma {:induction false} FirstGet(l: Lap<EntNode>, k: nat)
    requires k > 0
    ensures Returned(l, Repeat(k)) ==
              (if l.pending == [] then [] else [l.pending[0]]) + Returned(Step(l, Get), Repeat(k - 1))
  {
    assert Repeat(k)[1..] == Repeat(k - 1);
  }

  lemma NoGets(l: Lap<EntNode>)
    ensures Returned(l, Repeat(0)) == []
  {
  }

  lemma LapAdd<T>(r: seq<T>, at: nat, n: T)
    requires at < |r|
    ensures LapAt(r + [n], at) == Step(LapAt(r, at), Add(n))
  {
    if |r| == 1 {
      assert (r + [n])[1..] == [n] == [] + [n];
    } else {
      var f := First(at);
      assert (r + [n])[f..] == r[f..] + [n] && (r + [n])[1..f] == r[1..f];
    }
  }

  lemma LapGet<T>(r: seq<T>, at: nat)
    requires at < |r| && |r| > 1
    ensures LapAt(r, AfterGet(|r|, at)) == Step(LapAt(r, at), Get)
    ensures LapAt(r, at).pending[0] == r[First(at)]
  {
    var f := First(at);
    assert r[f..][1..] == r[f + 1..] && r[1..f] + [r[f]] == r[1..f + 1];
    if f + 1 == |r| {
      assert r[1..f + 1] == r[1..];
    }
  }

  lemma {:induction false} WithoutAt<T>(s: seq<T>, k: nat)
    requires Distinct(s) && k < |s|
    ensures Without(s, s[k]) == s[..k] + s[k + 1..]
  {
    if k == 0 {
      WithoutAbsent(s[1..], s[0]);
    } else {
      WithoutAt(s[1..], k - 1);
      assert s[0] != s[k];
      assert s[..k] == [s[0]] + s[1..][..k - 1];
    }
  }

  lemma {:induction false} WithoutAbsent<T>(s: seq<T>, x: T)
    requires x !in s
    ensures Without(s, x) == s
  {
    if s != [] {
      WithoutAbsent(s[1..], x);
    }
  }

  lemma RemovedAt<T>(r: seq<T>, at: nat, i: nat)
    requires at < |r| && 1 <= i < |r|
    ensures var r', k := r[..i] + r[i + 1..], AfterDel(|r|, at, i);
            && |r'| == |r| - 1 && r'[0] == r[0] && r'[1..] == r[1..][..i - 1] + r[1..][i..]
            && k < |r'| && r'[k] == if at == i then After(r, i) else r[at]
  {
  }

  lemma LapDel<T>(r: seq<T>, at: nat, i: nat)
    requires at < |r| && 1 <= i < |r| && Distinct(r)
    ensures AfterDel(|r|, at, i) < |r| - 1
    ensures LapAt(r[..i] + r[i + 1..], AfterDel(|r|, at, i)) == Step(LapAt(r, at), Del(r[i]))
  {
    hide Distinct, Without;
    var f, r' := First(at), r[..i] + r[i + 1..];
    if i >= f {
      DelPending(r, f, i);
    } else {
      DelVisited(r, f, i);
    }
  }

  lemma DelPending<T>(r: seq<T>, f: nat, i: nat)
    requires 1 <= f <= i < |r| && Distinct(r)
    ensures var r' := r[..i] + r[i + 1..];
            r'[f..] == Without(r[f..], r[i]) && r'[1..f] == Without(r[1..f], r[i]) == r[1..f]
  {
    hide Distinct, Without;
    var r' := r[..i] + r[i + 1..];
    DistinctSlice(r, f, |r|);
    OthersDiffer(r, i);
    assert r[f..|r|] == r[f..] && r[f..][i - f] == r[i];
    WithoutAt(r[f..], i - f);
    WithoutAbsent(r[1..f], r[i]);
    assert r'[f..] == r[f..][..i - f] + r[f..][i - f + 1..];
    assert r'[1..f] == r[1..f];
  }

  lemma DelVisited<T>(r: seq<T>, f: nat, i: nat)
    requires 1 <= i < f < |r| && Distinct(r)
    ensures var r' := r[..i] + r[i + 1..];
            r'[f - 1..] == Without(r[f..], r[i]) == r[f..] && r'[1..f - 1] == Without(r[1..f], r[i])
  {
    hide Distinct, Without;
    var r' := r[..i] + r[i + 1..];
    DistinctSlice(r, 1, f);
    OthersDiffer(r, i);
    WithoutAt(r[1..f], i - 1);
    WithoutAbsent(r[f..], r[i]);
    assert r'[f - 1..] == r[f..];
    assert r'[1..f - 1] == r[1..f][..i - 1] + r[1..f][i..];
  }
}
