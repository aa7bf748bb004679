/**
  The priority task queue of ep/ep_thread_pool.cpp: its lists as a class, and the calls of any number of threads as
  interleaved steps on the lists, the mutex and the semaphore.
 */
module TaskQueue {
  import opened Wrappers

  const MAX_PRIORITY_NUM := 32

  /** A queued task and the number of its add; the same task may be added several times. */
  datatype Entry = Entry(op: nat, ticket: nat)

  // ---------------------------------------------------------------- the lists

  type Lists = seq<seq<Entry>>

  /** All queued entries. */
  ghost function Queued(lists: Lists): multiset<Entry> {
    if lists == [] then multiset{} else Queued(lists[..|lists| - 1]) + multiset(lists[|lists| - 1])
  }

  lemma {:induction false} QueuedUpdate(lists: Lists, p: nat, l: seq<Entry>)
    requires p < |lists|
    ensures multiset(lists[p]) <= Queued(lists)
    ensures Queued(lists[p := l]) == Queued(lists) - multiset(lists[p]) + multiset(l)
  {
    var last := |lists| - 1;
    if p < last {
      QueuedUpdate(lists[..last], p, l);
      assert lists[p := l][..last] == lists[..last][p := l];
    } else {
      assert lists[p := l][..last] == lists[..last];
    }
  }

  /** The lowest-numbered list that is not empty, or the number of lists. */
  function First(lists: Lists): (p: nat)
    ensures p <= |lists| && (p < |lists| ==> lists[p] != []) && forall q :: 0 <= q < p ==> lists[q] == []
  {
    if lists == [] || lists[0] != [] then 0 else 1 + First(lists[1..])
  }

  lemma {:induction false} FirstFinds(lists: Lists)
    ensures First(lists) < |lists| <==> |Queued(lists)| > 0
  {
    if lists != [] {
      var last := |lists| - 1;
      FirstFinds(lists[..last]);
      FirstSnoc(lists);
    }
  }

  lemma {:induction false} FirstSnoc(lists: Lists)
    requires lists != []
    ensures var front := lists[..|lists| - 1];
            First(lists) < |lists| <==> First(front) < |front| || lists[|lists| - 1] != []
  {
    var front := lists[..|lists| - 1];
    if First(front) < |front| {
      assert front[First(front)] == lists[First(front)];
    }
    if First(lists) < |front| {
      assert front[First(lists)] == lists[First(lists)];
    }
  }

  function Push(lists: Lists, p: nat, e: Entry): Lists
    requires p < |lists|
  {
    lists[p := lists[p] + [e]]
  }

  /** Taking the oldest task of the lowest-numbered list. */
  function Pop(lists: Lists): (r: (Lists, Option<Entry>))
    ensures |r.0| == |lists|
  {
    var p := First(lists);
    if p < |lists| then (lists[p := lists[p][1..]], Some(lists[p][0])) else (lists, None)
  }

  /** Where the first entry of a task is in a list, or the length of the list. */
  function Place(l: seq<Entry>, op: nat): (k: nat)
    ensures k <= |l| && (k < |l| ==> l[k].op == op) && forall i :: 0 <= i < k ==> l[i].op != op
  {
    if l == [] || l[0].op == op then 0 else 1 + Place(l[1..], op)
  }

  function Erase(lists: Lists, p: nat, op: nat): (r: (Lists, Option<Entry>))
    requires p < |lists|
    ensures |r.0| == |lists|
  {
    var k := Place(lists[p], op);
    if k < |lists[p]| then (lists[p := lists[p][..k] + lists[p][k + 1..]], Some(lists[p][k])) else (lists, None)
  }

  lemma {:induction false} PushQueued(lists: Lists, p: nat, e: Entry)
    requires p < |lists|
    ensures Queued(Push(lists, p, e)) == Queued(lists) + multiset{e}
  {
    QueuedUpdate(lists, p, lists[p] + [e]);
  }

  lemma ListSplit(l: seq<Entry>, k: nat)
    requires k < |l|
    ensures multiset(l) == multiset(l[..k] + l[k + 1..]) + multiset{l[k]}
  {
    assert l == l[..k] + [l[k]] + l[k + 1..];
  }

  lemma {:induction false} RemovedQueued(lists: Lists, p: nat, k: nat)
    requires p < |lists| && k < |lists[p]|
    ensures Queued(lists) == Queued(lists[p := lists[p][..k] + lists[p][k + 1..]]) + multiset{lists[p][k]}
  {
    hide Queued;
    QueuedUpdate(lists, p, lists[p][..k] + lists[p][k + 1..]);
    ListSplit(lists[p], k);
  }

  lemma {:induction false} PopQueued(lists: Lists)
    ensures var (after, o) := Pop(lists);
            && (o.None? <==> |Queued(lists)| == 0)
            && (o.None? ==> after == lists)
            && (o.Some? ==> Queued(lists) == Queued(after) + multiset{o.value})
  {
    hide Queued;
    FirstFinds(lists);
    var p := First(lists);
    if p < |lists| {
      RemovedQueued(lists, p, 0);
      assert lists[p][..0] + lists[p][1..] == lists[p][1..];
    }
  }

  lemma EraseQueued(lists: Lists, p: nat, op: nat)
    requires p < |lists|
    ensures var (after, o) := Erase(lists, p, op);
            && (o.Some? <==> exists i :: 0 <= i < |lists[p]| && lists[p][i].op == op)
            && (o.None? ==> after == lists)
            && (o.Some? ==> o.value.op == op && Queued(lists) == Queued(after) + multiset{o.value})
  {
    hide Queued;
    var k := Place(lists[p], op);
    if k < |lists[p]| {
      RemovedQueued(lists, p, k);
    }
  }

  /** The members of task_queue that the mutex protects. */
  class TaskLists {
    const lists: array<seq<Entry>>
    var size: int
    var total: nat

    ghost predicate Valid()
      reads lists
    {
      lists.Length == MAX_PRIORITY_NUM
    }

    constructor ()
      ensures Valid() && lists[..] == seq(MAX_PRIORITY_NUM, i => []) && size == 0 && total == 0
    {
      lists := new seq<Entry>[MAX_PRIORITY_NUM](i => []);
      size, total := 0, 0;
    }

    /** The locked part of add_task. */
    method PushBack(op: nat, priority: nat) returns (ghost e: Entry)
      requires Valid() && priority < MAX_PRIORITY_NUM
      modifies this, lists
      ensures e == Entry(op, old(total)) && lists[..] == Push(old(lists[..]), priority, e)
      ensures size == old(size) + 1 && total == old(total) + 1
    {
      e := Entry(op, total);
      lists[priority] := lists[priority] + [Entry(op, total)];
      size := size + 1;
      total := total + 1;
    }

    method GetTaskByPriority(priority: nat) returns (op: Option<Entry>)
      requires Valid() && priority < MAX_PRIORITY_NUM
      modifies this`size, lists
      ensures var l := old(lists[priority]);
              if l == [] then op == None && lists[..] == old(lists[..]) && size == old(size)
              else op == Some(l[0]) && lists[..] == old(lists[..])[priority := l[1..]] && size == old(size) - 1
    {
      if |lists[priority]| > 0 {
        op := Some(lists[priority][0]);
        lists[priority] := lists[priority][1..];
        size := size - 1;
        return;
      }
      return None;
    }

    /** The locked part of get_task and try_get_task. */
    method PopTask() returns (op: Option<Entry>)
      requires Valid()
      modifies this`size, lists
      ensures (lists[..], op) == Pop(old(lists[..])) && size == old(size) - if op.Some? then 1 else 0
    {
      op := None;
      var p := 0;
      while p < MAX_PRIORITY_NUM
        invariant 0 <= p <= MAX_PRIORITY_NUM
        invariant op == None && lists[..] == old(lists[..]) && size == old(size)
        invariant forall q :: 0 <= q < p ==> lists[q] == []
      {
        op := GetTaskByPriority(p);
        if op.Some? {
          FirstIs(old(lists[..]), p);
          return;
        }
        p := p + 1;
      }
      NoneFirst(lists[..]);
    }

    /** The locked part of del_task, up to the giving back of the token. */
    method EraseTask(op: nat, priority: nat) returns (e: Option<Entry>)
      requires Valid() && priority < MAX_PRIORITY_NUM
      modifies this`size, lists
      ensures (lists[..], e) == Erase(old(lists[..]), priority, op) && size == old(size) - if e.Some? then 1 else 0
    {
      var it, l := 0, lists[priority];
      while it < |l|
        invariant 0 <= it <= |l| && forall i :: 0 <= i < it ==> l[i].op != op
      {
        if l[it].op == op {
          break;
        }
        it := it + 1;
      }
      PlaceIs(l, op, it);
      if it != |l| {
        lists[priority] := l[..it] + l[it + 1..];
        size := size - 1;
        return Some(l[it]);
      }
      return None;
    }
  }

  lemma {:induction false} FirstIs(lists: Lists, p: nat)
    requires p < |lists| && lists[p] != [] && forall q :: 0 <= q < p ==> lists[q] == []
    ensures First(lists) == p
  {
    if p > 0 {
      FirstIs(lists[1..], p - 1);
    }
  }

  lemma {:induction false} NoneFirst(lists: Lists)
    requires forall q :: 0 <= q < |lists| ==> lists[q] == []
    ensures First(lists) == |lists|
  {
    if lists != [] {
      NoneFirst(lists[1..]);
    }
  }

  lemma {:induction false} PlaceIs(l: seq<Entry>, op: nat, k: nat)
    requires k <= |l| && (k < |l| ==> l[k].op == op) && forall i :: 0 <= i < k ==> l[i].op != op
    ensures Place(l, op) == k
  {
    if k > 0 {
      PlaceIs(l[1..], op, k - 1);
    }
  }

  // ---------------------------------------------------------------- the steps of the threads

  datatype Call = AddTask(op: nat, priority: nat) | GetTask | TryGetTask | DelTask(op: nat, priority: nat) | Stop

  /** Where a thread is: what it does next, and what it carries along. */
  datatype Pc =
    | AddCheck(op: nat, priority: nat) | AddLock(op: nat, priority: nat) | AddPush(op: nat, priority: nat)
    | AddGive | AddUnlock(accepted: bool)
    | GetTake(waits: bool) | GetLock | GetPop | GetUnlock(got: Option<Entry>)
    | DelTake(op: nat, priority: nat) | DelLock(op: nat, priority: nat) | DelFind(op: nat, priority: nat)
    | DelGive | DelUnlock(found: bool)
    | StopLock | StopSet | StopUnlock

  datatype Result = InvalidPriority | Refused | Accepted | NoTask | Got(entry: Entry) | NotInQueue | Deleted | Stopped

  /** `accepted`, `handed` and `deleted` record what has happened; `results` what the finished calls returned. */
  datatype State = State(
    lists: Lists, size: int, total: nat, stop: bool, sem: nat, owner: Option<nat>, threads: map<nat, Pc>,
    accepted: seq<Entry>, handed: seq<Entry>, deleted: seq<Entry>, results: map<nat, Result>)

  function Initial(): State {
    State(seq(MAX_PRIORITY_NUM, i => []), 0, 0, false, 0, None, map[], [], [], [], map[])
  }

  /** A thread starts a call or takes its next step; `broken` lets a try_take fail for another reason. */
  datatype Event = Begin(t: nat, call: Call) | Move(t: nat, broken: bool)

  predicate TakesLock(pc: Pc) { pc.AddLock? || pc.GetLock? || pc.DelLock? || pc.StopLock? }

  predicate Enabled(s: State, e: Event) {
    match e
    case Begin(t, call) => t !in s.threads && t !in s.results && (call.DelTask? ==> call.priority < MAX_PRIORITY_NUM)
    case Move(t, broken) =>
      && t in s.threads
      && (TakesLock(s.threads[t]) ==> s.owner.None?)
      && (s.threads[t] == GetTake(true) ==> s.sem > 0)
  }

  function Goto(s: State, t: nat, pc: Pc): State { s.(threads := s.threads[t := pc]) }

  function Return(s: State, t: nat, r: Result): State {
    s.(threads := s.threads - {t}, results := s.results[t := r])
  }

  function Start(call: Call): Pc {
    match call
    case AddTask(op, priority) => AddCheck(op, priority)
    case GetTask => GetTake(true)
    case TryGetTask => GetTake(false)
    case DelTask(op, priority) => DelTake(op, priority)
    case Stop => StopLock
  }

  /** The step can be taken, and indexes no list that does not exist. */
  predicate Legal(s: State, e: Event) {
    Enabled(s, e) && |s.lists| == MAX_PRIORITY_NUM && (e.Move? ==> PcOk(s.threads[e.t]))
  }

  function Step(s: State, e: Event): State
    requires Legal(s, e)
  {
    match e
    case Begin(t, call) => Goto(s, t, Start(call))
    case Move(t, broken) =>
      match s.threads[t]
      case AddCheck(op, priority) =>
        if priority >= MAX_PRIORITY_NUM then Return(s, t, InvalidPriority)
        else if s.stop then Return(s, t, Refused)
        else Goto(s, t, AddLock(op, priority))
      case AddLock(op, priority) => Goto(s, t, AddPush(op, priority)).(owner := Some(t))
      case AddPush(op, priority) =>
        if s.stop then Goto(s, t, AddUnlock(false))
        else
          var entry := Entry(op, s.total);
          Goto(s, t, AddGive).(lists := Push(s.lists, priority, entry), size := s.size + 1, total := s.total + 1,
                               accepted := s.accepted + [entry])
      case AddGive => Goto(s, t, AddUnlock(true)).(sem := s.sem + 1)
      case AddUnlock(ok) => Return(s, t, if ok then Accepted else Refused).(owner := None)
      case GetTake(waits) =>
        if waits then Goto(s, t, GetLock).(sem := s.sem - 1)
        else if s.sem == 0 || broken then Return(s, t, NoTask)
        else Goto(s, t, GetLock).(sem := s.sem - 1)
      case GetLock => Goto(s, t, GetPop).(owner := Some(t))
      case GetPop =>
        var (lists, got) := Pop(s.lists);
        Goto(s, t, GetUnlock(got)).(lists := lists, size := s.size - (if got.Some? then 1 else 0),
                                    handed := s.handed + if got.Some? then [got.value] else [])
      case GetUnlock(got) => Return(s, t, if got.Some? then Got(got.value) else NoTask).(owner := None)
      case DelTake(op, priority) =>
        if s.sem == 0 || broken then Return(s, t, NotInQueue)
        else Goto(s, t, DelLock(op, priority)).(sem := s.sem - 1)
      case DelLock(op, priority) => Goto(s, t, DelFind(op, priority)).(owner := Some(t))
      case DelFind(op, priority) =>
        var (lists, found) := Erase(s.lists, priority, op);
        if found.Some? then
          Goto(s, t, DelUnlock(true)).(lists := lists, size := s.size - 1, deleted := s.deleted + [found.value])
        else Goto(s, t, DelGive)
      case DelGive => Goto(s, t, DelUnlock(false)).(sem := s.sem + 1)
      case DelUnlock(found) => Return(s, t, if found then Deleted else NotInQueue).(owner := None)
      case StopLock => Goto(s, t, StopSet).(owner := Some(t))
      case StopSet => Goto(s, t, StopUnlock).(stop := true)
      case StopUnlock => Return(s, t, Stopped).(owner := None)
  }

  // ---------------------------------------------------------------- the invariant

  predicate HoldsLock(pc: Pc) {
    || pc.AddPush? || pc.AddGive? || pc.AddUnlock? || pc.GetPop? || pc.GetUnlock?
    || pc.DelFind? || pc.DelGive? || pc.DelUnlock? || pc.StopSet? || pc.StopUnlock?
  }

  /** The thread has taken a token from the semaphore and neither used it nor given it back. */
  predicate HasToken(pc: Pc) { pc.GetLock? || pc.GetPop? || pc.DelLock? || pc.DelFind? || pc.DelGive? }

  /** Priorities behind the checks are in range, and whoever popped got a task. */
  predicate PcOk(pc: Pc) {
    && (pc.AddLock? || pc.AddPush? || pc.DelTake? || pc.DelLock? || pc.DelFind? ==> pc.priority < MAX_PRIORITY_NUM)
    && (pc.GetUnlock? ==> pc.got.Some?)
  }

  ghost function Tokens(threads: map<nat, Pc>): set<nat> { set t | t in threads && HasToken(threads[t]) }

  /** A task is in its list already, and its token not yet in the semaphore. */
  predicate GivePending(s: State) { s.owner.Some? && s.owner.value in s.threads && s.threads[s.owner.value].AddGive? }

  /** The semaphore and the tokens held account for every queued task. */
  ghost predicate Balanced(s: State) {
    s.sem + |Tokens(s.threads)| == s.size - if GivePending(s) then 1 else 0
  }

  ghost predicate Exclusive(s: State) {
    && (s.owner.Some? ==> s.owner.value in s.threads)
    && forall t :: t in s.threads ==> (HoldsLock(s.threads[t]) <==> s.owner == Some(t))
  }

  ghost predicate InAgeOrder(lists: Lists, total: nat) {
    forall p {:trigger lists[p]} :: 0 <= p < |lists| ==> ListInOrder(lists[p], total)
  }

  ghost predicate ListInOrder(l: seq<Entry>, total: nat) {
    && (forall i :: 0 <= i < |l| ==> l[i].ticket < total)
    && (forall i, j :: 0 <= i < j < |l| ==> l[i].ticket < l[j].ticket)
  }

  ghost predicate Partition(s: State) {
    && multiset(s.accepted) == Queued(s.lists) + multiset(s.handed) + multiset(s.deleted)
    && |s.accepted| == s.total && (forall i :: 0 <= i < |s.accepted| ==> s.accepted[i].ticket == i)
  }

  /** What the lock protects, together. */
  ghost predicate DataOk(s: State) {
    && |s.lists| == MAX_PRIORITY_NUM && s.size == |Queued(s.lists)|
    && InAgeOrder(s.lists, s.total) && Partition(s)
  }

  ghost predicate Inv(s: State) {
    && DataOk(s) && Balanced(s) && Exclusive(s)
    && forall t :: t in s.threads ==> PcOk(s.threads[t])
  }

  lemma TokensPut(threads: map<nat, Pc>, t: nat, pc: Pc)
    ensures |Tokens(threads[t := pc])| == |Tokens(threads)|
              - (if t in threads && HasToken(threads[t]) then 1 else 0) + (if HasToken(pc) then 1 else 0)
  {
    var before, after := Tokens(threads), Tokens(threads[t := pc]);
    assert t in before <==> t in threads && HasToken(threads[t]);
    assert t in after <==> HasToken(pc);
    assert after - {t} == before - {t};
    Drop(before, t);
    Drop(after, t);
  }

  lemma Drop(a: set<nat>, t: nat)
    ensures |a - {t}| == |a| - if t in a then 1 else 0
  {
    if t !in a {
      assert a - {t} == a;
    }
  }

  lemma TokensGone(threads: map<nat, Pc>, t: nat)
    requires t in threads && !HasToken(threads[t])
    ensures Tokens(threads - {t}) == Tokens(threads)
  {
  }

  lemma PushOk(s: State, priority: nat, entry: Entry)
    requires DataOk(s) && priority < MAX_PRIORITY_NUM && entry.ticket == s.total
    ensures DataOk(s.(lists := Push(s.lists, priority, entry), size := s.size + 1, total := s.total + 1,
                      accepted := s.accepted + [entry]))
  {
    hide Queued;
    PushQueued(s.lists, priority, entry);
  }

  lemma RemoveOrder(lists: Lists, p: nat, k: nat, total: nat)
    requires InAgeOrder(lists, total) && p < |lists| && k < |lists[p]|
    ensures InAgeOrder(lists[p := lists[p][..k] + lists[p][k + 1..]], total)
  {
    assert ListInOrder(lists[p], total);
    assert ListInOrder(lists[p][..k] + lists[p][k + 1..], total);
  }

  /** The entry is the oldest one of list `p`, and the lists with lower numbers are empty. */
  ghost predicate IsNext(lists: Lists, p: int, e: Entry) {
    && 0 <= p < |lists| && e in lists[p] && (forall q :: 0 <= q < p ==> lists[q] == [])
    && forall i :: 0 <= i < |lists[p]| && lists[p][i] != e ==> e.ticket < lists[p][i].ticket
  }

  /** Popping hands out the oldest task of the lowest-numbered list that is not empty. */
  lemma PopOk(s: State)
    requires DataOk(s) && s.size > 0
    ensures var (lists, got) := Pop(s.lists);
            && got.Some?
            && DataOk(s.(lists := lists, size := s.size - 1, handed := s.handed + [got.value]))
            && exists p :: IsNext(s.lists, p, got.value)
  {
    hide Queued;
    PopQueued(s.lists);
    var p := First(s.lists);
    RemoveOrder(s.lists, p, 0, s.total);
    assert s.lists[p][..0] + s.lists[p][1..] == s.lists[p][1..];
    assert ListInOrder(s.lists[p], s.total);
    assert IsNext(s.lists, p, s.lists[p][0]);
  }

  lemma EraseOk(s: State, priority: nat, op: nat)
    requires DataOk(s) && priority < MAX_PRIORITY_NUM
    ensures var (lists, found) := Erase(s.lists, priority, op);
            found.Some? ==> DataOk(s.(lists := lists, size := s.size - 1, deleted := s.deleted + [found.value]))
  {
    hide Queued;
    EraseQueued(s.lists, priority, op);
    var k := Place(s.lists[priority], op);
    if k < |s.lists[priority]| {
      RemoveOrder(s.lists, priority, k, s.total);
    }
  }

  /** The synchronisation part of the invariant. */
  ghost predicate SyncOk(s: State) {
    Balanced(s) && Exclusive(s) && forall t :: t in s.threads ==> PcOk(s.threads[t])
  }

  /** What a thread takes out of the semaphore's account: a token in its hand, or a task whose token it still owes. */
  function Debt(pc: Pc): int { if HasToken(pc) || pc.AddGive? then 1 else 0 }

  /** A thread starts, or goes on without the lock. */
  lemma Moved(s: State, r: State, t: nat, pc: Pc)
    requires SyncOk(s) && r.threads == s.threads[t := pc] && r.owner == s.owner && PcOk(pc)
    requires (t in s.threads ==> !HoldsLock(s.threads[t])) && !HoldsLock(pc)
    requires r.size - r.sem - Debt(pc) == s.size - s.sem - if t in s.threads then Debt(s.threads[t]) else 0
    ensures SyncOk(r)
  {
    hide Tokens;
    TokensPut(s.threads, t, pc);
  }

  /** A thread takes the free lock. */
  lemma Locked(s: State, r: State, t: nat, pc: Pc)
    requires SyncOk(s) && r.threads == s.threads[t := pc] && s.owner == None && r.owner == Some(t) && PcOk(pc)
    requires t in s.threads && HoldsLock(pc) && !pc.AddGive?
    requires r.size - r.sem - Debt(pc) == s.size - s.sem - Debt(s.threads[t])
    ensures SyncOk(r)
  {
    hide Tokens;
    TokensPut(s.threads, t, pc);
  }

  /** A thread goes on with the lock. */
  lemma Held(s: State, r: State, t: nat, pc: Pc)
    requires SyncOk(s) && r.threads == s.threads[t := pc] && r.owner == s.owner && PcOk(pc)
    requires t in s.threads && HoldsLock(s.threads[t]) && HoldsLock(pc)
    requires r.size - r.sem - Debt(pc) == s.size - s.sem - Debt(s.threads[t])
    ensures SyncOk(r)
  {
    hide Tokens;
    TokensPut(s.threads, t, pc);
  }

  /** A call ends. */
  lemma Left(s: State, r: State, t: nat)
    requires SyncOk(s) && t in s.threads && r.threads == s.threads - {t} && Debt(s.threads[t]) == 0
    requires r.owner == if HoldsLock(s.threads[t]) then None else s.owner
    requires r.size == s.size && r.sem == s.sem
    ensures SyncOk(r)
  {
    hide Tokens;
    TokensGone(s.threads, t);
  }

  /** Who has a token with the lock in hand finds a task. */
  lemma TokenFindsTask(s: State, t: nat)
    requires Inv(s) && t in s.threads && s.threads[t].GetPop?
    ensures s.size > 0
  {
    assert s.owner == Some(t);
    assert t in Tokens(s.threads);
    Drop(Tokens(s.threads), t);
  }

  predicate MovesFreely(pc: Pc) { pc.AddCheck? || pc.GetTake? || pc.DelTake? }

  predicate Leaves(pc: Pc) { pc.AddUnlock? || pc.GetUnlock? || pc.DelUnlock? || pc.StopUnlock? }

  lemma SyncFree(s: State, e: Event)
    requires Inv(s) && Legal(s, e) && e.Move? && MovesFreely(s.threads[e.t])
    ensures SyncOk(Step(s, e))
  {
    hide SyncOk, Push, Pop, Erase, DataOk, Balanced, Exclusive;
    InvParts(s);
    var t, r := e.t, Step(s, e);
    if t in r.threads {
      Moved(s, r, t, r.threads[t]);
    } else {
      Left(s, r, t);
    }
  }

  lemma SyncLock(s: State, e: Event)
    requires Inv(s) && Legal(s, e) && e.Move? && TakesLock(s.threads[e.t])
    ensures SyncOk(Step(s, e))
  {
    hide SyncOk, Push, Pop, Erase, DataOk, Balanced, Exclusive;
    InvParts(s);
    var t, r := e.t, Step(s, e);
    Locked(s, r, t, r.threads[t]);
  }

  lemma SyncLeave(s: State, e: Event)
    requires Inv(s) && Legal(s, e) && e.Move? && Leaves(s.threads[e.t])
    ensures SyncOk(Step(s, e))
  {
    hide SyncOk, Push, Pop, Erase, DataOk, Balanced, Exclusive;
    InvParts(s);
    var t, r := e.t, Step(s, e);
    Left(s, r, t);
  }

  lemma SyncHeld(s: State, e: Event)
    requires Inv(s) && Legal(s, e) && e.Move? && HoldsLock(s.threads[e.t]) && !Leaves(s.threads[e.t])
    ensures SyncOk(Step(s, e))
  {
    hide SyncOk, Push, Pop, Erase, DataOk, Balanced, Exclusive;
    InvParts(s);
    var t, r := e.t, Step(s, e);
    if s.threads[t].GetPop? {
      TokenFindsTask(s, t);
      PopOk(s);
    }
    Held(s, r, t, r.threads[t]);
  }

  /** Every step keeps the accounts of semaphore, tokens and lock. */
  lemma {:induction false} SyncKept(s: State, e: Event)
    requires Inv(s) && Legal(s, e)
    ensures SyncOk(Step(s, e))
  {
    hide Step, DataOk, SyncOk, Balanced, Exclusive;
    if e.Begin? {
      SyncBegin(s, e);
    } else if MovesFreely(s.threads[e.t]) {
      SyncFree(s, e);
    } else if TakesLock(s.threads[e.t]) {
      SyncLock(s, e);
    } else if Leaves(s.threads[e.t]) {
      SyncLeave(s, e);
    } else {
      SyncHeld(s, e);
    }
  }

  lemma SyncBegin(s: State, e: Event)
    requires Inv(s) && Legal(s, e) && e.Begin?
    ensures SyncOk(Step(s, e))
  {
    hide SyncOk, Push, Pop, Erase, DataOk, Balanced, Exclusive;
    InvParts(s);
    var t, r := e.t, Step(s, e);
    Moved(s, r, t, Start(e.call));
  }

  lemma InvParts(s: State)
    requires Inv(s)
    ensures SyncOk(s) && DataOk(s) && |s.lists| == MAX_PRIORITY_NUM
  {
  }

  /** Every step keeps what the lock protects. */
  lemma DataKept(s: State, e: Event)
    requires Inv(s) && Legal(s, e)
    ensures DataOk(Step(s, e))
  {
    hide Step, SyncOk, DataOk, Inv;
    if e.Begin? {
      DataBegin(s, e);
    } else if s.threads[e.t].AddPush? {
      DataPush(s, e);
    } else if s.threads[e.t].GetPop? {
      DataPop(s, e);
    } else if s.threads[e.t].DelFind? {
      DataErase(s, e);
    } else {
      DataElse(s, e);
    }
  }

  lemma DataBegin(s: State, e: Event)
    requires Inv(s) && Legal(s, e) && e.Begin?
    ensures DataOk(Step(s, e))
  {
    hide DataOk, SyncOk;
    InvParts(s);
    SameData(s, Step(s, e));
  }

  lemma DataPush(s: State, e: Event)
    requires Inv(s) && Legal(s, e) && e.Move? && s.threads[e.t].AddPush?
    ensures DataOk(Step(s, e))
  {
    hide DataOk, SyncOk, Push;
    InvParts(s);
    if s.stop {
      SameData(s, Step(s, e));
    } else {
      var priority, entry := s.threads[e.t].priority, Entry(s.threads[e.t].op, s.total);
      PushOk(s, priority, entry);
      SameData(s.(lists := Push(s.lists, priority, entry), size := s.size + 1, total := s.total + 1,
                  accepted := s.accepted + [entry]), Step(s, e));
    }
  }

  lemma DataPop(s: State, e: Event)
    requires Inv(s) && Legal(s, e) && e.Move? && s.threads[e.t].GetPop?
    ensures DataOk(Step(s, e))
  {
    hide DataOk, SyncOk, Pop;
    InvParts(s);
    TokenFindsTask(s, e.t);
    PopOk(s);
    var (lists, got) := Pop(s.lists);
    SameData(s.(lists := lists, size := s.size - 1, handed := s.handed + [got.value]), Step(s, e));
  }

  lemma DataErase(s: State, e: Event)
    requires Inv(s) && Legal(s, e) && e.Move? && s.threads[e.t].DelFind?
    ensures DataOk(Step(s, e))
  {
    hide DataOk, SyncOk, Erase;
    InvParts(s);
    var pc := s.threads[e.t];
    EraseOk(s, pc.priority, pc.op);
    var (lists, found) := Erase(s.lists, pc.priority, pc.op);
    if found.Some? {
      SameData(s.(lists := lists, size := s.size - 1, deleted := s.deleted + [found.value]), Step(s, e));
    } else {
      SameData(s, Step(s, e));
    }
  }

  lemma {:induction false} DataElse(s: State, e: Event)
    requires Inv(s) && Legal(s, e) && e.Move?
    requires !s.threads[e.t].AddPush? && !s.threads[e.t].GetPop? && !s.threads[e.t].DelFind?
    ensures DataOk(Step(s, e))
  {
    hide DataOk, SyncOk, Push, Pop, Erase;
    InvParts(s);
    SameData(s, Step(s, e));
  }

  lemma SameData(s: State, r: State)
    requires DataOk(s) && r.lists == s.lists && r.size == s.size && r.total == s.total
    requires r.accepted == s.accepted && r.handed == s.handed && r.deleted == s.deleted
    ensures DataOk(r)
  {
  }

  /** Whatever is possible is legal, and leads to a state that is in order again. */
  lemma {:induction false} StepKeeps(s: State, e: Event)
    requires Inv(s) && Enabled(s, e)
    ensures Legal(s, e) && Inv(Step(s, e))
  {
    hide Step, Balanced, Exclusive;
    SyncKept(s, e);
    DataKept(s, e);
  }

  // ---------------------------------------------------------------- runs

  predicate Runs(s: State, events: seq<Event>)
    decreases events
  {
    events == [] || (Legal(s, events[0]) && Runs(Step(s, events[0]), events[1..]))
  }

  function Final(s: State, events: seq<Event>): State
    requires Runs(s, events)
    decreases events
  {
    if events == [] then s else Final(Step(s, events[0]), events[1..])
  }

  lemma InitialOk()
    ensures Inv(Initial())
  {
    NothingQueued(Initial().lists);
    assert Tokens(map[]) == {};
  }

  lemma {:induction false} NothingQueued(lists: Lists)
    requires forall i :: 0 <= i < |lists| ==> lists[i] == []
    ensures Queued(lists) == multiset{}
  {
    if lists != [] {
      NothingQueued(lists[..|lists| - 1]);
    }
  }

  /** The invariant holds after every interleaving of any number of threads. */
  lemma {:induction false} RunsKeep(s: State, events: seq<Event>)
    requires Inv(s) && Runs(s, events)
    ensures Inv(Final(s, events))
    decreases events
  {
    hide Inv, Step;
    if events != [] {
      assert Enabled(s, events[0]);
      StepKeeps(s, events[0]);
      RunsKeep(Step(s, events[0]), events[1..]);
    }
  }

  /** Every step is only one that can be taken; whether it is legal is not asked. */
  predicate Possible(s: State, events: seq<Event>)
    decreases events
  {
    events == []
    || (Enabled(s, events[0]) && (Legal(s, events[0]) ==> Possible(Step(s, events[0]), events[1..])))
  }

  lemma {:induction false} PossibleRuns(s: State, events: seq<Event>)
    requires Inv(s)
    ensures Possible(s, events) <==> Runs(s, events)
    decreases events
  {
    hide Inv, Step, Legal;
    if events != [] && Enabled(s, events[0]) {
      StepKeeps(s, events[0]);
      PossibleRuns(Step(s, events[0]), events[1..]);
    }
    LegalEnabled(s, events);
  }

  lemma LegalEnabled(s: State, events: seq<Event>)
    ensures events != [] && Legal(s, events[0]) ==> Enabled(s, events[0])
  {
  }

  /** From the start whatever is possible is legal, and the invariant holds whatever happens. */
  lemma {:induction false} RunsFromInitial(events: seq<Event>)
    ensures Possible(Initial(), events) <==> Runs(Initial(), events)
    ensures Runs(Initial(), events) ==> Inv(Final(Initial(), events))
  {
    hide Inv, Step, Legal;
    InitialOk();
    PossibleRuns(Initial(), events);
    if Runs(Initial(), events) {
      RunsKeep(Initial(), events);
    }
  }

  /**
    A getter that holds a token gets a task, and the task is the oldest one of the lowest-numbered list that is not
    empty.
   */
  lemma GetterGetsOldest(s: State, t: nat, broken: bool)
    requires Inv(s) && t in s.threads && s.threads[t].GetPop?
    ensures Legal(s, Move(t, broken))
    ensures var r := Step(s, Move(t, broken));
            && t in r.threads && r.threads[t].GetUnlock? && r.threads[t].got.Some?
            && var e := r.threads[t].got.value;
               r.handed == s.handed + [e] && exists p :: IsNext(s.lists, p, e)
  {
    hide Queued, Pop, Balanced, Exclusive, InAgeOrder;
    TokenFindsTask(s, t);
    PopOk(s);
  }

  /** Every accepted task is queued, handed out or deleted, and only one of these, once. */
  lemma EachOnce(s: State, e: Entry)
    requires Inv(s) && e in s.accepted
    ensures Queued(s.lists)[e] + multiset(s.handed)[e] + multiset(s.deleted)[e] == 1
  {
    hide Queued, Balanced, Exclusive, InAgeOrder;
    var k := e.ticket;
    var i :| 0 <= i < |s.accepted| && s.accepted[i] == e;
    ListSplit(s.accepted, k);
    var rest := s.accepted[..k] + s.accepted[k + 1..];
    assert i == k;
    assert e !in multiset(rest);
    assert multiset(s.accepted)[e] == 1;
  }

  /** What is handed out or deleted was accepted. */
  lemma OnlyAccepted(s: State, e: Entry)
    requires Inv(s) && (e in s.handed || e in s.deleted || e in Queued(s.lists))
    ensures e in s.accepted
  {
    hide Queued, Balanced, Exclusive, InAgeOrder;
    assert e in multiset(s.accepted);
  }

  /** Once the queue is stopped nothing is accepted any more. */
  lemma {:induction false} NothingAfterStop(s: State, events: seq<Event>)
    requires Inv(s) && Runs(s, events) && s.stop
    ensures Final(s, events).stop && Final(s, events).accepted == s.accepted
    decreases events
  {
    hide Inv, Push, Pop, Erase;
    if events != [] {
      StepKeeps(s, events[0]);
      NothingAfterStop(Step(s, events[0]), events[1..]);
    }
  }

  /** No thread holds or owes a token. */
  predicate Settled(s: State) { forall t :: t in s.threads ==> Debt(s.threads[t]) == 0 }

  /**
    The first step of del_task gives up exactly when the semaphore is 0. While no thread holds or owes a token this is
    when the queue is empty, as the comment in del_task has it.
   */
  lemma DelTakes(s: State, t: nat)
    requires Inv(s) && t in s.threads && s.threads[t].DelTake?
    ensures Legal(s, Move(t, false))
    ensures t !in Step(s, Move(t, false)).threads <==> s.sem == 0
    ensures Settled(s) ==> (s.sem == 0 <==> Queued(s.lists) == multiset{})
  {
    hide Queued, Partition, InAgeOrder;
    if Settled(s) {
      assert Tokens(s.threads) == {};
    }
  }

  /** try_get_task, too, gives up at once exactly if the semaphore is 0, and takes a token else. */
  lemma TryTakes(s: State, t: nat)
    requires Inv(s) && t in s.threads && s.threads[t] == GetTake(false)
    ensures Legal(s, Move(t, false))
    ensures var r := Step(s, Move(t, false));
            if s.sem == 0 then t !in r.threads && r.results == s.results[t := NoTask] && r.sem == 0
            else t in r.threads && r.threads[t] == GetLock && r.sem == s.sem - 1
  {
    hide Inv;
    InvParts(s);
  }

  lemma {:induction false} RunsSnoc(s: State, events: seq<Event>, e: Event)
    requires Runs(s, events) && Legal(Final(s, events), e)
    ensures Runs(s, events + [e]) && Final(s, events + [e]) == Step(Final(s, events), e)
    decreases events
  {
    hide Step, Legal;
    if events == [] {
      assert [] + [e] == [e] && [e][1..] == [];
    } else {
      RunsSnoc(Step(s, events[0]), events[1..], e);
      assert (events + [e])[1..] == events[1..] + [e];
    }
  }

  /**
    In general the comment in del_task does not hold: a task can be in its list and del_task still not find it, since a
    getter has taken the last token and is yet to take the lock.
   */
  lemma QueuedButNotFound() returns (events: seq<Event>)
    ensures Runs(Initial(), events)
    ensures var s := Final(Initial(), events);
            3 in s.results && s.results[3] == NotInQueue && s.lists != [] && s.lists[0] == [Entry(7, 0)]
  {
    hide Runs, Final;
    events := [];
    NoEvents(Initial());
    events := AddOne();
    var s := Final(Initial(), events);
    RunsSnoc(Initial(), events, Begin(2, GetTask));
    events := events + [Begin(2, GetTask)];
    RunsSnoc(Initial(), events, Move(2, false));
    events := events + [Move(2, false)];
    RunsSnoc(Initial(), events, Begin(3, DelTask(7, 0)));
    events := events + [Begin(3, DelTask(7, 0))];
    RunsSnoc(Initial(), events, Move(3, false));
    events := events + [Move(3, false)];
  }

  lemma NoEvents(s: State)
    ensures Runs(s, []) && Final(s, []) == s
  {
  }

  /** A whole add_task call on the new queue. */
  lemma AddOne() returns (events: seq<Event>)
    ensures Runs(Initial(), events)
    ensures var s := Final(Initial(), events);
            && s.threads == map[] && s.sem == 1 && s.owner == None && s.results.Keys == {1}
            && |s.lists| == MAX_PRIORITY_NUM && s.lists[0] == [Entry(7, 0)]
  {
    hide Runs, Final;
    NoEvents(Initial());
    events := [];
    RunsSnoc(Initial(), events, Begin(1, AddTask(7, 0)));
    events := events + [Begin(1, AddTask(7, 0))];
    RunsSnoc(Initial(), events, Move(1, false));
    events := events + [Move(1, false)];
    RunsSnoc(Initial(), events, Move(1, false));
    events := events + [Move(1, false)];
    RunsSnoc(Initial(), events, Move(1, false));
    events := events + [Move(1, false)];
    RunsSnoc(Initial(), events, Move(1, false));
    events := events + [Move(1, false)];
    RunsSnoc(Initial(), events, Move(1, false));
    events := events + [Move(1, false)];
  }

  // ---------------------------------------------------------------- delivery

  /** The task a thread has popped and is about to return, or has returned. */
  function Carried(s: State, t: nat): Option<Entry> {
    if t in s.threads then (if s.threads[t].GetUnlock? then s.threads[t].got else None)
    else if t in s.results && s.results[t].Got? then Some(s.results[t].entry)
    else None
  }

  /** Threads carry tasks that were handed out, and no two the same. */
  ghost predicate Delivery(s: State) {
    && (forall t :: t in s.threads ==> t !in s.results)
    && (forall t :: Carried(s, t).Some? ==> Carried(s, t).value in s.handed)
    && (forall t, u :: t != u && Carried(s, t).Some? && Carried(s, u).Some? ==> Carried(s, t) != Carried(s, u))
  }

  /** A thread goes on to something that carries no task, or returns what it carries. */
  ghost predicate Shape(s: State, r: State, t: nat) {
    && r.handed == s.handed
    && if t in r.threads then
         r.threads == s.threads[t := r.threads[t]] && r.results == s.results && !r.threads[t].GetUnlock?
         && (t in s.threads ==> !s.threads[t].GetUnlock?)
       else
         t in s.threads && r.threads == s.threads - {t} && t in r.results && r.results == s.results[t := r.results[t]]
         && (if s.threads[t].GetUnlock? then s.threads[t].got.Some? && r.results[t] == Got(s.threads[t].got.value)
             else !r.results[t].Got?)
  }

  lemma StepShape(s: State, e: Event)
    requires Legal(s, e) && (e.Move? ==> !s.threads[e.t].GetPop?)
    ensures Shape(s, Step(s, e), e.t)
  {
    hide Step, Shape;
    if e.Begin? {
      BeginShape(s, e);
    } else if MovesFreely(s.threads[e.t]) {
      FreeShape(s, e);
    } else if Leaves(s.threads[e.t]) {
      LeaveShape(s, e);
    } else {
      GoShape(s, e);
    }
  }

  lemma BeginShape(s: State, e: Event)
    requires Legal(s, e) && e.Begin?
    ensures Shape(s, Step(s, e), e.t)
  {
  }

  lemma FreeShape(s: State, e: Event)
    requires Legal(s, e) && e.Move? && MovesFreely(s.threads[e.t])
    ensures Shape(s, Step(s, e), e.t)
  {
    hide Push, Pop, Erase;
  }

  lemma LeaveShape(s: State, e: Event)
    requires Legal(s, e) && e.Move? && Leaves(s.threads[e.t])
    ensures Shape(s, Step(s, e), e.t)
  {
    hide Push, Pop, Erase;
  }

  lemma GoShape(s: State, e: Event)
    requires Legal(s, e) && e.Move? && !MovesFreely(s.threads[e.t]) && !Leaves(s.threads[e.t])
    requires !s.threads[e.t].GetPop?
    ensures Shape(s, Step(s, e), e.t)
  {
    hide Push, Pop, Erase;
  }

  /** Any other step than a pop: what threads carry stays the same. */
  lemma {:induction false} CarriedKept(s: State, e: Event)
    requires Legal(s, e) && (forall t :: t in s.threads ==> t !in s.results)
    requires e.Move? ==> !s.threads[e.t].GetPop?
    ensures var r := Step(s, e);
            && s.handed == r.handed && (forall t :: t in r.threads ==> t !in r.results)
            && forall t :: Carried(r, t) == Carried(s, t)
  {
    hide Step, Legal;
    StepShape(s, e);
    LegalThread(s, e);
  }

  lemma LegalThread(s: State, e: Event)
    requires Legal(s, e)
    ensures (e.t in s.threads <==> e.Move?) && (e.Begin? ==> e.t !in s.results)
  {
  }

  lemma DeliveryKept(s: State, e: Event)
    requires Inv(s) && Legal(s, e) && Delivery(s)
    ensures Delivery(Step(s, e))
  {
    hide Step, Carried, Inv;
    if e.Move? && s.threads[e.t].GetPop? {
      Fresh(s, e);
      OthersCarry(s, Step(s, e), e.t);
    } else {
      CarriedKept(s, e);
    }
  }

  lemma OthersCarry(s: State, r: State, t: nat)
    requires t in s.threads && r.results == s.results && t in r.threads && r.threads == s.threads[t := r.threads[t]]
    ensures forall u :: u != t ==> Carried(r, u) == Carried(s, u)
  {
  }

  /** A getter is handed a task that nobody was handed before. */
  lemma Fresh(s: State, e: Event)
    requires Inv(s) && Legal(s, e) && e.Move? && s.threads[e.t].GetPop?
    ensures var r := Step(s, e);
            && r.threads == s.threads[e.t := r.threads[e.t]] && r.results == s.results
            && Carried(r, e.t).Some? && Carried(r, e.t).value !in s.handed
            && r.handed == s.handed + [Carried(r, e.t).value]
  {
    hide Queued, Balanced, Exclusive, InAgeOrder;
    TokenFindsTask(s, e.t);
    PopOk(s);
    PopQueued(s.lists);
    var x := Pop(s.lists).1.value;
    OnlyAccepted(s, x);
    EachOnce(s, x);
    assert x !in multiset(s.handed);
  }

  lemma {:induction false} DeliveryRuns(s: State, events: seq<Event>)
    requires Inv(s) && Delivery(s) && Runs(s, events)
    ensures Delivery(Final(s, events))
    decreases events
  {
    hide Inv, Step, Delivery;
    if events != [] {
      assert Enabled(s, events[0]);
      DeliveryKept(s, events[0]);
      StepKeeps(s, events[0]);
      DeliveryRuns(Step(s, events[0]), events[1..]);
    }
  }

  /** In every interleaving each finished get returns an accepted task, and no two return the same. */
  lemma DeliveredOnce(events: seq<Event>, t: nat, u: nat)
    requires Runs(Initial(), events)
    ensures var s := Final(Initial(), events);
            && (t in s.results && s.results[t].Got? ==> s.results[t].entry in s.accepted)
            && (t != u && t in s.results && u in s.results && s.results[t].Got? && s.results[u].Got? ==>
                  s.results[t].entry != s.results[u].entry)
  {
    hide Runs, Final, Queued, Balanced, Exclusive, InAgeOrder;
    RunsFromInitial(events);
    InitialOk();
    DeliveryRuns(Initial(), events);
    var s := Final(Initial(), events);
    if t in s.results && s.results[t].Got? {
      assert Carried(s, t) == Some(s.results[t].entry);
      OnlyAccepted(s, s.results[t].entry);
      if u in s.results && s.results[u].Got? {
        assert Carried(s, u) == Some(s.results[u].entry);
      }
    }
  }

  // ---------------------------------------------------------------- what the calls report

  datatype Report = Nothing | Added | Taken | Erased

  /** The effect a thread is going to report, or has reported. */
  function Says(s: State, t: nat): Report {
    if t in s.threads then
      var pc := s.threads[t];
      if pc.AddGive? || pc == AddUnlock(true) then Added
      else if pc.GetUnlock? then Taken
      else if pc == DelUnlock(true) then Erased
      else Nothing
    else if t in s.results then
      if s.results[t].Accepted? then Added
      else if s.results[t].Got? then Taken
      else if s.results[t].Deleted? then Erased
      else Nothing
    else Nothing
  }

  ghost function Reporters(s: State, k: Report): set<nat> {
    set t | t in s.threads.Keys + s.results.Keys && Says(s, t) == k
  }

  function Happened(s: State, k: Report): nat {
    match k
    case Nothing => 0
    case Added => |s.accepted|
    case Taken => |s.handed|
    case Erased => |s.deleted|
  }

  /** For every kind of effect, as many calls report it as there were effects. */
  ghost predicate Honest(s: State) {
    forall k :: k != Nothing ==> |Reporters(s, k)| == Happened(s, k)
  }

  /** A step changes the report of its own thread only, from nothing to the effect it has. */
  ghost predicate ReportsStep(s: State, r: State, t: nat) {
    && (forall u :: u != t ==> Says(r, u) == Says(s, u))
    && (Says(s, t) == Nothing || Says(r, t) == Says(s, t))
    && forall k :: k != Nothing ==>
         Happened(r, k) == Happened(s, k) + if Says(s, t) == Nothing && Says(r, t) == k then 1 else 0
  }

  lemma ReportsCounted(s: State, r: State, t: nat)
    requires Honest(s) && ReportsStep(s, r, t)
    ensures Honest(r)
  {
    hide Says, Happened, Reporters;
    forall k | k != Nothing
      ensures |Reporters(r, k)| == Happened(r, k)
    {
      ReportersMember(s, k);
      ReportersMember(r, k);
      SetStep(Reporters(s, k), Reporters(r, k), t);
    }
  }

  /** Two sets that differ in one element at most. */
  lemma SetStep(a: set<nat>, b: set<nat>, t: nat)
    requires forall u :: u != t ==> (u in a <==> u in b)
    ensures |b| == |a| + (if t in b then 1 else 0) - (if t in a then 1 else 0)
  {
    assert a - {t} == b - {t};
    Drop(a, t);
    Drop(b, t);
  }

  lemma ReportersMember(s: State, k: Report)
    requires k != Nothing
    ensures forall t :: t in Reporters(s, k) <==> Says(s, t) == k
  {
  }

  /** Threads and results of the others stay, and the thread is in one of the two places it can be in. */
  lemma OthersSay(s: State, r: State, t: nat)
    requires forall u :: u != t ==> (u in r.threads <==> u in s.threads) && (u in r.results <==> u in s.results)
    requires forall u :: u != t && u in s.threads ==> r.threads[u] == s.threads[u]
    requires forall u :: u != t && u in s.results ==> r.results[u] == s.results[u]
    ensures forall u :: u != t ==> Says(r, u) == Says(s, u)
  {
  }

  lemma BeginReports(s: State, e: Event)
    requires Legal(s, e) && e.Begin?
    ensures ReportsStep(s, Step(s, e), e.t)
  {
    OthersSay(s, Step(s, e), e.t);
  }

  lemma FreeReports(s: State, e: Event)
    requires Legal(s, e) && e.Move? && MovesFreely(s.threads[e.t])
    ensures ReportsStep(s, Step(s, e), e.t)
  {
    hide Push, Pop, Erase;
    OthersSay(s, Step(s, e), e.t);
  }

  lemma LeaveReports(s: State, e: Event)
    requires Legal(s, e) && e.Move? && Leaves(s.threads[e.t])
    ensures ReportsStep(s, Step(s, e), e.t)
  {
    hide Push, Pop, Erase;
    OthersSay(s, Step(s, e), e.t);
  }

  lemma LockReports(s: State, e: Event)
    requires Legal(s, e) && e.Move? && TakesLock(s.threads[e.t])
    ensures ReportsStep(s, Step(s, e), e.t)
  {
    hide Push, Pop, Erase;
    OthersSay(s, Step(s, e), e.t);
  }

  lemma PopReports(s: State, e: Event)
    requires Inv(s) && Legal(s, e) && e.Move? && s.threads[e.t].GetPop?
    ensures ReportsStep(s, Step(s, e), e.t)
  {
    hide Pop, Inv;
    TokenFindsTask(s, e.t);
    InvParts(s);
    PopOk(s);
    OthersSay(s, Step(s, e), e.t);
  }

  lemma HeldReports(s: State, e: Event)
    requires Legal(s, e) && e.Move? && HoldsLock(s.threads[e.t]) && !Leaves(s.threads[e.t])
    requires !s.threads[e.t].GetPop?
    ensures ReportsStep(s, Step(s, e), e.t)
  {
    hide Push, Erase;
    OthersSay(s, Step(s, e), e.t);
  }

  lemma StepReports(s: State, e: Event)
    requires Inv(s) && Legal(s, e)
    ensures ReportsStep(s, Step(s, e), e.t)
  {
    hide Step, Inv, ReportsStep;
    if e.Begin? {
      BeginReports(s, e);
    } else if MovesFreely(s.threads[e.t]) {
      FreeReports(s, e);
    } else if Leaves(s.threads[e.t]) {
      LeaveReports(s, e);
    } else if TakesLock(s.threads[e.t]) {
      LockReports(s, e);
    } else if s.threads[e.t].GetPop? {
      PopReports(s, e);
    } else {
      HeldReports(s, e);
    }
  }

  lemma HonestKept(s: State, e: Event)
    requires Inv(s) && Legal(s, e) && Honest(s)
    ensures Honest(Step(s, e))
  {
    hide Step, Inv, Honest, ReportsStep;
    StepReports(s, e);
    ReportsCounted(s, Step(s, e), e.t);
  }

  lemma {:induction false} HonestRuns(s: State, events: seq<Event>)
    requires Inv(s) && Honest(s) && Runs(s, events)
    ensures Honest(Final(s, events))
    decreases events
  {
    hide Inv, Step, Honest;
    if events != [] {
      HonestKept(s, events[0]);
      StepKeeps(s, events[0]);
      HonestRuns(Step(s, events[0]), events[1..]);
    }
  }

  /**
    In every interleaving, once all calls have returned, as many adds have reported success as tasks were accepted, as
    many gets have returned a task as were handed out, and as many deletes have reported success as tasks were deleted.
   */
  lemma ReportsMatch(events: seq<Event>)
    requires Runs(Initial(), events)
    ensures var s := Final(Initial(), events);
            s.threads == map[] ==>
              && |set t | t in s.results && s.results[t] == Accepted| == |s.accepted|
              && |set t | t in s.results && s.results[t].Got?| == |s.handed|
              && |set t | t in s.results && s.results[t] == Deleted| == |s.deleted|
  {
    hide Runs, Final, Inv;
    InitialOk();
    InitialHonest();
    HonestRuns(Initial(), events);
    var s := Final(Initial(), events);
    if s.threads == map[] {
      assert (set t | t in s.results && s.results[t] == Accepted) == Reporters(s, Added);
      assert (set t | t in s.results && s.results[t].Got?) == Reporters(s, Taken);
      assert (set t | t in s.results && s.results[t] == Deleted) == Reporters(s, Erased);
    }
  }

  lemma InitialHonest()
    ensures Honest(Initial())
  {
    forall k | k != Nothing
      ensures Reporters(Initial(), k) == {}
    {
    }
  }
}
