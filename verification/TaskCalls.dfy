/**
  The calls behind the steps of TaskQueue: which task and priority every call was made with, and which call every
  accepted task comes from. So the order in which tasks are handed out is stated in terms of what add_task was given.
 */
module TaskCalls {
  import opened Wrappers
  import opened TaskQueue

  /** The calls made so far by their numbers, and for every ticket the add_task it was given to. */
  datatype Trace = Trace(s: State, calls: map<nat, Call>, adders: seq<nat>)

  ghost function Next(x: Trace, e: Event): Trace
    requires Legal(x.s, e)
  {
    var r := Step(x.s, e);
    Trace(r, if e.Begin? then x.calls[e.t := e.call] else x.calls,
          if |r.accepted| > |x.s.accepted| then x.adders + [e.t] else x.adders)
  }

  ghost function Follow(x: Trace, events: seq<Event>): Trace
    requires Runs(x.s, events)
    decreases events
  {
    if events == [] then x else Follow(Next(x, events[0]), events[1..])
  }

  ghost function Untouched(): Trace { Trace(Initial(), map[], []) }

  // ---------------------------------------------------------------- threads and results belong to their calls

  predicate Fits(c: Call, pc: Pc) {
    match pc
    case AddCheck(op, priority) => c == AddTask(op, priority)
    case AddLock(op, priority) => c == AddTask(op, priority)
    case AddPush(op, priority) => c == AddTask(op, priority)
    case AddGive => c.AddTask?
    case AddUnlock(_) => c.AddTask?
    case GetTake(waits) => c == if waits then GetTask else TryGetTask
    case GetLock => c.GetTask? || c.TryGetTask?
    case GetPop => c.GetTask? || c.TryGetTask?
    case GetUnlock(_) => c.GetTask? || c.TryGetTask?
    case DelTake(op, priority) => c == DelTask(op, priority)
    case DelLock(op, priority) => c == DelTask(op, priority)
    case DelFind(op, priority) => c == DelTask(op, priority)
    case DelGive => c.DelTask?
    case DelUnlock(_) => c.DelTask?
    case StopLock => c.Stop?
    case StopSet => c.Stop?
    case StopUnlock => c.Stop?
  }

  /** An add is invalid exactly for a priority out of range, and refused only when the queue has been stopped. */
  predicate Answers(c: Call, r: Result, stopped: bool) {
    match c
    case AddTask(_, priority) =>
      if priority >= 32 then r == InvalidPriority else r == Accepted || (r == Refused && stopped)
    case GetTask => r.Got? || r == NoTask
    case TryGetTask => r.Got? || r == NoTask
    case DelTask(_, _) => r == Deleted || r == NotInQueue
    case Stop => r == Stopped && stopped
  }

  /** What a thread already knows about the end of its call. */
  predicate Promises(c: Call, pc: Pc, stopped: bool) {
    && ((pc.AddLock? || pc.AddPush? || pc.AddGive? || pc.AddUnlock?) && c.AddTask? ==> c.priority < 32)
    && (pc == AddUnlock(false) || pc.StopUnlock? ==> stopped)
  }

  ghost predicate CallsFit(x: Trace) {
    && x.calls.Keys == x.s.threads.Keys + x.s.results.Keys
    && (forall t :: t in x.s.threads ==>
          Fits(x.calls[t], x.s.threads[t]) && Promises(x.calls[t], x.s.threads[t], x.s.stop))
    && forall t :: t in x.s.results ==> Answers(x.calls[t], x.s.results[t], x.s.stop)
  }

  /** A step moves its own thread only, on to its next place or to the end of its call. */
  ghost predicate Local(s: State, r: State, t: nat) {
    && (s.stop ==> r.stop)
    && if t in r.threads then r.threads == s.threads[t := r.threads[t]] && r.results == s.results
       else
         && t in s.threads && r.threads == s.threads - {t}
         && t in r.results && r.results == s.results[t := r.results[t]]
  }

  /** The thread of a step fits its call afterwards. */
  ghost predicate OwnFits(c: Call, r: State, t: nat) {
    if t in r.threads then Fits(c, r.threads[t]) && Promises(c, r.threads[t], r.stop)
    else t in r.results && Answers(c, r.results[t], r.stop)
  }

  lemma OwnBegins(s: State, e: Event)
    requires Legal(s, e) && e.Begin?
    ensures Local(s, Step(s, e), e.t) && OwnFits(e.call, Step(s, e), e.t) && Step(s, e).accepted == s.accepted
  {
  }

  lemma OwnMovesFreely(s: State, e: Event, c: Call)
    requires Legal(s, e) && e.Move? && MovesFreely(s.threads[e.t])
    requires Fits(c, s.threads[e.t]) && Promises(c, s.threads[e.t], s.stop)
    ensures Local(s, Step(s, e), e.t) && OwnFits(c, Step(s, e), e.t)
  {
    hide Push, Pop, Erase;
  }

  lemma OwnLeaves(s: State, e: Event, c: Call)
    requires Legal(s, e) && e.Move? && Leaves(s.threads[e.t])
    requires Fits(c, s.threads[e.t]) && Promises(c, s.threads[e.t], s.stop)
    ensures Local(s, Step(s, e), e.t) && OwnFits(c, Step(s, e), e.t)
  {
    hide Push, Pop, Erase;
  }

  lemma OwnLocks(s: State, e: Event, c: Call)
    requires Legal(s, e) && e.Move? && TakesLock(s.threads[e.t])
    requires Fits(c, s.threads[e.t]) && Promises(c, s.threads[e.t], s.stop)
    ensures Local(s, Step(s, e), e.t) && OwnFits(c, Step(s, e), e.t)
  {
    hide Push, Pop, Erase;
  }

  lemma OwnHolds(s: State, e: Event, c: Call)
    requires Legal(s, e) && e.Move? && HoldsLock(s.threads[e.t]) && !Leaves(s.threads[e.t])
    requires Fits(c, s.threads[e.t]) && Promises(c, s.threads[e.t], s.stop)
    ensures Local(s, Step(s, e), e.t) && OwnFits(c, Step(s, e), e.t)
  {
    hide Push, Pop, Erase;
  }

  lemma OwnSteps(s: State, e: Event, c: Call)
    requires Legal(s, e)
    requires if e.Begin? then c == e.call else Fits(c, s.threads[e.t]) && Promises(c, s.threads[e.t], s.stop)
    ensures Local(s, Step(s, e), e.t) && OwnFits(c, Step(s, e), e.t)
  {
    hide Step, Fits, Promises, Local, OwnFits;
    if e.Begin? {
      OwnBegins(s, e);
    } else if MovesFreely(s.threads[e.t]) {
      OwnMovesFreely(s, e, c);
    } else if Leaves(s.threads[e.t]) {
      OwnLeaves(s, e, c);
    } else if TakesLock(s.threads[e.t]) {
      OwnLocks(s, e, c);
    } else {
      OwnHolds(s, e, c);
    }
  }

  lemma CallsKept(x: Trace, e: Event)
    requires Legal(x.s, e) && CallsFit(x)
    ensures CallsFit(Next(x, e))
  {
    hide Step, Fits, Promises, Answers;
    LegalThread(x.s, e);
    var c := if e.Begin? then e.call else x.calls[e.t];
    OwnSteps(x.s, e, c);
    var r := Step(x.s, e);
    StopLater(x, r.stop);
  }

  /** What fits keeps fitting once the queue is stopped. */
  lemma StopLater(x: Trace, stop: bool)
    requires CallsFit(x) && (x.s.stop ==> stop)
    ensures forall t :: t in x.s.threads ==>
              Fits(x.calls[t], x.s.threads[t]) && Promises(x.calls[t], x.s.threads[t], stop)
    ensures forall t :: t in x.s.results ==> Answers(x.calls[t], x.s.results[t], stop)
  {
  }

  // ---------------------------------------------------------------- entries belong to accepted adds

  /** The entry is the task of the add_task its ticket was given to, which asked for this priority. */
  ghost predicate Entered(x: Trace, e: Entry, priority: nat) {
    e.ticket < |x.adders| && x.adders[e.ticket] in x.calls && x.calls[x.adders[e.ticket]] == AddTask(e.op, priority)
  }

  /** While it is queued an entry waits in the list of its priority. */
  ghost predicate ListsFit(x: Trace) {
    forall p: nat, e :: p < |x.s.lists| && e in x.s.lists[p] ==> Entered(x, e, p)
  }

  ghost predicate AddersFit(x: Trace) {
    && |x.adders| == |x.s.accepted|
    && forall k :: 0 <= k < |x.adders| ==>
         && x.adders[k] in x.calls && x.calls[x.adders[k]].AddTask?
         && x.s.accepted[k] == Entry(x.calls[x.adders[k]].op, k)
  }

  /** A call has been given a ticket exactly if it is going to report success or has done so, and then one only. */
  ghost predicate Reported(x: Trace) {
    && (forall t :: t in x.adders <==> Says(x.s, t) == Added)
    && forall i, j :: 0 <= i < j < |x.adders| ==> x.adders[i] != x.adders[j]
  }

  ghost predicate Origin(x: Trace) { CallsFit(x) && ListsFit(x) && AddersFit(x) && Reported(x) }

  /** Every list holds at most what it held. */
  ghost predicate Fewer(before: Lists, after: Lists) {
    |after| == |before| && forall p, e :: 0 <= p < |after| && e in after[p] ==> e in before[p]
  }

  /** The step that accepts: the task goes to the end of the list of its priority. */
  lemma PushStep(s: State, e: Event)
    requires Legal(s, e) && e.Move? && s.threads[e.t].AddPush? && !s.stop
    ensures var r, pc := Step(s, e), s.threads[e.t];
            var entry := Entry(pc.op, s.total);
            && r.accepted == s.accepted + [entry] && |r.lists| == |s.lists|
            && forall p :: 0 <= p < |s.lists| ==>
                 r.lists[p] == if p == pc.priority then s.lists[p] + [entry] else s.lists[p]
  {
  }

  /** Every other step. */
  lemma OtherStep(s: State, e: Event)
    requires Legal(s, e) && (e.Move? && s.threads[e.t].AddPush? ==> s.stop)
    ensures Step(s, e).accepted == s.accepted && Fewer(s.lists, Step(s, e).lists)
  {
    hide Push, Pop, Erase;
    PopFewer(s.lists);
    if e.Move? && s.threads[e.t].DelFind? {
      EraseFewer(s.lists, s.threads[e.t].priority, s.threads[e.t].op);
    }
  }

  lemma PopFewer(lists: Lists)
    ensures Fewer(lists, Pop(lists).0)
  {
  }

  lemma EraseFewer(lists: Lists, p: nat, op: nat)
    requires p < |lists|
    ensures Fewer(lists, Erase(lists, p, op).0)
  {
  }

  /** The calls that have a ticket stay as they are. */
  lemma AddersStay(x: Trace, e: Event)
    requires Legal(x.s, e) && CallsFit(x)
    ensures forall t :: t in x.calls ==> t in Next(x, e).calls && Next(x, e).calls[t] == x.calls[t]
  {
    hide Step;
  }

  lemma EntriesKept(x: Trace, e: Event)
    requires Inv(x.s) && Legal(x.s, e) && CallsFit(x) && ListsFit(x) && AddersFit(x)
    ensures ListsFit(Next(x, e)) && AddersFit(Next(x, e))
  {
    hide Step, Inv, CallsFit, Legal;
    AddersStay(x, e);
    TotalAccepted(x.s);
    if e.Move? && e.t in x.s.threads && x.s.threads[e.t].AddPush? && !x.s.stop {
      PushStep(x.s, e);
      PusherFits(x, e.t);
    } else {
      LegalThread(x.s, e);
      OtherStep(x.s, e);
    }
  }

  lemma TotalAccepted(s: State)
    requires Inv(s)
    ensures |s.accepted| == s.total
  {
  }

  lemma PusherFits(x: Trace, t: nat)
    requires CallsFit(x) && t in x.s.threads && x.s.threads[t].AddPush?
    ensures t in x.calls && x.calls[t] == AddTask(x.s.threads[t].op, x.s.threads[t].priority)
  {
  }

  lemma ReportedKept(x: Trace, e: Event)
    requires Inv(x.s) && Legal(x.s, e) && Reported(x)
    ensures Reported(Next(x, e))
  {
    hide Step, Inv, Says, Legal;
    StepReports(x.s, e);
    AcceptedCounted(x.s, Step(x.s, e), e.t);
  }

  lemma AcceptedCounted(s: State, r: State, t: nat)
    requires ReportsStep(s, r, t)
    ensures |r.accepted| > |s.accepted| <==> Says(s, t) == Nothing && Says(r, t) == Added
  {
    hide Says;
    assert Happened(r, Added) == Happened(s, Added) + if Says(s, t) == Nothing && Says(r, t) == Added then 1 else 0;
  }

  lemma OriginKept(x: Trace, e: Event)
    requires Inv(x.s) && Legal(x.s, e) && Origin(x)
    ensures Origin(Next(x, e))
  {
    hide Step, Inv, Legal, CallsFit, ListsFit, AddersFit, Reported, Next;
    CallsKept(x, e);
    EntriesKept(x, e);
    ReportedKept(x, e);
  }

  lemma {:induction false} FollowKeeps(x: Trace, events: seq<Event>)
    requires Inv(x.s) && Origin(x) && Runs(x.s, events)
    ensures Follow(x, events).s == Final(x.s, events) && Inv(Follow(x, events).s) && Origin(Follow(x, events))
    decreases events
  {
    hide Step, Inv, Origin;
    if events != [] {
      NextState(x, events[0]);
      StepKeeps(x.s, events[0]);
      OriginKept(x, events[0]);
      FollowKeeps(Next(x, events[0]), events[1..]);
    }
  }

  lemma NextState(x: Trace, e: Event)
    requires Legal(x.s, e)
    ensures Next(x, e).s == Step(x.s, e) && Enabled(x.s, e)
  {
    hide Step;
  }

  /**
    In every interleaving every queued entry waits in the list of the priority its add_task asked for, every accepted
    entry is the task of the add_task it belongs to, exactly the calls that report success have been accepted, once
    each, and every call has returned an answer of its kind.
   */
  lemma RunsFit(events: seq<Event>)
    requires Runs(Initial(), events)
    ensures var x := Follow(Untouched(), events);
            x.s == Final(Initial(), events) && Inv(x.s) && Origin(x)
  {
    hide Runs, Final, Follow, Inv;
    InitialOk();
    UntouchedFits();
    FollowKeeps(Untouched(), events);
  }

  lemma UntouchedFits()
    ensures Origin(Untouched()) && Untouched().s == Initial()
  {
  }

  // ---------------------------------------------------------------- the order of delivery

  ghost predicate IsQueued(s: State, e: Entry) { exists p :: 0 <= p < |s.lists| && e in s.lists[p] }

  /**
    A getter that holds a token gets a task that no queued task precedes: none was added with a lower priority number,
    and none with the same number was added before.
   */
  lemma GetterGetsFirst(x: Trace, t: nat, broken: bool, other: Entry)
    requires Inv(x.s) && Origin(x) && t in x.s.threads && x.s.threads[t].GetPop? && IsQueued(x.s, other)
    ensures Legal(x.s, Move(t, broken))
    ensures var r := Step(x.s, Move(t, broken));
            && t in r.threads && r.threads[t].GetUnlock? && r.threads[t].got.Some?
            && var e := r.threads[t].got.value;
               && r.handed == x.s.handed + [e] && IsQueued(x.s, e)
               && exists p: nat, q: nat ::
                    Entered(x, e, p) && Entered(x, other, q) && (p < q || (p == q && e.ticket <= other.ticket))
  {
    hide Inv, CallsFit, AddersFit, Reported, Step, Legal;
    GetterGetsOldest(x.s, t, broken);
    var e := Step(x.s, Move(t, broken)).threads[t].got.value;
    var p :| IsNext(x.s.lists, p, e);
    var q :| 0 <= q < |x.s.lists| && other in x.s.lists[q];
    assert Entered(x, e, p) && Entered(x, other, q);
    assert q >= p;
  }

  /**
    del_task with the lock in hand deletes a task exactly if one that was added with this task and priority is queued,
    and then the one that was added first.
   */
  lemma DeleterFindsFirst(x: Trace, t: nat, broken: bool)
    requires Inv(x.s) && Origin(x) && t in x.s.threads && x.s.threads[t].DelFind?
    ensures Legal(x.s, Move(t, broken)) && t in x.calls && x.calls[t].DelTask?
    ensures var r, c := Step(x.s, Move(t, broken)), x.calls[t];
            if exists e :: Matches(x, c, e) then
              exists e :: Matches(x, c, e) && r.deleted == x.s.deleted + [e]
                          && forall other :: Matches(x, c, other) ==> e.ticket <= other.ticket
            else r.deleted == x.s.deleted && r.lists == x.s.lists
  {
    hide Queued, Reported, AddersFit, Inv, Step, CallsFit, Matches, Place, Legal;
    FinderFits(x, t);
    var pc, c := x.s.threads[t], x.calls[t];
    InvParts(x.s);
    FindStep(x.s, t, broken);
    var l := x.s.lists[pc.priority];
    var k := Place(l, pc.op);
    InOrderAt(x.s, pc.priority);
    forall e
      ensures Matches(x, c, e) <==> e in l && e.op == pc.op
    {
      MatchesInList(x, c, e);
    }
    FirstPlace(l, pc.op, x.s.total);
    if k < |l| {
      assert Matches(x, c, l[k]);
    }
  }

  lemma FindStep(s: State, t: nat, broken: bool)
    requires Legal(s, Move(t, broken)) && t in s.threads && s.threads[t].DelFind?
    ensures var r, pc := Step(s, Move(t, broken)), s.threads[t];
            && pc.priority < |s.lists|
            && var l, k := s.lists[pc.priority], Place(s.lists[pc.priority], pc.op);
               if k < |l| then r.deleted == s.deleted + [l[k]] else r.deleted == s.deleted && r.lists == s.lists
  {
  }

  /** The first place of a task in an ordered list is the entry that was added first. */
  lemma FirstPlace(l: seq<Entry>, op: nat, total: nat)
    requires ListInOrder(l, total)
    ensures var k := Place(l, op);
            if k < |l| then l[k].op == op && forall e :: e in l && e.op == op ==> l[k].ticket <= e.ticket
            else forall e :: e in l ==> e.op != op
  {
  }

  /** A queued entry of an add_task with the task and priority of a del_task. */
  ghost predicate Matches(x: Trace, c: Call, e: Entry) {
    c.DelTask? && IsQueued(x.s, e) && Entered(x, e, c.priority) && e.op == c.op
  }

  lemma MatchesInList(x: Trace, c: Call, e: Entry)
    requires ListsFit(x) && c.DelTask? && c.priority < |x.s.lists|
    ensures Matches(x, c, e) <==> e in x.s.lists[c.priority] && e.op == c.op
  {
    if Matches(x, c, e) {
      var q :| 0 <= q < |x.s.lists| && e in x.s.lists[q];
      assert Entered(x, e, q);
    }
  }

  lemma FinderFits(x: Trace, t: nat)
    requires Inv(x.s) && CallsFit(x) && t in x.s.threads && x.s.threads[t].DelFind?
    ensures var pc := x.s.threads[t];
            t in x.calls && x.calls[t] == DelTask(pc.op, pc.priority) && pc.priority < |x.s.lists|
    ensures Legal(x.s, Move(t, true)) && Legal(x.s, Move(t, false))
  {
  }

  lemma InOrderAt(s: State, p: nat)
    requires DataOk(s) && p < |s.lists|
    ensures ListInOrder(s.lists[p], s.total)
  {
  }
}
