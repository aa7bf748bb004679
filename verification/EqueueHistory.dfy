/**
  What the callers of the durable queue of equeue/equeue_imp.cpp have asked for, against what a restart brings back:
  the log reflects every accepted add_back and every del of a run, with their arguments.
 */
module EqueueHistory {
  import opened Octets
  import opened EqueueCodec
  import opened EqueueLog
  import opened EqueueRuns

  /** An add_back that was accepted under an id, or a del of an id. */
  datatype Asked = Added(id: int, cont: seq<byte>) | Removed(id: int)

  /** One more event; a crash forgets the entries whose records did not survive it. */
  ghost function After(q: Queue, e: Event, done: seq<Asked>): seq<Asked>
    requires Enabled(q, e)
  {
    match e
    case AddBackEvent(cont) =>
      if q.mem.size >= q.maxSize || q.mem.cnt >= q.maxCnt then done else done + [Added(q.mem.taskId + 1, cont)]
    case GetFrontEvent => done
    case DelEvent(id, _) => done + [Removed(id)]
    case CrashEvent(keep) =>
      var survivors := |Records(Cut(q.files, keep))|;
      if survivors <= |done| then done[..survivors] else done
  }

  ghost function Asks(q: Queue, events: seq<Event>, done: seq<Asked>): seq<Asked>
    requires Runs(q, events)
    decreases events
  {
    if events == [] then done else Asks(Step(q, events[0]), events[1..], After(q, events[0], done))
  }

  // ---------------------------------------------------------------- the log reflects the calls

  ghost predicate SameAs(a: Asked, o: Op) {
    && o.taskId == a.id
    && if a.Added? then o.cmd == OP_ADD && o.cont == a.cont else o.cmd == OP_DEL
  }

  ghost predicate Reflects(done: seq<Asked>, recs: seq<Rec>) {
    |recs| == |done| && forall i :: 0 <= i < |done| ==> SameAs(done[i], recs[i].op)
  }

  lemma ReflectsSnoc(done: seq<Asked>, recs: seq<Rec>, a: Asked, r: Rec)
    requires Reflects(done, recs) && SameAs(a, r.op)
    ensures Reflects(done + [a], recs + [r])
  {
  }

  lemma ReflectsPrefix(done: seq<Asked>, recs: seq<Rec>, front: seq<Rec>)
    requires Reflects(done, recs) && front <= recs
    ensures |front| <= |done| && Reflects(done[..|front|], front)
  {
    forall i | 0 <= i < |front|
      ensures SameAs(done[..|front|][i], front[i].op)
    {
      assert front[i] == recs[i];
    }
  }

  lemma {:induction false} StepReflects(q: Queue, e: Event, done: seq<Asked>)
    requires Inv(q) && Enabled(q, e) && Reflects(done, Records(q.files))
    ensures Reflects(After(q, e, done), Records(Step(q, e).files))
  {
    hide Inv, Reflects, Records, AddBack, Del, GetFront, Load, Cut, Surviving, Live, Without;
    InvFacts(q);
    match e
    case AddBackEvent(cont) =>
      AddBackRefuses(q, cont);
      if !Full(q) {
        AddBackLogs(q, cont);
        var tasks := AddBack(q, cont).mem.tasks;
        ReflectsSnoc(done, Records(q.files), Added(q.mem.taskId + 1, cont),
                     Rec(AddBack(q, cont).fileId, tasks[|tasks| - 1]));
      }
    case GetFrontEvent => GetFrontKeeps(q);
    case DelEvent(id, junk) =>
      DelLogs(q, id, junk);
      var recs := Records(Del(q, id, junk).files);
      ReflectsSnoc(done, Records(q.files), Removed(id), recs[|recs| - 1]);
    case CrashEvent(keep) =>
      CrashFiles(q, keep);
      ReflectsPrefix(done, Records(q.files), Records(Cut(q.files, keep)));
  }

  lemma CrashFiles(q: Queue, keep: nat)
    requires Inv(q)
    ensures Crash(q, keep).files == Cut(q.files, keep) && Records(Cut(q.files, keep)) <= Records(q.files)
    ensures Records(Cut(q.files, keep)) == Surviving(q.files, keep)
  {
    hide Records, Cut, Surviving, ReplayFiles;
    CutFiles(q.files, keep);
  }

  lemma {:induction false} RunReflects(q: Queue, events: seq<Event>, done: seq<Asked>)
    requires Inv(q) && Runs(q, events) && Reflects(done, Records(q.files))
    ensures Inv(Final(q, events)) && Reflects(Asks(q, events, done), Records(Final(q, events).files))
    decreases events
  {
    hide Inv, Step, Reflects, Records, After;
    if events != [] {
      InvRoom(q, events[0]);
      StepKeeps(q, events[0]);
      StepReflects(q, events[0], done);
      RunReflects(Step(q, events[0]), events[1..], After(q, events[0], done));
    }
  }

  lemma InvRoom(q: Queue, e: Event)
    requires Enabled(q, e)
    ensures Room(q) && (e.AddBackEvent? ==> Fits(e.cont))
  {
  }

  // ---------------------------------------------------------------- what a restart brings back

  /** The adds with no later removal of the same id, in order. */
  ghost function Remaining(done: seq<Asked>): seq<Asked> {
    if done == [] then []
    else
      (if done[0].Added? && Removed(done[0].id) !in done[1..] then [done[0]] else []) + Remaining(done[1..])
  }

  /** They are exactly the adds that are not removed afterwards. */
  lemma {:induction false} RemainingMember(done: seq<Asked>, a: Asked)
    ensures a in Remaining(done) <==>
              exists i :: 0 <= i < |done| && done[i] == a && a.Added? && Removed(a.id) !in done[i + 1..]
  {
    if done != [] {
      RemainingMember(done[1..], a);
      if i :| 0 <= i < |done| && done[i] == a && a.Added? && Removed(a.id) !in done[i + 1..] {
        if i > 0 {
          assert done[1..][i - 1] == a && done[1..][i..] == done[i + 1..];
        }
      }
      if i :| 0 <= i < |done[1..]| && done[1..][i] == a && a.Added? && Removed(a.id) !in done[1..][i + 1..] {
        assert done[i + 1] == a && done[i + 2..] == done[1..][i + 1..];
      }
      if a == done[0] && a.Added? && Removed(a.id) !in done[1..] {
        assert done[0 + 1..] == done[1..];
      }
    }
  }

  lemma {:induction false} LiveRemains(done: seq<Asked>, recs: seq<Rec>)
    requires Reflects(done, recs)
    ensures |Live(recs)| == |Remaining(done)|
    ensures forall i :: 0 <= i < |Live(recs)| ==> SameAs(Remaining(done)[i], Live(recs)[i].op)
  {
    if done != [] {
      LiveRemains(done[1..], recs[1..]);
      RemovedReflected(done[1..], recs[1..], done[0].id);
    }
  }

  lemma RemovedReflected(done: seq<Asked>, recs: seq<Rec>, id: int)
    requires Reflects(done, recs) && -0x8000_0000_0000_0000 <= id < 0x8000_0000_0000_0000
    ensures Removed(id) in done <==> DeletedIn(recs, id)
  {
    if Removed(id) in done {
      var i :| 0 <= i < |done| && done[i] == Removed(id);
      assert SameAs(done[i], recs[i].op);
    }
    if DeletedIn(recs, id) {
      var j :| 0 <= j < |recs| && recs[j].op.cmd == OP_DEL && recs[j].op.taskId == id;
      assert SameAs(done[j], recs[j].op);
    }
  }

  /** A restart that loses no byte loses no record. */
  lemma OrderlyRestart(q: Queue, keep: nat)
    requires Inv(q) && (q.files != [] ==> |q.files[|q.files| - 1].bytes| <= keep)
    ensures Surviving(q.files, keep) == Records(q.files)
  {
    CutFiles(q.files, keep);
    assert Cut(q.files, keep) == q.files;
  }

  /**
    After any run from an empty directory and a restart the queue holds, in order, exactly the tasks that some add_back
    accepted and no later del named, with their contents - as far as the records survive, and without a loss all of
    them. What get_front has handed out comes back as long as it is not deleted.
   */
  lemma {:induction false} RestartRecoversAsked(maxSize: int, maxCnt: int, events: seq<Event>, keep: nat)
    requires Runs(Start(maxSize, maxCnt), events)
    ensures var q, done := Final(Start(maxSize, maxCnt), events), Asks(Start(maxSize, maxCnt), events, []);
            Inv(q) &&
            var tasks, n := Crash(q, keep).mem.tasks, |Surviving(q.files, keep)|;
            && n <= |done| && |tasks| == |Remaining(done[..n])|
            && (forall i :: 0 <= i < |tasks| ==> SameAs(Remaining(done[..n])[i], tasks[i]))
            && ((q.files != [] ==> |q.files[|q.files| - 1].bytes| <= keep) ==> done[..n] == done)
  {
    hide Inv, Start, Final, Asks, Live, Records, Surviving, Crash, Remaining, Reflects;
    StartOk(maxSize, maxCnt);
    NothingAsked(maxSize, maxCnt);
    var s := Start(maxSize, maxCnt);
    RunReflects(s, events, []);
    var q, done := Final(s, events), Asks(s, events, []);
    InvFacts(q);
    CrashRecovers(q, keep);
    var recs := Surviving(q.files, keep);
    ReflectsPrefix(done, Records(q.files), recs);
    LiveRemains(done[..|recs|], recs);
    if q.files != [] ==> |q.files[|q.files| - 1].bytes| <= keep {
      OrderlyRestart(q, keep);
      WholeReflected(done, recs);
    }
  }

  lemma NothingAsked(maxSize: int, maxCnt: int)
    ensures Reflects([], Records(Start(maxSize, maxCnt).files))
  {
  }

  lemma WholeReflected(done: seq<Asked>, recs: seq<Rec>)
    requires Reflects(done, recs)
    ensures done[..|recs|] == done
  {
  }
}
