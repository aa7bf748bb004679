/**
  Restarting the durable queue of equeue/equeue_imp.cpp from a checkpoint, what `dump` makes of that, and the size the
  queue computes while it replays its log.
 */
module EqueueCheckpoint {
  import opened Octets
  import opened EqueueCodec
  import opened EqueueLog
  import opened EqueueRuns

  // ---------------------------------------------------------------- checkpoints

  lemma SelectCons(r: Rec, rest: seq<Rec>, dumpFile: int, startOp: int)
    ensures Select([r] + rest, dumpFile, startOp) ==
              if Chosen(r, dumpFile, startOp) then [r] + Select(rest, dumpFile, startOp)
              else Select(rest, dumpFile, startOp)
  {
    SelectAppend([r], rest, dumpFile, startOp);
    assert [r][..0] == [];
  }

  lemma {:induction false} SelectWhole(recs: seq<Rec>, dumpFile: int, startOp: int)
    requires forall i :: 0 <= i < |recs| ==> Chosen(recs[i], dumpFile, startOp)
    ensures Select(recs, dumpFile, startOp) == recs
  {
    if recs != [] {
      SelectWhole(recs[..|recs| - 1], dumpFile, startOp);
    }
  }

  /** In an ordered log a checkpoint selects a suffix. */
  lemma {:induction false} SelectSuffix(recs: seq<Rec>, dumpFile: int, startOp: int) returns (k: nat)
    requires InOrder(recs)
    ensures k <= |recs| && Select(recs, dumpFile, startOp) == recs[k..]
  {
    if recs == [] {
      k := 0;
    } else if Chosen(recs[0], dumpFile, startOp) {
      k := 0;
      SelectWhole(recs, dumpFile, startOp);
    } else {
      k := SelectSuffix(recs[1..], dumpFile, startOp);
      SelectCons(recs[0], recs[1..], dumpFile, startOp);
      assert [recs[0]] + recs[1..] == recs;
      k := k + 1;
    }
  }

  /**
    A checkpoint never brings a deleted task back and never loses a live one behind it: the live tasks of the selected
    records are the selected ones of the live tasks.
   */
  lemma {:induction false} LiveOfSelected(recs: seq<Rec>, dumpFile: int, startOp: int)
    requires InOrder(recs)
    ensures Live(Select(recs, dumpFile, startOp)) == Select(Live(recs), dumpFile, startOp)
  {
    hide Live, Select;
    if recs == [] {
      LiveNone();
      SelectNone(dumpFile, startOp);
    } else {
      var r, rest := recs[0], recs[1..];
      assert recs == [r] + rest;
      if Chosen(r, dumpFile, startOp) {
        SelectWhole(recs, dumpFile, startOp);
        forall i | 0 <= i < |Live(recs)|
          ensures Chosen(Live(recs)[i], dumpFile, startOp)
        {
          LiveMember(recs, Live(recs)[i]);
        }
        SelectWhole(Live(recs), dumpFile, startOp);
      } else {
        LiveOfSelected(rest, dumpFile, startOp);
        SelectCons(r, rest, dumpFile, startOp);
        LiveCons(r, rest);
        SelectCons(r, Live(rest), dumpFile, startOp);
      }
    }
  }

  lemma SelectNone(dumpFile: int, startOp: int)
    ensures Select([], dumpFile, startOp) == []
  {
  }

  /** Restarting a queue from a checkpoint recovers the live tasks the checkpoint selects. */
  lemma CheckpointRecovers(q: Queue, dumpFile: int, startOp: int)
    requires Inv(q)
    ensures Load(q.maxSize, q.maxCnt, q.files, dumpFile, startOp).mem.tasks
         == Ops(Select(Live(Records(q.files)), dumpFile, startOp))
  {
    hide Select, Live, ApplyAll, ReplayFiles, Records, FilesOk, TasksLogged, LastWhole;
    var recs := Records(q.files);
    ReplayApplies(q.files, dumpFile, startOp);
    var k := SelectSuffix(recs, dumpFile, startOp);
    SuffixOk(recs, k);
    ApplyExact(recs[k..]);
    LiveOfSelected(recs, dumpFile, startOp);
  }

  lemma SuffixOk(recs: seq<Rec>, k: nat)
    requires AddsGrow(recs) && EmptyDeletes(recs) && k <= |recs|
    ensures AddsGrow(recs[k..]) && EmptyDeletes(recs[k..])
  {
  }

  // ---------------------------------------------------------------- dump

  /** The file and operation that `dump` writes down. */
  function DumpMark(q: Queue): (int, int) {
    if q.mem.tasks == [] then (q.fileId + 1, q.mem.opId + 1) else (q.mem.tasks[0].fileId, q.mem.tasks[0].opId)
  }

  /** dump closes the open file. */
  function Dump(q: Queue): Queue { q.(open := false) }

  lemma {:induction false} SelectMember(recs: seq<Rec>, r: Rec, dumpFile: int, startOp: int)
    ensures r in Select(recs, dumpFile, startOp) <==> r in recs && Chosen(r, dumpFile, startOp)
  {
    if recs != [] {
      SelectMember(recs[..|recs| - 1], r, dumpFile, startOp);
      assert recs == recs[..|recs| - 1] + [recs[|recs| - 1]];
    }
  }

  /**
    The mark names the front task's own file, but loading takes strictly later files only. So a restart after a dump
    recovers a live task if and only if its file is later than that of the front task; the front task itself is lost.
   */
  lemma DumpKeepsLaterFiles(q: Queue, r: Rec)
    requires Inv(q) && q.mem.tasks != [] && r in Live(Records(q.files))
    ensures var (dumpFile, startOp) := DumpMark(q);
            && Rec(dumpFile, q.mem.tasks[0]) in Records(q.files) && startOp == q.mem.tasks[0].opId
            && (r in Select(Live(Records(q.files)), dumpFile, startOp) <==> r.file > q.mem.tasks[0].fileId)
            && q.mem.tasks[0] !in Load(q.maxSize, q.maxCnt, q.files, dumpFile, startOp).mem.tasks
  {
    hide Select, Live, Load, FilesOk, LastWhole, Records;
    var (dumpFile, startOp) := DumpMark(q);
    var recs, front := Records(q.files), Rec(q.mem.tasks[0].fileId, q.mem.tasks[0]);
    SelectMember(Live(recs), r, dumpFile, startOp);
    LiveMember(recs, r);
    var i :| 0 <= i < |recs| && recs[i] == r;
    var j :| 0 <= j < |recs| && recs[j] == front;
    CheckpointRecovers(q, dumpFile, startOp);
    var kept := Select(Live(recs), dumpFile, startOp);
    forall k | 0 <= k < |Ops(kept)|
      ensures Ops(kept)[k] != q.mem.tasks[0]
    {
      SelectMember(Live(recs), kept[k], dumpFile, startOp);
      LiveMember(recs, kept[k]);
    }
  }

  /** After a dump of the empty queue the next file gets just the id in the mark, so nothing of it is recovered. */
  lemma DumpLosesNextFile(q: Queue, cont: seq<byte>)
    requires Inv(q) && q.mem.tasks == [] && Room(q) && Fits(cont) && !Full(q)
    ensures var (dumpFile, startOp) := DumpMark(q);
            var r := AddBack(Dump(q), cont);
            && |r.mem.tasks| == 1 && r.mem.tasks[0].fileId == dumpFile && r.mem.tasks[0].opId == startOp
            && Load(r.maxSize, r.maxCnt, r.files, dumpFile, startOp).mem.tasks == []
  {
    hide Select, Live, Load, FilesOk, LastWhole, Records, TasksLogged, LogOk;
    var (dumpFile, startOp) := DumpMark(q);
    var r := AddBack(Dump(q), cont);
    AddBackLogs(Dump(q), cont);
    CheckpointRecovers(r, dumpFile, startOp);
    var recs := Records(r.files);
    var kept := Select(Live(recs), dumpFile, startOp);
    FilesUpToLast(r);
    if kept != [] {
      SelectMember(Live(recs), kept[0], dumpFile, startOp);
      LiveMember(recs, kept[0]);
      assert false;
    }
  }

  lemma FilesUpToLast(q: Queue)
    requires Inv(q)
    ensures forall r :: r in Records(q.files) ==> r.file <= q.fileId
  {
  }

  // ---------------------------------------------------------------- the size after replay

  lemma {:induction false} AddedAppend(a: seq<Rec>, b: seq<Rec>)
    ensures AddedBytes(a + b) == AddedBytes(a) + AddedBytes(b)
  {
    if b == [] {
      assert a + b == a;
    } else {
      AddedAppend(a, b[..|b| - 1]);
      assert (a + b)[..|a + b| - 1] == a + b[..|b| - 1];
    }
  }

  lemma AddedCons(r: Rec, rest: seq<Rec>)
    ensures AddedBytes([r] + rest) == (if r.op.cmd == OP_ADD then |r.op.cont| else 0) + AddedBytes(rest)
  {
    AddedAppend([r], rest);
    assert [r][..0] == [];
  }

  /** Every task that was deleted had no content. */
  ghost predicate DeletedWereEmpty(recs: seq<Rec>) {
    forall i :: 0 <= i < |recs| && recs[i].op.cmd == OP_ADD && DeletedIn(recs[i + 1..], recs[i].op.taskId) ==>
      recs[i].op.cont == []
  }

  lemma DeletedWereEmptyCons(r: Rec, rest: seq<Rec>)
    ensures DeletedWereEmpty([r] + rest) <==>
              DeletedWereEmpty(rest) && (r.op.cmd == OP_ADD && DeletedIn(rest, r.op.taskId) ==> r.op.cont == [])
  {
    var recs := [r] + rest;
    assert forall i {:trigger rest[i]} :: 0 <= i < |rest| ==> recs[i + 1] == rest[i] && recs[i + 2..] == rest[i + 1..];
    assert recs[1..] == rest && recs[0] == r;
    if DeletedWereEmpty(recs) {
      forall i | 0 <= i < |rest| && rest[i].op.cmd == OP_ADD && DeletedIn(rest[i + 1..], rest[i].op.taskId)
        ensures rest[i].op.cont == []
      {
        assert recs[i + 1] == rest[i];
      }
    }
    if DeletedWereEmpty(rest) && (r.op.cmd == OP_ADD && DeletedIn(rest, r.op.taskId) ==> r.op.cont == []) {
      forall i | 0 <= i < |recs| && recs[i].op.cmd == OP_ADD && DeletedIn(recs[i + 1..], recs[i].op.taskId)
        ensures recs[i].op.cont == []
      {
        if i > 0 {
          assert recs[i] == rest[i - 1];
        }
      }
    }
  }

  /** The replayed size, which is that of all adds, is that of the live tasks exactly if no deleted task had content. */
  lemma {:induction false} SizeExactIff(recs: seq<Rec>)
    ensures AddedBytes(recs) >= AddedBytes(Live(recs))
    ensures AddedBytes(recs) == AddedBytes(Live(recs)) <==> DeletedWereEmpty(recs)
  {
    hide Live, AddedBytes, DeletedWereEmpty;
    if recs == [] {
      LiveNone();
      NoneDeleted();
    } else {
      var r, rest := recs[0], recs[1..];
      assert recs == [r] + rest;
      SizeExactIff(rest);
      LiveCons(r, rest);
      AddedCons(r, rest);
      AddedCons(r, Live(rest));
      DeletedWereEmptyCons(r, rest);
    }
  }

  lemma NoneDeleted()
    ensures DeletedWereEmpty([])
  {
  }

  /**
    After a restart the queue refuses adds because of size exactly when everything ever added to the surviving log
    reaches the limit, however little of it is still queued.
   */
  lemma {:induction false} RestartSize(q: Queue, keep: nat)
    requires Inv(q)
    ensures var r, recs := Crash(q, keep), Surviving(q.files, keep);
            && (Full(r) <==> AddedBytes(recs) >= q.maxSize || |Live(recs)| >= q.maxCnt)
            && (r.mem.size == AddedBytes(Live(recs)) <==> DeletedWereEmpty(recs))
  {
    hide Records, Live, Surviving, LogOk, FilesOk, Load, Cut, AddedBytes, DeletedWereEmpty;
    CutFiles(q.files, keep);
    LogPrefix(Records(q.files), Surviving(q.files, keep), q.fileId, q.mem.opId, q.mem.taskId);
    LoadExact(q, Cut(q.files, keep));
    LoadLimits(q, Cut(q.files, keep));
    SizeExactIff(Surviving(q.files, keep));
  }

  lemma LoadLimits(q: Queue, files: seq<LogFile>)
    ensures var r := Load(q.maxSize, q.maxCnt, files, 0, 0); r.maxSize == q.maxSize && r.maxCnt == q.maxCnt
  {
  }
}
