/**
  Runs of the durable queue of equeue/equeue_imp.cpp: what every call keeps, what a restart recovers after a crash at
  any byte, and what a restart from a checkpoint recovers.
 */
module EqueueRuns {
  import opened Octets
  import opened EqueueCodec
  import opened EqueueLog

  // ---------------------------------------------------------------- files

  /** The bytes are what is left of whole records after a cut. */
  ghost predicate Written(bytes: seq<byte>) {
    exists all: seq<Op> :: AllFit(all) && bytes <= FrameAll(all)
  }

  lemma WrittenFits(bytes: seq<byte>)
    requires Written(bytes)
    ensures AllFit(Parse(bytes))
  {
    var all: seq<Op> :| AllFit(all) && bytes <= FrameAll(all);
    ParseCut(all, |bytes|);
    assert FrameAll(all)[..|bytes|] == bytes;
  }

  /** Cutting a file off leaves the records that survive whole. */
  lemma {:induction false} CutFile(bytes: seq<byte>, k: nat)
    requires Written(bytes)
    ensures var left, ops := if k < |bytes| then bytes[..k] else bytes, Parse(bytes);
            Written(left) && AllFit(ops) && Parse(left) == ops[..Whole(ops, k)]
  {
    hide FrameAll, Parse, Whole;
    var all: seq<Op> :| AllFit(all) && bytes <= FrameAll(all);
    var n := |bytes|;
    ParseCut(all, n);
    assert FrameAll(all)[..n] == bytes;
    var ops := Parse(bytes);
    WholeIsLargest(all, n);
    WholeIsLargest(ops, k);
    if k < n {
      assert FrameAll(all)[..k] == bytes[..k];
      ParseCut(all, k);
      WholeIsLargest(all, k);
      WholeOfPrefix(all, n, k);
    } else {
      assert ops[..|ops|] == ops;
    }
  }

  lemma WholeOfPrefix(all: seq<Op>, n: nat, k: nat)
    requires AllFit(all) && k < n
    ensures var m := Whole(all, n); Whole(all, k) <= m && Whole(all[..m], k) == Whole(all, k)
  {
    hide FrameAll, Whole;
    var m, w := Whole(all, n), Whole(all, k);
    WholeIsLargest(all, n);
    WholeIsLargest(all, k);
    WholeIsLargest(all[..m], k);
    var v := Whole(all[..m], k);
    assert |FrameAll(all[..w])| <= k;
    assert all[..m][..w] == all[..w];
    assert all[..m][..v] == all[..v];
  }

  lemma AppendRecord(ops: seq<Op>, o: Op)
    requires AllFit(ops) && Fits(o.cont)
    ensures AllFit(ops + [o]) && FrameAll(ops) + Frame(o) == FrameAll(ops + [o])
    ensures Written(FrameAll(ops + [o])) && Parse(FrameAll(ops + [o])) == ops + [o]
  {
    hide Frame, Parse;
    FrameAllSnoc(ops, o);
    ParseAll(ops + [o]);
    assert FrameAll(ops + [o]) <= FrameAll(ops + [o]);
  }

  lemma EmptyFile()
    ensures Written([]) && Parse([]) == [] && FrameAll([]) == []
  {
    assert AllFit([]) && [] <= FrameAll([]);
  }

  ghost predicate FilesOk(files: seq<LogFile>) {
    && (forall i :: 0 <= i < |files| ==> Written(files[i].bytes) && files[i].id > 0)
    && (forall i, j :: 0 <= i < j < |files| ==> files[i].id < files[j].id)
  }

  /** The last file holds whole records only. */
  ghost predicate LastWhole(files: seq<LogFile>) {
    && files != []
    && var bytes := files[|files| - 1].bytes;
       AllFit(Parse(bytes)) && bytes == FrameAll(Parse(bytes))
  }

  lemma {:induction false} OthersAll(files: seq<LogFile>, id: int32)
    requires forall i :: 0 <= i < |files| ==> files[i].id != id
    ensures Others(files, id) == files
  {
    if files != [] {
      OthersAll(files[..|files| - 1], id);
    }
  }

  lemma {:induction false} OpenedFiles(files: seq<LogFile>, id: int32)
    requires FilesOk(files) && id > 0 && forall i :: 0 <= i < |files| ==> files[i].id < id
    ensures Opened(files, id) == files + [LogFile(id, [])]
    ensures FilesOk(Opened(files, id)) && LastWhole(Opened(files, id)) && Records(Opened(files, id)) == Records(files)
  {
    hide Parse, FrameAll, Written, Others, Records, FilesOk, LastWhole;
    OthersIn(files, id);
    EmptyFile();
    FilesSnoc(files, LogFile(id, []));
  }

  lemma OthersIn(files: seq<LogFile>, id: int32)
    requires FilesOk(files) && forall i :: 0 <= i < |files| ==> files[i].id < id
    ensures Others(files, id) == files
  {
    OthersAll(files, id);
  }

  lemma {:induction false} FilesSnoc(files: seq<LogFile>, f: LogFile)
    requires FilesOk(files) && Written(f.bytes) && f.id > 0 && forall i :: 0 <= i < |files| ==> files[i].id < f.id
    ensures FilesOk(files + [f]) && Records(files + [f]) == Records(files) + Tag(f.id, Parse(f.bytes))
    ensures AllFit(Parse(f.bytes)) && f.bytes == FrameAll(Parse(f.bytes)) ==> LastWhole(files + [f])
  {
    hide Parse, FrameAll, Written;
    assert (files + [f])[..|files|] == files;
  }

  lemma {:induction false} AppendedFiles(files: seq<LogFile>, o: Op)
    requires FilesOk(files) && LastWhole(files) && Fits(o.cont)
    ensures FilesOk(Append(files, o)) && LastWhole(Append(files, o)) && |Append(files, o)| == |files|
    ensures Records(Append(files, o)) == Records(files) + [Rec(files[|files| - 1].id, o)]
    ensures Append(files, o)[|files| - 1].id == files[|files| - 1].id
  {
    hide Parse, FrameAll, Frame, Written;
    var last := |files| - 1;
    var ops := Parse(files[last].bytes);
    AppendRecord(ops, o);
    assert Append(files, o)[..last] == files[..last];
    assert Tag(files[last].id, ops + [o]) == Tag(files[last].id, ops) + [Rec(files[last].id, o)];
  }

  // ---------------------------------------------------------------- the invariant

  /** The records of the log, against the counters. */
  ghost predicate LogOk(recs: seq<Rec>, fileId: int, opId: int, taskId: int) {
    && InOrder(recs) && AddsGrow(recs) && EmptyDeletes(recs) && opId >= 0
    && forall i :: 0 <= i < |recs| ==>
         && 0 < recs[i].file <= fileId && 0 < recs[i].op.opId <= opId
         && (recs[i].op.cmd == OP_ADD || recs[i].op.cmd == OP_DEL)
         && (recs[i].op.cmd == OP_ADD ==> recs[i].op.taskId <= taskId && recs[i].op.fileId == recs[i].file)
  }

  /** Every task in memory is in the log. */
  ghost predicate TasksLogged(tasks: seq<Op>, recs: seq<Rec>) {
    forall i :: 0 <= i < |tasks| ==> tasks[i].cmd == OP_ADD && Rec(tasks[i].fileId, tasks[i]) in recs
  }

  ghost predicate Inv(q: Queue) {
    && FilesOk(q.files) && q.fileId >= 0
    && (forall i :: 0 <= i < |q.files| ==> q.files[i].id <= q.fileId)
    && (q.open ==> LastWhole(q.files) && q.files[|q.files| - 1].id == q.fileId)
    && LogOk(Records(q.files), q.fileId, q.mem.opId, q.mem.taskId)
    && q.sem == q.mem.cnt == |q.mem.tasks|
    && TasksLogged(q.mem.tasks, Records(q.files))
  }

  lemma InvFacts(q: Queue)
    requires Inv(q)
    ensures FilesOk(q.files) && (q.open ==> q.files != []) && (q.sem > 0 ==> q.mem.tasks != [])
  {
  }

  /** Afterwards a file of less than the block size is open: the old one, or a new one with the next id. */
  lemma CheckOpenKeeps(q: Queue)
    requires Inv(q) && Room(q)
    ensures var r := CheckOpen(q);
            && |r.files[|r.files| - 1].bytes| < 0x2000_0000
            && (r.fileId == q.fileId ==> q.open && r.files == q.files)
            && (r.fileId != q.fileId ==> r.fileId == q.fileId + 1 && r.files == q.files + [LogFile(r.fileId, [])])
    ensures var r := CheckOpen(q);
            && Inv(r) && r.open && r.mem == q.mem && r.sem == q.sem && Records(r.files) == Records(q.files)
            && q.fileId <= r.fileId && r.maxSize == q.maxSize && r.maxCnt == q.maxCnt
  {
    hide Records, LastWhole, FilesOk, LogOk, TasksLogged, Opened, Written;
    InvFacts(q);
    LogLater(Records(q.files), q.fileId, q.mem.opId, q.mem.taskId);
    if !(q.open && |q.files[|q.files| - 1].bytes| < DEFAULT_BLOCK_SIZE) {
      OpenedFiles(q.files, q.fileId + 1);
      OpenedIds(q.files, q.fileId + 1);
    }
  }

  lemma OpenedIds(files: seq<LogFile>, id: int32)
    requires FilesOk(files) && forall i :: 0 <= i < |files| ==> files[i].id < id
    ensures var r := Opened(files, id);
            r != [] && r[|r| - 1].id == id && forall i :: 0 <= i < |r| ==> r[i].id <= id
  {
    OthersAll(files, id);
  }

  lemma LogLater(recs: seq<Rec>, fileId: int, opId: int, taskId: int)
    requires LogOk(recs, fileId, opId, taskId)
    ensures LogOk(recs, fileId + 1, opId, taskId)
  {
  }

  lemma LogSnoc(recs: seq<Rec>, r: Rec, fileId: int, opId: int, taskId: int)
    requires LogOk(recs, fileId, opId, taskId) && r.file == fileId > 0 && r.op.opId == opId + 1
    requires (r.op.cmd == OP_ADD && r.op.taskId == taskId + 1 && r.op.fileId == fileId)
             || (r.op.cmd == OP_DEL && r.op.cont == [])
    ensures LogOk(recs + [r], fileId, opId + 1, if r.op.cmd == OP_ADD then taskId + 1 else taskId)
  {
  }

  lemma OpenIdPositive(q: Queue)
    requires Inv(q) && q.open
    ensures q.fileId > 0
  {
  }

  /** A record appended to the open file. */
  lemma {:induction false} LogOne(q: Queue, o: Op, tasks: seq<Op>)
    requires Inv(q) && q.open && Fits(o.cont) && IdsLeft(q.mem) && o.opId == q.mem.opId + 1
    requires (o.cmd == OP_ADD && o.taskId == q.mem.taskId + 1 && o.fileId == q.fileId && tasks == q.mem.tasks + [o])
             || (o.cmd == OP_DEL && o.cont == [] && tasks == q.mem.tasks)
    ensures var files := Append(q.files, o);
            && FilesOk(files) && LastWhole(files) && files[|files| - 1].id == q.fileId
            && (forall i :: 0 <= i < |files| ==> files[i].id <= q.fileId)
            && Records(files) == Records(q.files) + [Rec(q.fileId, o)]
            && LogOk(Records(files), q.fileId, o.opId, if o.cmd == OP_ADD then o.taskId else q.mem.taskId)
            && TasksLogged(tasks, Records(files))
  {
    hide Records, LastWhole, FilesOk, Frame, LogOk;
    OpenIdPositive(q);
    AppendedFiles(q.files, o);
    LogSnoc(Records(q.files), Rec(q.fileId, o), q.fileId, q.mem.opId, q.mem.taskId);
  }

  /**
    add_back: unless the queue is full, the task is written to the log under an operation and a task id no record on
    the disk has, into the open file or one with a new id, and then queued.
   */
  lemma {:induction false} AddBackLogs(q: Queue, cont: seq<byte>)
    requires Inv(q) && Room(q) && Fits(cont) && !Full(q)
    ensures var r := AddBack(q, cont);
            && r.mem.tasks != []
            && var o := r.mem.tasks[|r.mem.tasks| - 1];
               && Inv(r) && r.mem.tasks == q.mem.tasks + [o] && r.sem == q.sem + 1
               && o.cmd == OP_ADD && o.cont == cont && o.fileId == r.fileId
               && r.mem.taskId == o.taskId == q.mem.taskId + 1 && r.mem.opId == o.opId == q.mem.opId + 1
               && r.mem.size == q.mem.size + |cont| && r.mem.cnt == q.mem.cnt + 1
               && r.maxSize == q.maxSize && r.maxCnt == q.maxCnt
               && Records(r.files) == Records(q.files) + [Rec(r.fileId, o)]
               && forall i :: 0 <= i < |Records(q.files)| ==>
                    var e := Records(q.files)[i];
                    && e.op.opId < o.opId && (e.op.cmd == OP_ADD ==> e.op.taskId < o.taskId)
                    && e.file <= r.fileId && (e.file == r.fileId ==> q.open && r.fileId == q.fileId)
  {
    hide Records, CheckOpen, LastWhole, FilesOk, TasksLogged;
    InvFacts(q);
    CheckOpenKeeps(q);
    var q1 := CheckOpen(q);
    LogOne(q1, AddOp(q1, cont), q1.mem.tasks + [AddOp(q1, cont)]);
  }

  /** add_back refuses a task, and then changes nothing, exactly if the size or the number of tasks is at its limit. */
  lemma AddBackRefuses(q: Queue, cont: seq<byte>)
    requires Inv(q) && Room(q) && Fits(cont)
    ensures AddBack(q, cont) == q <==> q.mem.size >= q.maxSize || q.mem.cnt >= q.maxCnt
  {
    hide Inv, AddBack;
    InvFacts(q);
    if Full(q) {
      FullRefuses(q, cont);
    } else {
      AddBackLogs(q, cont);
    }
  }

  lemma FullRefuses(q: Queue, cont: seq<byte>)
    requires Full(q) && Room(q) && Fits(cont) && (q.open ==> q.files != [])
    ensures AddBack(q, cont) == q
  {
  }

  /**
    del: the log gains a delete record for the task id it is called with, and the memory does not change. Of the live
    records exactly those of this task go.
   */
  lemma {:induction false} DelLogs(q: Queue, id: int64, junk: int32)
    requires Inv(q) && Room(q)
    ensures var r, recs := Del(q, id, junk), Records(Del(q, id, junk).files);
            && recs != []
            && var o := recs[|recs| - 1].op;
               && Inv(r) && recs == Records(q.files) + [Rec(r.fileId, o)]
               && o.cmd == OP_DEL && o.taskId == id && o.cont == [] && o.opId == q.mem.opId + 1
               && r.mem == q.mem.(opId := o.opId) && r.sem == q.sem
               && r.maxSize == q.maxSize && r.maxCnt == q.maxCnt
               && Live(recs) == Without(Live(Records(q.files)), id)
               && forall i :: 0 <= i < |Records(q.files)| ==> Records(q.files)[i].op.opId < o.opId
  {
    hide Records, CheckOpen, LastWhole, FilesOk, TasksLogged, Live, Without;
    InvFacts(q);
    CheckOpenKeeps(q);
    var q1 := CheckOpen(q);
    LogOne(q1, DelOp(q1, id, junk), q1.mem.tasks);
    LiveSnoc(Records(q.files), Rec(q1.fileId, DelOp(q1, id, junk)));
  }

  /** get_front hands out the front task, which exists whenever the semaphore lets the caller through. */
  lemma GetFrontKeeps(q: Queue)
    requires Inv(q)
    ensures q.sem > 0 ==>
              && q.mem.tasks != [] && q.mem.tasks == [q.mem.tasks[0]] + GetFront(q).mem.tasks
              && GetFront(q).mem.size == q.mem.size - |q.mem.tasks[0].cont| && GetFront(q).sem == q.sem - 1
    ensures q.sem == 0 ==> GetFront(q) == q
    ensures Inv(GetFront(q)) && GetFront(q).files == q.files
  {
    hide Records, LastWhole, FilesOk, LogOk;
  }

  // ---------------------------------------------------------------- crash and restart

  /** The records whole in what is left of the log. */
  ghost function Surviving(files: seq<LogFile>, keep: nat): seq<Rec>
    requires FilesOk(files)
  {
    if files == [] then []
    else
      var f := files[|files| - 1];
      WrittenFits(f.bytes);
      Records(files[..|files| - 1]) + Tag(f.id, Parse(f.bytes)[..Whole(Parse(f.bytes), keep)])
  }

  lemma {:induction false} CutFiles(files: seq<LogFile>, keep: nat)
    requires FilesOk(files)
    ensures FilesOk(Cut(files, keep)) && Records(Cut(files, keep)) == Surviving(files, keep)
    ensures Surviving(files, keep) <= Records(files)
    ensures |Cut(files, keep)| == |files| && forall i :: 0 <= i < |files| ==> Cut(files, keep)[i].id == files[i].id
  {
    hide Parse, Whole, FrameAll, Written;
    if files != [] {
      var f := files[|files| - 1];
      WrittenFits(f.bytes);
      CutFile(f.bytes, keep);
      assert Cut(files, keep)[..|files| - 1] == files[..|files| - 1];
      var ops, n := Parse(f.bytes), Whole(Parse(f.bytes), keep);
      assert ops[..n] <= ops && Tag(f.id, ops[..n]) <= Tag(f.id, ops);
    }
  }

  lemma LogPrefix(recs: seq<Rec>, front: seq<Rec>, fileId: int, opId: int, taskId: int)
    requires LogOk(recs, fileId, opId, taskId) && front <= recs
    ensures LogOk(front, fileId, opId, taskId)
  {
    forall i | 0 <= i < |front|
      ensures front[i] == recs[i]
    {
    }
  }

  lemma {:induction false} SelectAll(recs: seq<Rec>)
    requires forall i :: 0 <= i < |recs| ==> Chosen(recs[i], 0, 0)
    ensures Select(recs, 0, 0) == recs
  {
    if recs != [] {
      SelectAll(recs[..|recs| - 1]);
    }
  }

  /** Loading a well-formed log. */
  lemma {:induction false} LoadExact(q: Queue, files: seq<LogFile>)
    requires FilesOk(files) && LogOk(Records(files), q.fileId, q.mem.opId, q.mem.taskId)
    ensures var r, recs := Load(q.maxSize, q.maxCnt, files, 0, 0), Records(files);
            && Inv(r) && !r.open && r.files == files
            && r.mem.tasks == Ops(Live(recs)) && r.sem == r.mem.cnt == |Live(recs)| && r.mem.size == AddedBytes(recs)
            && forall i :: 0 <= i < |recs| ==>
                 recs[i].file <= r.fileId && recs[i].op.opId <= r.mem.opId && recs[i].op.taskId <= r.mem.taskId
  {
    hide ApplyAll, ReplayFiles, Select, Live, AddedBytes, Written, Records, LastWhole, TasksLogged, LogOk;
    var recs, id := Records(files), if files == [] then 0 else files[|files| - 1].id;
    LogFacts(recs, q.fileId, q.mem.opId, q.mem.taskId);
    ReplayApplies(files, 0, 0);
    SelectAll(recs);
    ApplyExact(recs);
    RecordFiles(files, id);
    var m := ApplyAll(recs);
    LogReset(recs, q, id, m);
    LiveLogged(recs, q.fileId, q.mem.opId, q.mem.taskId);
  }

  lemma LogFacts(recs: seq<Rec>, fileId: int, opId: int, taskId: int)
    requires LogOk(recs, fileId, opId, taskId)
    ensures AddsGrow(recs) && EmptyDeletes(recs) && forall i :: 0 <= i < |recs| ==> Chosen(recs[i], 0, 0)
  {
  }

  /** The counters may be lowered to what the log needs. */
  lemma LogReset(recs: seq<Rec>, q: Queue, id: int, m: Memory)
    requires LogOk(recs, q.fileId, q.mem.opId, q.mem.taskId) && FilesUpTo(recs, id) && m.opId >= 0
    requires forall i :: 0 <= i < |recs| ==> recs[i].op.opId <= m.opId && recs[i].op.taskId <= m.taskId
    ensures LogOk(recs, id, m.opId, m.taskId)
  {
  }

  lemma LiveLogged(recs: seq<Rec>, fileId: int, opId: int, taskId: int)
    requires LogOk(recs, fileId, opId, taskId)
    ensures TasksLogged(Ops(Live(recs)), recs)
  {
    hide Live;
    forall i | 0 <= i < |Live(recs)|
      ensures Live(recs)[i] in recs && Live(recs)[i].op.cmd == OP_ADD
    {
      LiveMember(recs, Live(recs)[i]);
    }
  }

  ghost predicate FilesUpTo(recs: seq<Rec>, id: int) { forall i :: 0 <= i < |recs| ==> recs[i].file <= id }

  lemma {:induction false} RecordFiles(files: seq<LogFile>, id: int)
    requires forall i :: 0 <= i < |files| ==> files[i].id <= id
    ensures FilesUpTo(Records(files), id)
  {
    hide Parse;
    if files != [] {
      RecordFiles(files[..|files| - 1], id);
      var f := files[|files| - 1];
      assert FilesUpTo(Tag(f.id, Parse(f.bytes)), id);
    }
  }

  /**
    Restart after a crash that cuts the last file at any byte: the queue holds exactly the tasks whose add record
    survived whole and whose delete record did not, in log order; the counter and the semaphore are their number; and
    no surviving record has a larger task, operation or file id than the counters.
   */
  lemma {:induction false} CrashRecovers(q: Queue, keep: nat)
    requires Inv(q)
    ensures var r, recs := Crash(q, keep), Surviving(q.files, keep);
            && Inv(r) && recs <= Records(q.files) && Records(r.files) == recs
            && r.mem.tasks == Ops(Live(recs)) && r.sem == r.mem.cnt == |Live(recs)|
            && forall i :: 0 <= i < |recs| ==>
                 recs[i].file <= r.fileId && recs[i].op.opId <= r.mem.opId && recs[i].op.taskId <= r.mem.taskId
  {
    hide Records, Live, Surviving, LogOk, FilesOk, Load, Cut;
    CutFiles(q.files, keep);
    LogPrefix(Records(q.files), Surviving(q.files, keep), q.fileId, q.mem.opId, q.mem.taskId);
    LoadExact(q, Cut(q.files, keep));
  }

  // ---------------------------------------------------------------- runs

  /** A call, or a crash and the restart after it; a crash that keeps every byte is an orderly restart. */
  datatype Event =
    | AddBackEvent(cont: seq<byte>) | GetFrontEvent | DelEvent(id: int64, junk: int32) | CrashEvent(keep: nat)

  predicate Enabled(q: Queue, e: Event) {
    && Room(q) && (q.open ==> q.files != []) && (q.sem > 0 ==> q.mem.tasks != [])
    && (e.AddBackEvent? ==> Fits(e.cont))
  }

  function Step(q: Queue, e: Event): Queue
    requires Enabled(q, e)
  {
    match e
    case AddBackEvent(cont) => AddBack(q, cont)
    case GetFrontEvent => GetFront(q)
    case DelEvent(id, junk) => Del(q, id, junk)
    case CrashEvent(keep) => Crash(q, keep)
  }

  /** The calls stay within the range of the counters and of the content lengths. */
  predicate Runs(q: Queue, events: seq<Event>)
    decreases events
  {
    events == [] || (Enabled(q, events[0]) && Runs(Step(q, events[0]), events[1..]))
  }

  function Final(q: Queue, events: seq<Event>): Queue
    requires Runs(q, events)
    decreases events
  {
    if events == [] then q else Final(Step(q, events[0]), events[1..])
  }

  /** The front task is there when the semaphore is up, so the assertion in get_front cannot fail. */
  lemma {:induction false} StepKeeps(q: Queue, e: Event)
    requires Inv(q) && Room(q) && (e.AddBackEvent? ==> Fits(e.cont))
    ensures Enabled(q, e) && Inv(Step(q, e))
  {
    hide Inv, AddBack, Del, GetFront, Crash;
    InvFacts(q);
    match e
    case AddBackEvent(cont) =>
      if !Full(q) {
        AddBackLogs(q, cont);
      } else {
        FullRefuses(q, cont);
      }
    case GetFrontEvent => GetFrontKeeps(q);
    case DelEvent(id, junk) => DelLogs(q, id, junk);
    case CrashEvent(keep) => CrashRecovers(q, keep);
  }

  lemma {:induction false} RunKeeps(q: Queue, events: seq<Event>)
    requires Inv(q) && Runs(q, events)
    ensures Inv(Final(q, events))
    decreases events
  {
    hide Inv, Step;
    if events != [] {
      StepKeeps(q, events[0]);
      RunKeeps(Step(q, events[0]), events[1..]);
    }
  }

  /** A queue started on an empty directory. */
  function Start(maxSize: int, maxCnt: int): Queue { Load(maxSize, maxCnt, [], 0, 0) }

  lemma StartOk(maxSize: int, maxCnt: int)
    ensures Inv(Start(maxSize, maxCnt))
  {
  }

  /** Crash recovery for every run, however many crashes it has already been through. */
  lemma {:induction false} RunsRecover(maxSize: int, maxCnt: int, events: seq<Event>, keep: nat)
    requires Runs(Start(maxSize, maxCnt), events)
    ensures var q := Final(Start(maxSize, maxCnt), events);
            Inv(q) &&
            var r, recs := Crash(q, keep), Surviving(q.files, keep);
            && recs <= Records(q.files)
            && r.mem.tasks == Ops(Live(recs)) && r.sem == r.mem.cnt == |Live(recs)|
            && forall i :: 0 <= i < |recs| ==>
                 recs[i].file <= r.fileId && recs[i].op.opId <= r.mem.opId && recs[i].op.taskId <= r.mem.taskId
  {
    hide Inv, Start, Final, Live, Records, Surviving, Crash;
    StartOk(maxSize, maxCnt);
    RunKeeps(Start(maxSize, maxCnt), events);
    var q := Final(Start(maxSize, maxCnt), events);
    InvFacts(q);
    CrashRecovers(q, keep);
  }
}
