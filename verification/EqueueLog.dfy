/**
  The durable queue of equeue/equeue_imp.cpp as a state machine over its calls, with the log files as byte sequences
  and a crash step that cuts the last file at any byte. Each call is one step.
 */
module EqueueLog {
  import opened Octets
  import opened EqueueCodec

  const DEFAULT_BLOCK_SIZE := 512 * 1024 * 1024

  datatype LogFile = LogFile(id: int32, bytes: seq<byte>)

  /** What replay rebuilds. */
  datatype Memory = Memory(tasks: seq<Op>, size: int, cnt: int, opId: int64, taskId: int64)

  /** `open` says whether a file is open for appending; it is the last one of `files`, which are in order of time. */
  datatype Queue = Queue(maxSize: int, maxCnt: int, files: seq<LogFile>, open: bool, fileId: int32, mem: Memory,
                         sem: int)

  const Fresh := Memory([], 0, 0, 0, 0)

  // ---------------------------------------------------------------- tasks in memory

  function AddTask(m: Memory, o: Op): Memory {
    m.(tasks := m.tasks + [o], size := m.size + |o.cont|, cnt := m.cnt + 1)
  }

  /** Where the first task with this id is, or the number of tasks. */
  function Place(tasks: seq<Op>, id: int64): (k: nat)
    ensures k <= |tasks| && (k < |tasks| ==> tasks[k].taskId == id)
    ensures forall i :: 0 <= i < k ==> tasks[i].taskId != id
  {
    if tasks == [] || tasks[0].taskId == id then 0 else 1 + Place(tasks[1..], id)
  }

  /** del_task: the size shrinks by the content of the delete record. */
  function DelTask(m: Memory, o: Op): Memory {
    var k := Place(m.tasks, o.taskId);
    if k < |m.tasks| then m.(tasks := m.tasks[..k] + m.tasks[k + 1..], size := m.size - |o.cont|, cnt := m.cnt - 1)
    else m
  }

  function Max(a: int, b: int): int { if a > b then a else b }

  /** What one replayed record does. */
  function Apply(m: Memory, o: Op): Memory {
    var m := m.(taskId := Max(m.taskId, o.taskId), opId := Max(m.opId, o.opId));
    if o.cmd == OP_ADD then AddTask(m, o) else if o.cmd == OP_DEL then DelTask(m, o) else m
  }

  // ---------------------------------------------------------------- loading the log

  /** load_one_bin_log_file on the records of a file. */
  function ReplayOps(m: Memory, ops: seq<Op>, startOp: int): Memory {
    if ops == [] then m
    else
      var before, o := ReplayOps(m, ops[..|ops| - 1], startOp), ops[|ops| - 1];
      if o.opId < startOp then before else Apply(before, o)
  }

  /** load_from_bin_log_files after a checkpoint of file `dumpFile` and operation `startOp`; 0 and 0 without one. */
  function ReplayFiles(files: seq<LogFile>, dumpFile: int, startOp: int): Memory {
    if files == [] then Fresh
    else
      var before, f := ReplayFiles(files[..|files| - 1], dumpFile, startOp), files[|files| - 1];
      if f.id > dumpFile then ReplayOps(before, Parse(f.bytes), startOp) else before
  }

  /** init. */
  function Load(maxSize: int, maxCnt: int, files: seq<LogFile>, dumpFile: int, startOp: int): Queue {
    var m := ReplayFiles(files, dumpFile, startOp);
    Queue(maxSize, maxCnt, files, false, if files == [] then 0 else files[|files| - 1].id, m, m.cnt)
  }

  // ---------------------------------------------------------------- the calls

  /** The ids can still be counted up. */
  predicate Room(q: Queue) { q.fileId < 0x7fff_ffff && IdsLeft(q.mem) }

  predicate IdsLeft(m: Memory) { m.opId < 0x7fff_ffff_ffff_ffff && m.taskId < 0x7fff_ffff_ffff_ffff }

  /** Opening a file for writing empties a file of that name; either way it is the youngest then. */
  function Opened(files: seq<LogFile>, id: int32): seq<LogFile> { Others(files, id) + [LogFile(id, [])] }

  function Others(files: seq<LogFile>, id: int32): seq<LogFile> {
    if files == [] then []
    else Others(files[..|files| - 1], id) + if files[|files| - 1].id == id then [] else [files[|files| - 1]]
  }

  /** check_if_open_new_file. */
  function CheckOpen(q: Queue): (r: Queue)
    requires Room(q) && (q.open ==> q.files != [])
    ensures r.files != [] && r.open && r.mem == q.mem
  {
    if q.open && |q.files[|q.files| - 1].bytes| < DEFAULT_BLOCK_SIZE then q
    else q.(open := true, fileId := q.fileId + 1, files := Opened(q.files, q.fileId + 1))
  }

  /** Appending a record to the open file. */
  function Append(files: seq<LogFile>, o: Op): (r: seq<LogFile>)
    requires files != [] && Fits(o.cont)
    ensures |r| == |files|
  {
    var last := |files| - 1;
    files[last := LogFile(files[last].id, files[last].bytes + Frame(o))]
  }

  predicate Full(q: Queue) { q.mem.size >= q.maxSize || q.mem.cnt >= q.maxCnt }

  function AddOp(q: Queue, cont: seq<byte>): Op
    requires IdsLeft(q.mem)
  {
    Op(OP_ADD, q.mem.opId + 1, q.fileId, q.mem.taskId + 1, cont)
  }

  function AddBack(q: Queue, cont: seq<byte>): Queue
    requires Room(q) && Fits(cont) && (q.open ==> q.files != [])
  {
    if Full(q) then q
    else
      var q1 := CheckOpen(q);
      var o := AddOp(q1, cont);
      q1.(files := Append(q1.files, o), mem := AddTask(q1.mem, o).(opId := o.opId, taskId := o.taskId),
          sem := q.sem + 1)
  }

  /** del: only the log knows about it. The file id of the record is not initialised; here it is `junk`. */
  function DelOp(q: Queue, id: int64, junk: int32): Op
    requires IdsLeft(q.mem)
  {
    Op(OP_DEL, q.mem.opId + 1, junk, id, [])
  }

  function Del(q: Queue, id: int64, junk: int32): Queue
    requires Room(q) && (q.open ==> q.files != [])
  {
    var q1 := CheckOpen(q);
    var o := DelOp(q1, id, junk);
    q1.(files := Append(q1.files, o), mem := q1.mem.(opId := o.opId))
  }

  /** get_front; while the semaphore is 0 the caller waits and nothing happens. */
  function GetFront(q: Queue): Queue
    requires q.sem > 0 ==> q.mem.tasks != []
  {
    if q.sem <= 0 then q
    else
      var t := q.mem.tasks[0];
      q.(sem := q.sem - 1,
         mem := q.mem.(tasks := q.mem.tasks[1..], size := q.mem.size - |t.cont|, cnt := q.mem.cnt - 1))
  }

  /** The process dies, at most `keep` bytes of the last file are on the disk, and the queue is started again. */
  function Crash(q: Queue, keep: nat): Queue {
    Load(q.maxSize, q.maxCnt, Cut(q.files, keep), 0, 0)
  }

  function Cut(files: seq<LogFile>, keep: nat): seq<LogFile> {
    if files == [] then []
    else
      var f := files[|files| - 1];
      files[|files| - 1 := LogFile(f.id, if keep < |f.bytes| then f.bytes[..keep] else f.bytes)]
  }

  // ---------------------------------------------------------------- the log as records

  /** A record and the id of the file it is in. */
  datatype Rec = Rec(file: int32, op: Op)

  function Tag(id: int32, ops: seq<Op>): (recs: seq<Rec>)
    ensures |recs| == |ops| && forall i :: 0 <= i < |ops| ==> recs[i] == Rec(id, ops[i])
  {
    seq(|ops|, i requires 0 <= i < |ops| => Rec(id, ops[i]))
  }

  /** All records on the disk, in log order. */
  function Records(files: seq<LogFile>): seq<Rec> {
    if files == [] then []
    else Records(files[..|files| - 1]) + Tag(files[|files| - 1].id, Parse(files[|files| - 1].bytes))
  }

  function Ops(recs: seq<Rec>): (ops: seq<Op>)
    ensures |ops| == |recs| && forall i :: 0 <= i < |ops| ==> ops[i] == recs[i].op
  {
    seq(|recs|, i requires 0 <= i < |recs| => recs[i].op)
  }

  ghost predicate DeletedIn(recs: seq<Rec>, id: int64) {
    exists j :: 0 <= j < |recs| && recs[j].op.cmd == OP_DEL && recs[j].op.taskId == id
  }

  /** The add records with no later delete record of the same task, in log order. */
  ghost function Live(recs: seq<Rec>): seq<Rec> {
    if recs == [] then []
    else
      var r := recs[0];
      (if r.op.cmd == OP_ADD && !DeletedIn(recs[1..], r.op.taskId) then [r] else []) + Live(recs[1..])
  }

  /** Task ids of add records grow along the log. */
  ghost predicate AddsGrow(recs: seq<Rec>) {
    forall i, j :: 0 <= i < j < |recs| && recs[i].op.cmd == OP_ADD && recs[j].op.cmd == OP_ADD ==>
      recs[i].op.taskId < recs[j].op.taskId
  }

  /** Operation ids grow along the log, and file ids do not shrink. */
  ghost predicate InOrder(recs: seq<Rec>) {
    forall i, j :: 0 <= i < j < |recs| ==> recs[i].op.opId < recs[j].op.opId && recs[i].file <= recs[j].file
  }

  predicate Chosen(r: Rec, dumpFile: int, startOp: int) { r.file > dumpFile && r.op.opId >= startOp }

  /** The records that replay from a checkpoint looks at. */
  function Select(recs: seq<Rec>, dumpFile: int, startOp: int): seq<Rec> {
    if recs == [] then []
    else
      var last := recs[|recs| - 1];
      Select(recs[..|recs| - 1], dumpFile, startOp) + if Chosen(last, dumpFile, startOp) then [last] else []
  }

  function ApplyAll(recs: seq<Rec>): Memory {
    if recs == [] then Fresh else Apply(ApplyAll(recs[..|recs| - 1]), recs[|recs| - 1].op)
  }

  // ---------------------------------------------------------------- replay applies the selected records

  lemma {:induction false} SelectAppend(a: seq<Rec>, b: seq<Rec>, dumpFile: int, startOp: int)
    ensures Select(a + b, dumpFile, startOp) == Select(a, dumpFile, startOp) + Select(b, dumpFile, startOp)
  {
    if b == [] {
      assert a + b == a;
    } else {
      var front := b[..|b| - 1];
      SelectAppend(a, front, dumpFile, startOp);
      assert (a + b)[..|a + b| - 1] == a + front;
    }
  }

  lemma {:induction false} ReplayOpsApplies(recs: seq<Rec>, id: int32, ops: seq<Op>, dumpFile: int, startOp: int)
    ensures var more := Select(Tag(id, ops), dumpFile, startOp);
            && (id <= dumpFile ==> more == [])
            && (id > dumpFile ==> ReplayOps(ApplyAll(recs), ops, startOp) == ApplyAll(recs + more))
  {
    hide Apply;
    if ops == [] {
      assert recs + [] == recs;
    } else {
      var front, o := ops[..|ops| - 1], ops[|ops| - 1];
      ReplayOpsApplies(recs, id, front, dumpFile, startOp);
      assert Tag(id, ops)[..|ops| - 1] == Tag(id, front);
      var more := Select(Tag(id, front), dumpFile, startOp);
      assert (recs + (more + [Rec(id, o)]))[..|recs| + |more|] == recs + more;
      assert recs + (more + []) == recs + more;
    }
  }

  /** What loading rebuilds is what the chosen records do, applied in log order. */
  lemma {:induction false} ReplayApplies(files: seq<LogFile>, dumpFile: int, startOp: int)
    ensures ReplayFiles(files, dumpFile, startOp) == ApplyAll(Select(Records(files), dumpFile, startOp))
  {
    hide Apply, Parse, ApplyAll;
    if files == [] {
      assert ApplyAll([]) == Fresh by { NothingApplied(); }
    } else {
      var front, f := files[..|files| - 1], files[|files| - 1];
      ReplayApplies(front, dumpFile, startOp);
      SelectAppend(Records(front), Tag(f.id, Parse(f.bytes)), dumpFile, startOp);
      ReplayOpsApplies(Select(Records(front), dumpFile, startOp), f.id, Parse(f.bytes), dumpFile, startOp);
      assert Select(Records(front), dumpFile, startOp) + [] == Select(Records(front), dumpFile, startOp);
    }
  }

  lemma NothingApplied()
    ensures ApplyAll([]) == Fresh
  {
  }

  // ---------------------------------------------------------------- replay rebuilds the live tasks

  /** All records but those of one task. */
  ghost function Without(recs: seq<Rec>, id: int64): seq<Rec> {
    if recs == [] then [] else (if recs[0].op.taskId == id then [] else [recs[0]]) + Without(recs[1..], id)
  }

  lemma WithoutCons(r: Rec, rest: seq<Rec>, id: int64)
    ensures Without([r] + rest, id) == if r.op.taskId == id then Without(rest, id) else [r] + Without(rest, id)
  {
    assert ([r] + rest)[1..] == rest;
  }

  lemma WithoutNone(id: int64)
    ensures Without([], id) == []
  {
  }

  /** One more record: an add is live, a delete takes its task away. */
  lemma {:induction false} LiveSnoc(recs: seq<Rec>, r: Rec)
    ensures r.op.cmd == OP_ADD ==> Live(recs + [r]) == Live(recs) + [r]
    ensures r.op.cmd == OP_DEL ==> Live(recs + [r]) == Without(Live(recs), r.op.taskId)
    ensures r.op.cmd != OP_ADD && r.op.cmd != OP_DEL ==> Live(recs + [r]) == Live(recs)
  {
    hide Live, Without, DeletedIn;
    WithoutNone(r.op.taskId);
    LiveNone();
    if recs == [] {
      assert recs + [r] == [r] + [];
      LiveCons(r, []);
    } else {
      var head, rest := recs[0], recs[1..];
      LiveSnoc(rest, r);
      assert recs == [head] + rest && recs + [r] == [head] + (rest + [r]);
      LiveCons(head, rest);
      LiveCons(head, rest + [r]);
      DeletedSnoc(rest, r, head.op.taskId);
      WithoutCons(head, Live(rest), r.op.taskId);
    }
  }

  lemma LiveCons(r: Rec, rest: seq<Rec>)
    ensures Live([r] + rest) ==
              if r.op.cmd == OP_ADD && !DeletedIn(rest, r.op.taskId) then [r] + Live(rest) else Live(rest)
  {
    assert ([r] + rest)[1..] == rest;
  }

  lemma LiveNone()
    ensures Live([]) == [] && forall id :: !DeletedIn([], id)
  {
  }

  lemma DeletedSnoc(recs: seq<Rec>, r: Rec, id: int64)
    ensures DeletedIn(recs + [r], id) <==> DeletedIn(recs, id) || (r.op.cmd == OP_DEL && r.op.taskId == id)
  {
    if DeletedIn(recs, id) {
      var j :| 0 <= j < |recs| && recs[j].op.cmd == OP_DEL && recs[j].op.taskId == id;
      assert (recs + [r])[j] == recs[j];
    }
    assert (recs + [r])[|recs|] == r;
  }

  /** Live records are add records of the log. */
  lemma {:induction false} LiveMember(recs: seq<Rec>, r: Rec)
    ensures r in Live(recs) ==> r in recs && r.op.cmd == OP_ADD
  {
    if recs != [] {
      LiveMember(recs[1..], r);
    }
  }

  ghost predicate TasksGrow(recs: seq<Rec>) {
    forall i, j :: 0 <= i < j < |recs| ==> recs[i].op.taskId < recs[j].op.taskId
  }

  lemma {:induction false} LiveGrows(recs: seq<Rec>)
    requires AddsGrow(recs)
    ensures TasksGrow(Live(recs))
  {
    if recs != [] {
      LiveGrows(recs[1..]);
      var rest := Live(recs[1..]);
      forall i | 0 <= i < |rest|
        ensures recs[0].op.cmd == OP_ADD ==> recs[0].op.taskId < rest[i].op.taskId
      {
        LiveMember(recs[1..], rest[i]);
        var j :| 0 <= j < |recs[1..]| && recs[1..][j] == rest[i];
        assert recs[j + 1] == rest[i];
      }
    }
  }

  /** With unique ids the first task with an id is the only one. */
  lemma {:induction false} FirstIsOnly(recs: seq<Rec>, id: int64)
    requires TasksGrow(recs)
    ensures var k := Place(Ops(recs), id);
            Without(recs, id) == if k < |recs| then recs[..k] + recs[k + 1..] else recs
  {
    hide Without, Ops, Place;
    if recs == [] {
      WithoutNone(id);
    } else {
      var r, rest := recs[0], recs[1..];
      assert [r] + rest == recs;
      WithoutCons(r, rest, id);
      PlaceCons(r, rest, id);
      if r.op.taskId == id {
        WithoutAbsent(rest, id);
        assert recs[..0] + recs[1..] == rest;
      } else {
        FirstIsOnly(rest, id);
        var k := Place(Ops(rest), id);
        if k < |rest| {
          CutBehind(r, rest, k);
        }
      }
    }
  }

  lemma CutBehind(r: Rec, rest: seq<Rec>, k: nat)
    requires k < |rest|
    ensures [r] + (rest[..k] + rest[k + 1..]) == ([r] + rest)[..k + 1] + ([r] + rest)[k + 2..]
  {
  }

  lemma PlaceCons(r: Rec, rest: seq<Rec>, id: int64)
    ensures Place(Ops([r] + rest), id) == if r.op.taskId == id then 0 else 1 + Place(Ops(rest), id)
    ensures Place(Ops(rest), id) <= |rest| && Place([], id) == 0
  {
    assert Ops([r] + rest)[1..] == Ops(rest) && Ops([r] + rest)[0] == r.op;
  }

  lemma OpsWithout(recs: seq<Rec>, k: nat)
    requires k < |recs|
    ensures Ops(recs[..k] + recs[k + 1..]) == Ops(recs)[..k] + Ops(recs)[k + 1..]
  {
  }

  lemma {:induction false} WithoutAbsent(recs: seq<Rec>, id: int64)
    requires forall i :: 0 <= i < |recs| ==> recs[i].op.taskId != id
    ensures Without(recs, id) == recs
  {
    if recs != [] {
      WithoutAbsent(recs[1..], id);
    }
  }

  /** The content added by a log, whether deleted later or not. */
  function AddedBytes(recs: seq<Rec>): nat {
    if recs == [] then 0
    else AddedBytes(recs[..|recs| - 1]) + if recs[|recs| - 1].op.cmd == OP_ADD then |recs[|recs| - 1].op.cont| else 0
  }

  /** Delete records carry no content. */
  ghost predicate EmptyDeletes(recs: seq<Rec>) {
    forall i :: 0 <= i < |recs| && recs[i].op.cmd == OP_DEL ==> recs[i].op.cont == []
  }

  /**
    Replay rebuilds exactly the live tasks in log order, counts them, and leaves both id counters at or above every id
    it has seen; the size it computes is that of everything ever added.
   */
  lemma {:induction false} ApplyExact(recs: seq<Rec>)
    requires AddsGrow(recs) && EmptyDeletes(recs)
    ensures var m := ApplyAll(recs);
            && m.tasks == Ops(Live(recs)) && m.cnt == |m.tasks| && m.size == AddedBytes(recs)
            && m.opId >= 0 && m.taskId >= 0
            && forall i :: 0 <= i < |recs| ==> recs[i].op.opId <= m.opId && recs[i].op.taskId <= m.taskId
  {
    hide Live, Without, Ops, Apply, TasksGrow;
    if recs == [] {
      LiveNone();
      NoOps();
    } else {
      var front, r := recs[..|recs| - 1], recs[|recs| - 1];
      assert recs == front + [r];
      ApplyExact(front);
      LiveSnoc(front, r);
      LiveGrows(front);
      ApplyOne(ApplyAll(front), Live(front), r);
    }
  }

  lemma NoOps()
    ensures Ops([]) == []
  {
  }

  /** One replayed record against the live records before it. */
  lemma ApplyOne(m: Memory, live: seq<Rec>, r: Rec)
    requires TasksGrow(live) && m.tasks == Ops(live) && m.cnt == |m.tasks|
    requires r.op.cmd == OP_DEL ==> r.op.cont == []
    ensures var after := Apply(m, r.op);
            && after.tasks == Ops(if r.op.cmd == OP_ADD then live + [r]
                                  else if r.op.cmd == OP_DEL then Without(live, r.op.taskId) else live)
            && after.cnt == |after.tasks|
            && after.size == m.size + (if r.op.cmd == OP_ADD then |r.op.cont| else 0)
            && after.opId == Max(m.opId, r.op.opId) && after.taskId == Max(m.taskId, r.op.taskId)
  {
    hide Place, Without, TasksGrow;
    FirstIsOnly(live, r.op.taskId);
    var k := Place(Ops(live), r.op.taskId);
    if k < |live| {
      OpsWithout(live, k);
    }
  }
}
