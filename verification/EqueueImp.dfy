/**
  The class eq_imp of equeue/equeue_imp.cpp, method by method against the state machine of EqueueLog. The directory of
  log files is a field; writing to it always succeeds here.
 */
module EqueueImp {
  import opened Octets
  import opened EqueueCodec
  import opened EqueueLog
  import opened EqueueRuns

  class EqImp {
    var disk: seq<LogFile>
    const maxSize: int
    const maxCnt: int
    var size: int
    var cnt: int
    var currentOpId: int64
    var currentTaskId: int64
    var currentFileId: int32
    var currentFileOpen: bool
    var tasks: seq<Op>
    var sem: int

    ghost function Mem(): Memory
      reads this
    {
      Memory(tasks, size, cnt, currentOpId, currentTaskId)
    }

    ghost function View(): Queue
      reads this
    {
      Queue(maxSize, maxCnt, disk, currentFileOpen, currentFileId, Mem(), sem)
    }

    /** The constructor followed by init on a directory whose latest dump is `dumpFile`, `dumpOp`; 0 and 0 if none. */
    constructor (maxSize: int, maxCnt: int, disk: seq<LogFile>, dumpFile: int, dumpOp: int)
      ensures View() == Load(maxSize, maxCnt, disk, dumpFile, dumpOp)
    {
      this.maxSize, this.maxCnt, this.disk := maxSize, maxCnt, disk;
      size, cnt, currentOpId, currentTaskId, currentFileId := 0, 0, 0, 0, 0;
      currentFileOpen, tasks, sem := false, [], 0;
      new;
      LoadFromBinLogFiles(dumpFile, dumpOp);
      sem := cnt;
    }

    method LoadFromBinLogFiles(dumpFile: int, dumpOp: int)
      requires Mem() == Fresh && currentFileId == 0 && !currentFileOpen
      modifies this`size, this`cnt, this`currentOpId, this`currentTaskId, this`currentFileId, this`tasks
      ensures Mem() == ReplayFiles(disk, dumpFile, dumpOp)
      ensures currentFileId == if disk == [] then 0 else disk[|disk| - 1].id
    {
      hide ReplayOps, Parse, Apply;
      var i := 0;
      while i < |disk|
        invariant 0 <= i <= |disk| && Mem() == ReplayFiles(disk[..i], dumpFile, dumpOp)
        invariant currentFileId == if i == 0 then 0 else disk[i - 1].id
      {
        assert disk[..i + 1][..i] == disk[..i];
        currentFileId := disk[i].id;
        if currentFileId > dumpFile {
          LoadOneBinLogFile(disk[i].bytes, dumpOp);
        }
        i := i + 1;
      }
      assert disk[..i] == disk;
    }

    /** The file is read record by record until one is missing or broken. */
    method LoadOneBinLogFile(bytes: seq<byte>, startOp: int)
      modifies this`size, this`cnt, this`currentOpId, this`currentTaskId, this`tasks
      ensures Mem() == ReplayOps(old(Mem()), Parse(bytes), startOp)
    {
      hide Apply, ReplayOps, ReadRecord;
      var rest := bytes;
      ghost var done: seq<Op> := [];
      NothingReplayed(Mem(), startOp);
      while true
        invariant Parse(bytes) == done + Parse(rest)
        invariant Mem() == ReplayOps(old(Mem()), done, startOp)
        decreases |rest|
      {
        var r := ReadNext(rest);
        if r.None? {
          break;
        }
        var o := r.op;
        ReplayedOne(old(Mem()), done, o, startOp);
        assert done + [o] + Parse(rest[r.size..]) == done + Parse(rest);
        done := done + [o];
        rest := rest[r.size..];
        if o.opId < startOp {
          continue;
        }
        ApplyTaken(o);
      }
      assert done + [] == done;
    }

    /** The part of the loop behind the test of the operation id. */
    method ApplyTaken(o: Op)
      modifies this`size, this`cnt, this`currentOpId, this`currentTaskId, this`tasks
      ensures Mem() == Apply(old(Mem()), o)
    {
      if o.taskId > currentTaskId {
        currentTaskId := o.taskId;
      }
      if o.opId > currentOpId {
        currentOpId := o.opId;
      }
      if o.cmd == OP_ADD {
        AddTask(o);
      } else if o.cmd == OP_DEL {
        var ret := DelTask(o);
      }
    }

    method AddTask(o: Op)
      modifies this`size, this`cnt, this`tasks
      ensures Mem() == EqueueLog.AddTask(old(Mem()), o)
    {
      tasks := tasks + [o];
      size := size + |o.cont|;
      cnt := cnt + 1;
    }

    method DelTask(o: Op) returns (ret: int)
      modifies this`size, this`cnt, this`tasks
      ensures Mem() == EqueueLog.DelTask(old(Mem()), o)
      ensures ret == if Place(old(tasks), o.taskId) < |old(tasks)| then 1 else 0
    {
      var it := 0;
      while it < |tasks|
        invariant 0 <= it <= |tasks| && Mem() == old(Mem())
        invariant forall i :: 0 <= i < it ==> tasks[i].taskId != o.taskId
      {
        if tasks[it].taskId == o.taskId {
          PlaceIs(tasks, o.taskId, it);
          tasks := tasks[..it] + tasks[it + 1..];
          size := size - |o.cont|;
          cnt := cnt - 1;
          return 1;
        }
        it := it + 1;
      }
      return 0;
    }

    method CheckIfOpenNewFile()
      requires Room(View()) && (currentFileOpen ==> disk != [])
      modifies this`disk, this`currentFileId, this`currentFileOpen
      ensures View() == CheckOpen(old(View()))
    {
      if currentFileOpen && |disk[|disk| - 1].bytes| < DEFAULT_BLOCK_SIZE {
        return;
      }
      currentFileId := currentFileId + 1;
      disk := Opened(disk, currentFileId);
      currentFileOpen := true;
    }

    /**
      Both ways to write a record: encode it into a buffer of the size of the struct and its content, frame it, and
      append it to the open file. The result is what the encoding leaves of the buffer.
     */
    method SaveToFile(o: Op) returns (left: int)
      requires disk != [] && Fits(o.cont)
      modifies this`disk
      ensures disk == Append(old(disk), o) && left == SIZEOF_OP - FIXED
    {
      var buf := new byte[SIZEOF_OP + |o.cont|];
      left := SaveOpToBuf(o, buf, buf.Length);
      var sz := buf.Length - left;
      assert buf[..sz] == Encode(o);
      var record := Put32(sz) + buf[..sz];
      var last := |disk| - 1;
      disk := disk[last := LogFile(disk[last].id, disk[last].bytes + record)];
    }

    method AddBack(t: seq<byte>) returns (ret: int)
      requires Room(View()) && Fits(t) && (currentFileOpen ==> disk != [])
      modifies this
      ensures View() == EqueueLog.AddBack(old(View()), t) && ret == if Full(old(View())) then -1 else 0
    {
      hide CheckOpen;
      if size >= maxSize || cnt >= maxCnt {
        return -1;
      }
      OpenFacts(View());
      CheckIfOpenNewFile();
      currentOpId := currentOpId + 1;
      currentTaskId := currentTaskId + 1;
      var o := Op(OP_ADD, currentOpId, currentFileId, currentTaskId, t);
      var left := SaveToFile(o);
      AddTask(o);
      sem := sem + 1;
      return 0;
    }

    /**
      del; the file id of the record is whatever the uninitialised field holds. What comes back on success is not 0 but
      what the encoding leaves of its buffer.
     */
    method Del(id: int64, junk: int32) returns (ret: int)
      requires Room(View()) && (currentFileOpen ==> disk != [])
      modifies this
      ensures View() == EqueueLog.Del(old(View()), id, junk) && ret == SIZEOF_OP - FIXED
    {
      hide CheckOpen;
      OpenFacts(View());
      CheckIfOpenNewFile();
      currentOpId := currentOpId + 1;
      var o := Op(OP_DEL, currentOpId, junk, id, []);
      ret := SaveToFile(o);
    }

    /** get_front once the semaphore lets the caller through. */
    method GetFront() returns (t: Op)
      requires Inv(View()) && sem > 0
      modifies this`sem, this`tasks, this`size, this`cnt
      ensures View() == EqueueLog.GetFront(old(View())) && old(tasks) == [t] + tasks
    {
      sem := sem - 1;
      t := tasks[0];
      tasks := tasks[1..];
      size := size - |t.cont|;
      cnt := cnt - 1;
    }
  }

  /** Reading a length, that many bytes, and an operation from them. */
  method ReadNext(bytes: seq<byte>) returns (r: Record)
    ensures r == ReadRecord(bytes) && (r.Some? ==> 4 < r.size <= |bytes|)
    ensures Parse(bytes) == if r.Some? then [r.op] + Parse(bytes[r.size..]) else []
  {
    hide Get32, Decode;
    if |bytes| < 4 {
      return None;
    }
    var len := Get32(bytes[..4]);
    if len <= 0 || |bytes| - 4 < len {
      return None;
    }
    var record := bytes[4..4 + len];
    var loaded := LoadOpFromBuf(record);
    match loaded
    case Loaded(o, left) => return Some(o, 4 + len);
    case Short => return None;
    case Throws => return None;
  }

  lemma NothingReplayed(m: Memory, startOp: int)
    ensures ReplayOps(m, [], startOp) == m
  {
  }

  lemma ReplayedOne(m: Memory, done: seq<Op>, o: Op, startOp: int)
    ensures ReplayOps(m, done + [o], startOp) ==
              var before := ReplayOps(m, done, startOp); if o.opId < startOp then before else Apply(before, o)
  {
    assert (done + [o])[..|done|] == done;
  }

  lemma {:induction false} PlaceIs(tasks: seq<Op>, id: int64, k: nat)
    requires k < |tasks| && tasks[k].taskId == id && forall i :: 0 <= i < k ==> tasks[i].taskId != id
    ensures Place(tasks, id) == k
  {
    if k > 0 {
      PlaceIs(tasks[1..], id, k - 1);
    }
  }

  lemma OpenFacts(q: Queue)
    requires Room(q) && (q.open ==> q.files != [])
    ensures var r := CheckOpen(q);
            && r.files != [] && r.open && r.mem == q.mem && r.sem == q.sem
            && r.maxSize == q.maxSize && r.maxCnt == q.maxCnt
  {
  }
}
