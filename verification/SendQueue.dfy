/**
  The send side of efnfw/ef_connection.cpp: a queue of messages written to a non-blocking socket. What the socket
  answers to each call of send, and what the network thread answers to each change of interest, is read from scripts.
 */
module SendQueue {
  import opened Octets

  const ADD_READ: bv32 := 1
  const ADD_WRITE: bv32 := 2
  const DEL_WRITE: bv32 := 0xffff_fffd
  const WRAP := 0x1_0000_0000

  /** The interest of a connection, a word of bits. */
  datatype Mask = Mask(bits: bv32)

  function AddWrite(m: Mask): Mask { Mask(m.bits | ADD_WRITE) }

  function DelWrite(m: Mask): Mask { Mask(m.bits & DEL_WRITE) }

  predicate HasWrite(m: Mask) { m.bits & ADD_WRITE != 0 }

  predicate HasRead(m: Mask) { m.bits & ADD_READ != 0 }

  lemma MaskBits(m: Mask)
    ensures HasWrite(AddWrite(m)) && !HasWrite(DelWrite(m))
    ensures HasRead(AddWrite(m)) == HasRead(m) && HasRead(DelWrite(m)) == HasRead(m)
  {
  }

  /** The answer to one call of send; when the script is over the socket would block. */
  datatype Response = Accepts(n: nat) | Interrupted | WouldBlock | Fails

  /**
    A connection, the scripts of its surroundings, and `sent`, the bytes the socket has accepted. `attached` says
    whether there is a network thread, `closing` whether safe_close has been called.
   */
  datatype Conn = Conn(attached: bool, closing: bool, noti: Mask, msgs: seq<seq<byte>>, start: nat, queueSize: int,
                       script: seq<Response>, verdicts: seq<int>, sent: seq<byte>)

  // ---------------------------------------------------------------- the calls as functions

  /** send_: the number of bytes accepted, 0 if the socket would block, -1 on failure; and the rest of the script. */
  function SendOut(script: seq<Response>, len: nat): (r: (int, seq<Response>))
    ensures -1 <= r.0 <= len
  {
    if script == [] then (0, [])
    else match script[0]
      case Interrupted => SendOut(script[1..], len)
      case WouldBlock => (0, script[1..])
      case Fails => (-1, script[1..])
      case Accepts(n) =>
        var k := if n < len then n else len;
        (if k > 0 then k else -1, script[1..])
  }

  /**
    Interruptions are tried again. Of the first other answer, would-block gives 0 and failure -1; accepting gives the
    number of bytes, except that accepting none, and sending nothing, gives -1. Without an answer it is 0.
   */
  lemma {:induction false} SendOutAnswers(script: seq<Response>, len: nat, k: nat)
    requires k <= |script| && (forall i :: 0 <= i < k ==> script[i] == Interrupted)
    requires k < |script| ==> script[k] != Interrupted
    ensures k == |script| ==> SendOut(script, len) == (0, [])
    ensures k < |script| ==> SendOut(script, len).1 == script[k + 1..]
    ensures k < |script| && script[k] == WouldBlock ==> SendOut(script, len).0 == 0
    ensures k < |script| && script[k] == Fails ==> SendOut(script, len).0 == -1
    ensures k < |script| && script[k].Accepts? && (script[k].n == 0 || len == 0) ==> SendOut(script, len).0 == -1
    ensures k < |script| && script[k].Accepts? && 0 < script[k].n <= len ==> SendOut(script, len).0 == script[k].n
    ensures k < |script| && script[k].Accepts? && 0 < len <= script[k].n ==> SendOut(script, len).0 == len
    decreases k
  {
    if k > 0 {
      assert k < |script| ==> script[1..][k..] == script[k + 1..];
      SendOutAnswers(script[1..], len, k - 1);
    }
  }

  /** set_notify: the interest changes if there is a thread and the thread agrees. */
  function SetNotify(c: Conn, noti: Mask): Conn {
    if !c.attached then c
    else
      var agreed := c.verdicts == [] || c.verdicts[0] >= 0;
      c.(noti := if agreed then noti else c.noti, verdicts := if c.verdicts == [] then [] else c.verdicts[1..])
  }

  predicate Ready(c: Conn) {
    && (c.msgs == [] ==> c.start == 0)
    && (c.msgs != [] ==> c.start == 0 || c.start < |c.msgs[0]|)
    && 0 <= c.queueSize < WRAP
    && forall i :: 0 <= i < |c.msgs| ==> |c.msgs[i]| < 0x8000_0000
  }

  /** What one successful call of send_ leaves, before the decision how to go on. */
  function Taken(c: Conn, k: nat, script: seq<Response>): Conn
    requires Ready(c) && c.msgs != [] && c.start + k <= |c.msgs[0]|
  {
    c.(script := script, queueSize := (c.queueSize - k) % WRAP, sent := c.sent + c.msgs[0][c.start..c.start + k])
  }

  function DoSend(c: Conn): (r: (Conn, int))
    requires Ready(c)
    ensures Ready(r.0)
    decreases |c.msgs|
  {
    if c.msgs == [] then
      if c.closing then (c, -2)
      else if HasWrite(c.noti) then (SetNotify(c, DelWrite(c.noti)), 0)
      else (c, 0)
    else
      var len := |c.msgs[0]| - c.start;
      var (ret, script) := SendOut(c.script, len);
      if ret < 0 then (c.(script := script), ret)
      else
        var c1 := Taken(c, ret, script);
        if ret == len then DoSend(c1.(start := 0, msgs := c.msgs[1..]))
        else
          var c2 := c1.(start := c.start + ret);
          (if !HasWrite(c2.noti) then SetNotify(c2, AddWrite(c2.noti)) else c2, 0)
  }

  function Enqueued(c: Conn, msg: seq<byte>): (r: Conn)
    requires Ready(c) && |msg| < 0x8000_0000
    ensures Ready(r)
  {
    c.(queueSize := (c.queueSize + |msg|) % WRAP, msgs := c.msgs + [msg])
  }

  function SendMessage(c: Conn, msg: seq<byte>): (Conn, int)
    requires Ready(c) && |msg| < 0x8000_0000
  {
    DoSend(Enqueued(c, msg))
  }

  // ---------------------------------------------------------------- conservation

  function Concat(msgs: seq<seq<byte>>): seq<byte> {
    if msgs == [] then [] else msgs[0] + Concat(msgs[1..])
  }

  lemma {:induction false} ConcatSnoc(msgs: seq<seq<byte>>, msg: seq<byte>)
    ensures Concat(msgs + [msg]) == Concat(msgs) + msg
  {
    if msgs == [] {
      assert [] + [msg] == [msg] && [msg][1..] == [];
    } else {
      ConcatSnoc(msgs[1..], msg);
      assert (msgs + [msg])[1..] == msgs[1..] + [msg];
    }
  }

  /** The bytes still to be sent. */
  function Pending(c: Conn): seq<byte>
    requires Ready(c)
  {
    if c.msgs == [] then [] else c.msgs[0][c.start..] + Concat(c.msgs[1..])
  }

  /** The queue size and the number of pending bytes differ by this much, modulo 2^32. */
  function Drift(c: Conn): int
    requires Ready(c)
  {
    (c.queueSize - |Pending(c)|) % WRAP
  }

  /** What was sent and what is pending stays the same, and what was sent is sent. */
  ghost predicate Conserves(before: Conn, after: Conn)
    requires Ready(before) && Ready(after)
  {
    && before.sent <= after.sent && after.sent + Pending(after) == before.sent + Pending(before)
    && Drift(after) == Drift(before)
    && after.attached == before.attached && after.closing == before.closing
  }

  lemma {:induction false} TakenConserves(c: Conn, k: nat, script: seq<Response>)
    requires Ready(c) && c.msgs != [] && c.start + k <= |c.msgs[0]|
    ensures var c1 := Taken(c, k, script);
            if c.start + k == |c.msgs[0]| then Conserves(c, c1.(start := 0, msgs := c.msgs[1..]))
            else Conserves(c, c1.(start := c.start + k))
  {
    hide Concat, Pending, Drift;
    var front, rest := c.msgs[0][c.start..], Concat(c.msgs[1..]);
    var c1, step := Taken(c, k, script), c.msgs[0][c.start..c.start + k];
    assert step == front[..k];
    PendingParts(c, front, rest);
    if c.start + k == |c.msgs[0]| {
      var c2 := c1.(start := 0, msgs := c.msgs[1..]);
      NextPending(c2);
      assert front[k..] + rest == rest && c2.msgs == c.msgs[1..];
      Moved(c, c2, front, rest, k);
    } else {
      var c2 := c1.(start := c.start + k);
      PendingParts(c2, front[k..], rest);
      Moved(c, c2, front, rest, k);
    }
  }

  lemma PendingParts(c: Conn, front: seq<byte>, rest: seq<byte>)
    requires Ready(c) && c.msgs != [] && front == c.msgs[0][c.start..] && rest == Concat(c.msgs[1..])
    ensures Pending(c) == front + rest
  {
  }

  /** Bytes that move from the front of the pending ones to the end of the sent ones. */
  lemma {:induction false} Moved(c: Conn, r: Conn, front: seq<byte>, rest: seq<byte>, k: nat)
    requires Ready(c) && Ready(r) && k <= |front| && Pending(c) == front + rest && Pending(r) == front[k..] + rest
    requires r.sent == c.sent + front[..k] && r.queueSize == (c.queueSize - k) % WRAP
    requires r.attached == c.attached && r.closing == c.closing
    ensures Conserves(c, r)
  {
    hide Concat, Pending, Ready;
    DriftStep(c.queueSize, |front + rest|, k);
    assert front[..k] + (front[k..] + rest) == front + rest;
    assert c.sent + (front[..k] + (front[k..] + rest)) == r.sent + (front[k..] + rest);
  }

  lemma NextPending(c: Conn)
    requires Ready(c) && c.start == 0
    ensures Pending(c) == Concat(c.msgs)
  {
  }

  lemma DriftStep(size: int, pending: nat, k: nat)
    ensures ((size - k) % WRAP - (pending - k)) % WRAP == (size - pending) % WRAP
  {
  }

  /** Whatever the socket does, no byte is lost, repeated or overtaken. */
  lemma {:induction false} DoSendConserves(c: Conn)
    requires Ready(c)
    ensures Conserves(c, DoSend(c).0)
    decreases |c.msgs|
  {
    hide Concat, Taken, Pending, Drift, HasRead, HasWrite, AddWrite, DelWrite;
    if c.msgs != [] {
      var len := |c.msgs[0]| - c.start;
      var (ret, script) := SendOut(c.script, len);
      if ret >= 0 {
        TakenConserves(c, ret, script);
        TakenFields(c, ret, script);
        var c1 := Taken(c, ret, script);
        if ret == len {
          DoSendConserves(c1.(start := 0, msgs := c.msgs[1..]));
        } else {
          SurroundingsApart(c1.(start := c.start + ret), DoSend(c).0);
        }
      } else {
        SurroundingsApart(c, DoSend(c).0);
      }
    } else {
      SurroundingsApart(c, DoSend(c).0);
    }
  }

  lemma TakenFields(c: Conn, k: nat, script: seq<Response>)
    requires Ready(c) && c.msgs != [] && c.start + k <= |c.msgs[0]|
    ensures var r := Taken(c, k, script); r == c.(script := script, queueSize := r.queueSize, sent := r.sent)
    ensures 0 <= Taken(c, k, script).queueSize < WRAP
  {
  }

  /** Scripts and interest do not matter for the bytes. */
  lemma SurroundingsApart(before: Conn, after: Conn)
    requires Ready(before) && after.msgs == before.msgs && after.start == before.start && after.sent == before.sent
    requires after.queueSize == before.queueSize && after.attached == before.attached && after.closing == before.closing
    ensures Ready(after) && Conserves(before, after)
  {
  }

  // ---------------------------------------------------------------- write interest

  /** The next change of interest will be made. */
  predicate Agreed(c: Conn) { c.attached && (c.verdicts == [] || c.verdicts[0] >= 0) }

  /**
    After a successful return write interest is on exactly when bytes are pending, if and only if it was so before the
    call or the network thread agrees to the change; and read interest is what it was. Without a successful return
    nothing is promised.
   */
  lemma {:induction false} InterestExact(c: Conn)
    requires Ready(c)
    ensures var (r, ret) := DoSend(c);
            && HasRead(r.noti) == HasRead(c.noti)
            && (ret == 0 ==> (Pending(r) != [] <==> r.msgs != []))
            && (ret == 0 ==> ((HasWrite(r.noti) <==> Pending(r) != []) <==>
                                HasWrite(c.noti) == (r.msgs != []) || Agreed(c)))
            && (ret == -2 <==> c.closing && r.msgs == [])
            && -2 <= ret <= 0
    decreases |c.msgs|
  {
    hide Concat, Taken, HasRead, HasWrite, AddWrite, DelWrite;
    MaskBits(c.noti);
    if c.msgs != [] {
      var len := |c.msgs[0]| - c.start;
      var (ret, script) := SendOut(c.script, len);
      if ret >= 0 {
        TakenFields(c, ret, script);
        var c1 := Taken(c, ret, script);
        if ret == len {
          InterestExact(c1.(start := 0, msgs := c.msgs[1..]));
        }
      }
    }
  }

  /**
    What do_send returns. With nothing left it is 0, or -2 when the connection is closing; otherwise the answer that
    ended the work, given for what is now in front, decides: -1 if it was a failure, else 0.
   */
  lemma {:induction false} ReturnExact(c: Conn)
    requires Ready(c)
    ensures var (r, ret) := DoSend(c);
            && (r.msgs == [] ==> ret == if c.closing then -2 else 0)
            && (r.msgs != [] ==>
                  exists k :: 0 <= k <= |c.script| && EndedBy(c.script[k..], |r.msgs[0]| - r.start, r.script, ret))
    decreases |c.msgs|
  {
    hide Concat, Taken, HasRead, HasWrite, AddWrite, DelWrite, SendOut, EndedBy;
    if c.msgs != [] {
      var len := |c.msgs[0]| - c.start;
      var (ret, script) := SendOut(c.script, len);
      SendOutBounds(c.script, len);
      assert c.script[0..] == c.script;
      if ret < 0 {
        EndsHere(c.script, len, len);
      } else {
        TakenFields(c, ret, script);
        var c1 := Taken(c, ret, script).(start := 0, msgs := c.msgs[1..]);
        if ret == len {
          ReturnExact(c1);
          var k := |c.script| - |script|;
          if DoSend(c1).0.msgs != [] {
            var r := DoSend(c1).0;
            var m :| 0 <= m <= |script| && EndedBy(script[m..], |r.msgs[0]| - r.start, r.script, DoSend(c1).1);
            assert c.script[k + m..] == script[m..];
          }
        } else {
          EndsHere(c.script, len, len - ret);
        }
      }
    }
  }

  /** The next answer of the script, for a send of `len` bytes, leaves `rest` of it and makes do_send return `ret`. */
  predicate EndedBy(script: seq<Response>, len: nat, rest: seq<Response>, ret: int) {
    SendOut(script, len).1 == rest && ret == if SendOut(script, len).0 < 0 then -1 else 0
  }

  lemma {:induction false} SendOutBounds(script: seq<Response>, len: nat)
    ensures var (ret, rest) := SendOut(script, len);
            -1 <= ret <= len && |rest| <= |script| && rest == script[|script| - |rest|..]
  {
    if script != [] && script[0].Interrupted? {
      SendOutBounds(script[1..], len);
    }
  }

  /** For the answer itself it only matters whether there was anything to send. */
  lemma {:induction false} EndsHere(script: seq<Response>, len: nat, left: nat)
    requires left <= len && (len > 0 ==> left > 0)
    ensures EndedBy(script, left, SendOut(script, len).1, if SendOut(script, len).0 < 0 then -1 else 0)
  {
    if script != [] && script[0].Interrupted? {
      EndsHere(script[1..], len, left);
    }
  }

  // ---------------------------------------------------------------- runs

  datatype Call = Message(msg: seq<byte>) | HandleWrite

  ghost predicate Short(calls: seq<Call>) {
    forall i :: 0 <= i < |calls| && calls[i].Message? ==> |calls[i].msg| < 0x8000_0000
  }

  function After(c: Conn, call: Call): (r: Conn)
    requires Ready(c) && (call.Message? ==> |call.msg| < 0x8000_0000)
    ensures Ready(r)
  {
    if call.Message? then SendMessage(c, call.msg).0 else DoSend(c).0
  }

  function Final(c: Conn, calls: seq<Call>): (r: Conn)
    requires Ready(c) && Short(calls)
    ensures Ready(r)
    decreases calls
  {
    if calls == [] then c else Final(After(c, calls[0]), calls[1..])
  }

  /** All messages of a run, one behind the other. */
  function Stream(calls: seq<Call>): seq<byte> {
    if calls == [] then [] else (if calls[0].Message? then calls[0].msg else []) + Stream(calls[1..])
  }

  lemma EnqueuedPending(c: Conn, msg: seq<byte>)
    requires Ready(c) && |msg| < 0x8000_0000
    ensures var r := Enqueued(c, msg);
            Pending(r) == Pending(c) + msg && r.sent == c.sent && Drift(r) == Drift(c)
  {
    hide Concat;
    var r := Enqueued(c, msg);
    if c.msgs == [] {
      NoMessages();
      assert r.msgs[1..] == [];
    } else {
      assert r.msgs[1..] == c.msgs[1..] + [msg];
      ConcatSnoc(c.msgs[1..], msg);
    }
    assert |Pending(r)| == |Pending(c)| + |msg|;
  }

  lemma NoMessages()
    ensures Concat([]) == []
  {
  }

  /**
    In every run of send_message and handle_write, with every behaviour of the socket, the bytes sent followed by the
    bytes pending are the messages one behind the other, and the queue size moves in step with the pending bytes.
   */
  lemma {:induction false} StreamKept(c: Conn, calls: seq<Call>)
    requires Ready(c) && Short(calls)
    ensures var r := Final(c, calls);
            && c.sent <= r.sent && r.sent + Pending(r) == c.sent + Pending(c) + Stream(calls) && Drift(r) == Drift(c)
    decreases calls
  {
    hide Concat, Pending, Drift, DoSend, Ready;
    if calls == [] {
      assert c.sent + Pending(c) + [] == c.sent + Pending(c);
    } else {
      var next, rest := After(c, calls[0]), Stream(calls[1..]);
      assert Ready(c) && (calls[0].Message? ==> |calls[0].msg| < 0x8000_0000);
      OneCall(c, calls[0]);
      StreamKept(next, calls[1..]);
      var first := if calls[0].Message? then calls[0].msg else [];
      assert c.sent + Pending(c) + first + rest == c.sent + Pending(c) + (first + rest);
    }
  }

  lemma {:induction false} OneCall(c: Conn, call: Call)
    requires Ready(c) && (call.Message? ==> |call.msg| < 0x8000_0000)
    ensures var r, first := After(c, call), if call.Message? then call.msg else [];
            c.sent <= r.sent && r.sent + Pending(r) == c.sent + Pending(c) + first && Drift(r) == Drift(c)
  {
    hide Concat, Pending, Drift, DoSend;
    if call.Message? {
      EnqueuedPending(c, call.msg);
      DoSendConserves(Enqueued(c, call.msg));
      assert c.sent + (Pending(c) + call.msg) == c.sent + Pending(c) + call.msg;
    } else {
      DoSendConserves(c);
      assert c.sent + Pending(c) + [] == c.sent + Pending(c);
    }
  }

  /** An empty message at the front leaves the queue only while the socket would block; else it stops all sending. */
  lemma EmptyMessageStops(c: Conn)
    requires Ready(c) && c.msgs != [] && c.msgs[0] == []
    ensures var (ret, script) := SendOut(c.script, 0);
            && (ret == 0 <==> SendOut(c.script, 1).0 == 0)
            && (ret != 0 ==> DoSend(c) == (c.(script := script), -1))
  {
    EmptySend(c.script);
  }

  lemma {:induction false} EmptySend(script: seq<Response>)
    ensures SendOut(script, 0).0 == 0 <==> SendOut(script, 1).0 == 0
  {
    if script != [] && script[0].Interrupted? {
      EmptySend(script[1..]);
    }
  }
}
