/** The class connection of efnfw/ef_connection.cpp, as far as it sends, against the functions of SendQueue. */
module SendConnection {
  import opened Octets
  import opened SendQueue

  class Connection {
    const attached: bool
    var flag: bool
    var noti: Mask
    var msgs: seq<seq<byte>>
    var curMsgStart: nat
    var sendQueueSize: int
    var script: seq<Response>
    var verdicts: seq<int>
    /** The bytes the socket has accepted. */
    var sent: seq<byte>

    ghost function View(): Conn
      reads this
    {
      Conn(attached, flag, noti, msgs, curMsgStart, sendQueueSize, script, verdicts, sent)
    }

    /** The constructor leaves the queue size uninitialised. */
    constructor (attached: bool, script: seq<Response>, verdicts: seq<int>, junk: int)
      requires 0 <= junk < WRAP
      ensures View() == Conn(attached, false, Mask(0), [], 0, junk, script, verdicts, [])
    {
      this.attached, this.script, this.verdicts, sendQueueSize := attached, script, verdicts, junk;
      flag, noti, msgs, curMsgStart, sent := false, Mask(0), [], 0, [];
    }

    /** One call of send, as the script has it. */
    method Send(buf: seq<byte>) returns (r: Response)
      modifies this`script, this`sent
      ensures r == if old(script) == [] then WouldBlock else old(script)[0]
      ensures script == if old(script) == [] then [] else old(script)[1..]
      ensures r.Accepts? ==> sent == old(sent) + if r.n < |buf| then buf[..r.n] else buf
      ensures !r.Accepts? ==> sent == old(sent)
    {
      if script == [] {
        return WouldBlock;
      }
      r := script[0];
      script := script[1..];
      if r.Accepts? {
        sent := sent + if r.n < |buf| then buf[..r.n] else buf;
      }
    }

    /** send_. */
    method SendAll(buf: seq<byte>) returns (ret: int)
      modifies this`script, this`sent
      ensures (ret, script) == SendOut(old(script), |buf|)
      ensures sent == old(sent) + if ret > 0 then buf[..ret] else []
    {
      while true
        invariant sent == old(sent) && SendOut(script, |buf|) == SendOut(old(script), |buf|)
        decreases |script|
      {
        var r := Send(buf);
        match r
        case Accepts(n) =>
          var k := if n < |buf| then n else |buf|;
          if k > 0 {
            return k;
          }
          return -1;
        case Interrupted =>
          continue;
        case WouldBlock =>
          return 0;
        case Fails =>
          return -1;
      }
    }

    method SetNotify(n: Mask) returns (ret: int)
      modifies this`noti, this`verdicts
      ensures View() == SendQueue.SetNotify(old(View()), n)
      ensures ret == if !attached then -2 else if old(verdicts) == [] then 0 else old(verdicts)[0]
    {
      if !attached {
        return -2;
      }
      ret := 0;
      if verdicts != [] {
        ret := verdicts[0];
        verdicts := verdicts[1..];
      }
      if ret < 0 {
        return;
      }
      noti := n;
    }

    /** One turn of the loop of do_send: the front message, as far as the socket takes it. */
    method SendFront() returns (done: bool, ret: int)
      requires Ready(View()) && msgs != []
      modifies this
      ensures done ==> (View(), ret) == SendQueue.DoSend(old(View()))
      ensures !done ==> Ready(View()) && |msgs| < |old(msgs)|
                        && SendQueue.DoSend(View()) == SendQueue.DoSend(old(View()))
    {
      hide HasWrite, AddWrite, DelWrite, SendOut, Taken, SendQueue.DoSend, SendQueue.SetNotify;
      ghost var c := View();
      FrontUnfolds(c);
      var msg := msgs[0];
      var len := |msg| - curMsgStart;
      ret := SendAll(msg[curMsgStart..]);
      if ret < 0 {
        assert View() == c.(script := script);
        return true, ret;
      }
      sendQueueSize := (sendQueueSize - ret) % WRAP;
      assert msg[curMsgStart..] == msg[curMsgStart..curMsgStart + len];
      TakenIs(c, ret, script, View());
      if ret == len {
        curMsgStart := 0;
        msgs := msgs[1..];
        return false, 0;
      }
      curMsgStart := curMsgStart + ret;
      if !HasWrite(noti) {
        var s := SetNotify(AddWrite(noti));
      }
      return true, 0;
    }

    /** do_send. */
    method DoSend() returns (ret: int)
      requires Ready(View())
      modifies this
      ensures (View(), ret) == SendQueue.DoSend(old(View()))
    {
      hide HasWrite, AddWrite, DelWrite, SendQueue.DoSend, SendQueue.SetNotify;
      while msgs != []
        invariant Ready(View()) && SendQueue.DoSend(View()) == SendQueue.DoSend(old(View()))
        decreases |msgs|
      {
        var done: bool;
        done, ret := SendFront();
        if done {
          return;
        }
      }
      DrainedUnfolds(View());
      if flag {
        return -2;
      }
      if HasWrite(noti) {
        var s := SetNotify(DelWrite(noti));
      }
      return 0;
    }

    method SendMessage(msg: seq<byte>) returns (ret: int)
      requires Ready(View()) && |msg| < 0x8000_0000
      modifies this
      ensures (View(), ret) == SendQueue.SendMessage(old(View()), msg)
    {
      hide SendQueue.DoSend;
      sendQueueSize := (sendQueueSize + |msg|) % WRAP;
      msgs := msgs + [msg];
      assert View() == Enqueued(old(View()), msg);
      ret := DoSend();
    }

    method HandleWrite() returns (ret: int)
      requires Ready(View())
      modifies this
      ensures (View(), ret) == SendQueue.DoSend(old(View()))
    {
      ret := DoSend();
    }
  }

  lemma {:induction false} FrontUnfolds(c: Conn)
    requires Ready(c) && c.msgs != []
    ensures var len := |c.msgs[0]| - c.start;
            var (ret, script) := SendOut(c.script, len);
            && 0 <= len && -1 <= ret <= len
            && (ret < 0 ==> SendQueue.DoSend(c) == (c.(script := script), ret))
            && (ret >= 0 ==>
                  var c1 := Taken(c, ret, script);
                  && (ret == len ==> Ready(c1.(start := 0, msgs := c.msgs[1..]))
                                     && SendQueue.DoSend(c) == SendQueue.DoSend(c1.(start := 0, msgs := c.msgs[1..])))
                  && (ret < len ==>
                        var c2 := c1.(start := c.start + ret);
                        SendQueue.DoSend(c)
                          == (if !HasWrite(c2.noti) then SendQueue.SetNotify(c2, AddWrite(c2.noti)) else c2, 0)))
  {
    hide HasWrite, AddWrite, DelWrite, Taken, SendQueue.SetNotify, SendOut, Ready;
    SendRange(c);
    var len := |c.msgs[0]| - c.start;
    var (ret, script) := SendOut(c.script, len);
    if ret == len {
      NextReady(c, script);
    }
  }

  lemma SendRange(c: Conn)
    requires Ready(c) && c.msgs != []
    ensures var len := |c.msgs[0]| - c.start; len >= 0 && -1 <= SendOut(c.script, len).0 <= len
  {
  }

  lemma NextReady(c: Conn, script: seq<Response>)
    requires Ready(c) && c.msgs != []
    ensures Ready(Taken(c, |c.msgs[0]| - c.start, script).(start := 0, msgs := c.msgs[1..]))
  {
  }

  lemma DrainedUnfolds(c: Conn)
    requires Ready(c) && c.msgs == []
    ensures SendQueue.DoSend(c) ==
              if c.closing then (c, -2)
              else (if HasWrite(c.noti) then SendQueue.SetNotify(c, DelWrite(c.noti)) else c, 0)
  {
  }

  lemma TakenIs(c: Conn, k: nat, script: seq<Response>, r: Conn)
    requires Ready(c) && c.msgs != [] && c.start + k <= |c.msgs[0]|
    requires r == c.(script := script, queueSize := (c.queueSize - k) % WRAP, sent := r.sent)
    requires r.sent == c.sent + if k > 0 then c.msgs[0][c.start..][..k] else []
    ensures r == Taken(c, k, script)
  {
    assert c.msgs[0][c.start..][..k] == c.msgs[0][c.start..c.start + k];
  }
}
