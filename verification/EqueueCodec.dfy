/**
  The records of the durable queue of equeue/equeue_imp.cpp as bytes: how an operation is written to a buffer and
  read back, how records are framed in a log file, and what a reader finds in a file that was cut off at any byte.
  Integers are stored as the machine of the repository stores them: two's complement, least significant byte first.
 */
module EqueueCodec {
  import opened Arithmetic
  import opened Octets
  import opened LittleEndian

  type int32 = x: int | -0x8000_0000 <= x < 0x8000_0000
  type int64 = x: int | -0x8000_0000_0000_0000 <= x < 0x8000_0000_0000_0000

  // ---------------------------------------------------------------- integers

  function Unsigned(v: int, span: nat): (n: nat)
    requires 0 <= 2 * v + span < 2 * span
    ensures n < span
  {
    if v < 0 then v + span else v
  }

  /** The bytes of a signed integer of `k` bytes. */
  function Put(v: int, k: nat): (s: seq<byte>)
    requires 0 <= 2 * v + Span(k) < 2 * Span(k)
    ensures |s| == k
  {
    Digits(Unsigned(v, Span(k)), k)
  }

  function Get(s: seq<byte>): int {
    var u := Number(s);
    if 2 * u >= Span(|s|) then u - Span(|s|) else u
  }

  lemma GetPut(v: int, k: nat)
    requires 0 <= 2 * v + Span(k) < 2 * Span(k)
    ensures Get(Put(v, k)) == v
  {
    NumberOfDigits(Unsigned(v, Span(k)), k);
  }

  lemma PutGet(s: seq<byte>)
    ensures 0 <= 2 * Get(s) + Span(|s|) < 2 * Span(|s|) && Put(Get(s), |s|) == s
  {
    hide Span, Number, Digits;
    DigitsOfNumber(s);
    assert Unsigned(Get(s), Span(|s|)) == Number(s);
  }

  function Put32(v: int32): (s: seq<byte>)
    ensures |s| == 4
  {
    SpanValues();
    Put(v, 4)
  }

  function Put64(v: int64): (s: seq<byte>)
    ensures |s| == 8
  {
    SpanValues();
    Put(v, 8)
  }

  function Get32(s: seq<byte>): int32
    requires |s| == 4
  {
    SpanValues();
    PutGet(s);
    Get(s)
  }

  function Get64(s: seq<byte>): int64
    requires |s| == 8
  {
    SpanValues();
    PutGet(s);
    Get(s)
  }

  lemma RoundTrip32(v: int32)
    ensures Get32(Put32(v)) == v
  {
    SpanValues();
    GetPut(v, 4);
  }

  lemma RoundTrip64(v: int64)
    ensures Get64(Put64(v)) == v
  {
    SpanValues();
    GetPut(v, 8);
  }

  lemma Canonical32(s: seq<byte>)
    requires |s| == 4
    ensures Put32(Get32(s)) == s
  {
    PutGet(s);
  }

  lemma Canonical64(s: seq<byte>)
    requires |s| == 8
    ensures Put64(Get64(s)) == s
  {
    PutGet(s);
  }

  // ---------------------------------------------------------------- one operation

  const OP_ADD: int32 := 1
  const OP_DEL: int32 := 2

  datatype Op = Op(cmd: int32, opId: int64, fileId: int32, taskId: int64, cont: seq<byte>)

  /** The fields in front of the content. */
  const FIXED := 28

  /** sizeof(op) on a 64-bit machine; save_task_to_file makes the buffer this much larger than the content. */
  const SIZEOF_OP := 64

  /** The lengths that the source keeps in an int are in range. */
  predicate Fits(cont: seq<byte>) { |cont| + SIZEOF_OP < 0x8000_0000 }

  function Header(o: Op): (s: seq<byte>)
    requires Fits(o.cont)
    ensures |s| == FIXED
  {
    Put32(o.cmd) + Put64(o.opId) + Put32(o.fileId) + Put64(o.taskId) + Put32(|o.cont|)
  }

  function Encode(o: Op): (s: seq<byte>)
    requires Fits(o.cont)
    ensures |s| == FIXED + |o.cont|
  {
    Header(o) + o.cont
  }

  /** Reading fails on a short buffer; on a negative content length std::string::append throws. */
  datatype LoadResult = Loaded(op: Op, left: nat) | Short | Throws

  function Decode(s: seq<byte>): LoadResult {
    if |s| < FIXED then Short
    else
      var n := Get32(s[24..28]);
      if |s| - FIXED < n then Short
      else if n < 0 then Throws
      else Loaded(Op(Get32(s[..4]), Get64(s[4..12]), Get32(s[12..16]), Get64(s[16..24]), s[FIXED..FIXED + n]),
                  |s| - FIXED - n)
  }

  lemma HeaderFields(o: Op, rest: seq<byte>)
    requires Fits(o.cont)
    ensures var s := Header(o) + rest;
            && s[..4] == Put32(o.cmd) && s[4..12] == Put64(o.opId) && s[12..16] == Put32(o.fileId)
            && s[16..24] == Put64(o.taskId) && s[24..28] == Put32(|o.cont|) && s[28..] == rest
  {
    hide Put32, Put64;
  }

  /** Two's complement, least significant byte first. */
  lemma PutByte(v: int, k: nat, i: nat)
    requires 0 <= 2 * v + Span(k) < 2 * Span(k) && i < k
    ensures Put(v, k)[i] == v % Span(k) / Span(i) % 256
  {
    hide Span, Digits;
    DigitAt(Unsigned(v, Span(k)), k, i);
    if v < 0 {
      Quotient(v, Span(k), -1, v + Span(k));
    } else {
      Quotient(v, Span(k), 0, v);
    }
  }

  /** Where every field of an operation is, byte by byte: 4 + 8 + 4 + 8 + 4 bytes, and then the content. */
  lemma Layout(o: Op, i: nat)
    requires Fits(o.cont) && i < 8
    ensures var s := Encode(o);
            && s[4 + i] == o.opId % Span(8) / Span(i) % 256 && s[16 + i] == o.taskId % Span(8) / Span(i) % 256
            && (i < 4 ==> s[i] == o.cmd % Span(4) / Span(i) % 256 && s[12 + i] == o.fileId % Span(4) / Span(i) % 256)
            && (i < 4 ==> s[24 + i] == |o.cont| / Span(i) % 256)
            && s[FIXED..] == o.cont
  {
    SpanValues();
    hide Span, Put;
    HeaderFields(o, o.cont);
    var s := Encode(o);
    PutByte(o.opId, 8, i);
    PutByte(o.taskId, 8, i);
    assert s[4 + i] == s[4..12][i] && s[16 + i] == s[16..24][i];
    if i < 4 {
      PutByte(o.cmd, 4, i);
      PutByte(o.fileId, 4, i);
      PutByte(|o.cont|, 4, i);
      Quotient(|o.cont|, Span(4), 0, |o.cont|);
      assert s[i] == s[..4][i] && s[12 + i] == s[12..16][i] && s[24 + i] == s[24..28][i];
    }
  }

  /** What is written is read back, whatever follows it. */
  lemma DecodeEncode(o: Op, rest: seq<byte>)
    requires Fits(o.cont)
    ensures Decode(Encode(o) + rest) == Loaded(o, |rest|)
  {
    hide Put32, Put64, Get32, Get64, Header;
    assert Encode(o) + rest == Header(o) + (o.cont + rest);
    HeaderFields(o, o.cont + rest);
    RoundTrip32(o.cmd);
    RoundTrip64(o.opId);
    RoundTrip32(o.fileId);
    RoundTrip64(o.taskId);
    RoundTrip32(|o.cont|);
  }

  /** Nothing but what is written for an operation is read as that operation. */
  lemma EncodeDecode(s: seq<byte>)
    requires |s| + SIZEOF_OP < 0x8000_0000 && Decode(s).Loaded?
    ensures var r := Decode(s); r.left <= |s| && s == Encode(r.op) + s[|s| - r.left..]
  {
    hide Put32, Put64, Get32, Get64;
    Canonical32(s[..4]);
    Canonical64(s[4..12]);
    Canonical32(s[12..16]);
    Canonical64(s[16..24]);
    Canonical32(s[24..28]);
    var o := Decode(s).op;
    assert s == s[..4] + s[4..12] + s[12..16] + s[16..24] + s[24..28] + s[28..];
    assert Header(o) == s[..28];
  }

  /** A read at the buffer pointer. */
  method Load32(buf: seq<byte>, at: nat) returns (v: int32)
    requires at + 4 <= |buf|
    ensures v == Get32(buf[at..at + 4])
  {
    v := Get32(buf[at..at + 4]);
  }

  method Load64(buf: seq<byte>, at: nat) returns (v: int64)
    requires at + 8 <= |buf|
    ensures v == Get64(buf[at..at + 8])
  {
    v := Get64(buf[at..at + 8]);
  }

  /** load_op_from_buf on a buffer of `|buf|` bytes into an operation whose content is still empty. */
  method LoadOpFromBuf(buf: seq<byte>) returns (r: LoadResult)
    ensures r == Decode(buf)
  {
    hide Get32, Get64;
    var at, len := 0, |buf|;
    if len < 4 { return Short; }
    var cmd := Load32(buf, at);
    at, len := at + 4, len - 4;
    if len < 8 { return Short; }
    var opId := Load64(buf, at);
    at, len := at + 8, len - 8;
    if len < 4 { return Short; }
    var fileId := Load32(buf, at);
    at, len := at + 4, len - 4;
    if len < 8 { return Short; }
    var taskId := Load64(buf, at);
    at, len := at + 8, len - 8;
    if len < 4 { return Short; }
    var contlen := Load32(buf, at);
    at, len := at + 4, len - 4;
    if len < contlen { return Short; }
    if contlen < 0 { return Throws; }
    r := Loaded(Op(cmd, opId, fileId, taskId, buf[at..at + contlen]), len - contlen);
  }

  /** A write at the buffer pointer; `done` has been written before over the front of `was`. */
  method Write(buf: array<byte>, at: nat, s: seq<byte>, ghost done: seq<byte>, ghost was: seq<byte>, ghost len: nat)
    returns (ghost more: seq<byte>)
    requires at + |s| <= len <= buf.Length == |was| && at == |done| && buf[..] == done + was[at..]
    modifies buf
    ensures more == done + s && |more| == at + |s| && buf[..] == more + was[at + |s|..]
    ensures buf[len..] == was[len..]
  {
    forall k | 0 <= k < |s| {
      buf[at + k] := s[k];
    }
    more := done + s;
    assert buf[..] == more + was[at + |s|..];
  }

  /** The part of save_op_to_buf in front of the content. */
  method SaveHeader(o: Op, buf: array<byte>, len: nat) returns (left: int)
    requires Fits(o.cont) && len <= buf.Length
    modifies buf
    ensures left == if len < FIXED then -1 else len - FIXED
    ensures left >= 0 ==> buf[..] == Header(o) + old(buf[..])[FIXED..]
    ensures buf[len..] == old(buf[..])[len..]
  {
    hide Put32, Put64;
    ghost var was, done: seq<byte> := buf[..], [];
    assert buf[..] == [] + was[0..];
    var at := 0;
    left := len;
    if left < 4 { return -1; }
    done := Write(buf, at, Put32(o.cmd), done, was, len);
    at, left := at + 4, left - 4;
    assert [] + Put32(o.cmd) == Put32(o.cmd);
    if left < 8 { return -1; }
    done := Write(buf, at, Put64(o.opId), done, was, len);
    at, left := at + 8, left - 8;
    if left < 4 { return -1; }
    done := Write(buf, at, Put32(o.fileId), done, was, len);
    at, left := at + 4, left - 4;
    if left < 8 { return -1; }
    done := Write(buf, at, Put64(o.taskId), done, was, len);
    at, left := at + 8, left - 8;
    if left < 4 { return -1; }
    done := Write(buf, at, Put32(|o.cont|), done, was, len);
    left := left - 4;
  }

  /** save_op_to_buf into the first `len` bytes of a buffer: what is left of it, or -1 if it is too short. */
  method SaveOpToBuf(o: Op, buf: array<byte>, len: nat) returns (left: int)
    requires Fits(o.cont) && len <= buf.Length
    modifies buf
    ensures left == if len < |Encode(o)| then -1 else len - |Encode(o)|
    ensures left >= 0 ==> buf[..] == Encode(o) + old(buf[..])[|Encode(o)|..]
    ensures buf[len..] == old(buf[..])[len..]
  {
    hide Header;
    HeaderLength(o);
    ghost var was := buf[..];
    left := SaveHeader(o, buf, len);
    if left < |o.cont| { return -1; }
    ghost var done := Write(buf, FIXED, o.cont, Header(o), was, len);
    left := left - |o.cont|;
  }

  lemma HeaderLength(o: Op)
    requires Fits(o.cont)
    ensures |Header(o)| == FIXED
  {
  }

  // ---------------------------------------------------------------- log files

  /** A record: the length of the encoded operation, then the operation. */
  function Frame(o: Op): (s: seq<byte>)
    requires Fits(o.cont)
    ensures |s| == 4 + FIXED + |o.cont|
  {
    Put32(|Encode(o)|) + Encode(o)
  }

  /** A record is the length of its encoding in four bytes, and the encoding. */
  lemma FrameLayout(o: Op, i: nat)
    requires Fits(o.cont) && i < 4
    ensures Frame(o)[i] == (FIXED + |o.cont|) / Span(i) % 256 && Frame(o)[4..] == Encode(o)
  {
    SpanValues();
    hide Span, Put;
    PutByte(|Encode(o)|, 4, i);
    Quotient(|Encode(o)|, Span(4), 0, |Encode(o)|);
  }

  ghost predicate AllFit(ops: seq<Op>) { forall i :: 0 <= i < |ops| ==> Fits(ops[i].cont) }

  function FrameAll(ops: seq<Op>): seq<byte>
    requires AllFit(ops)
  {
    if ops == [] then [] else FrameAll(ops[..|ops| - 1]) + Frame(ops[|ops| - 1])
  }

  /**
    The operations load_one_bin_log_file reads from a file: it stops at a length or record that is cut off or of no
    bytes, and at a record that does not decode. A negative length, which no written log holds, counts as the end.
   */
  function Parse(bytes: seq<byte>): seq<Op>
    decreases |bytes|
  {
    match ReadRecord(bytes)
    case None => []
    case Some(o, n) => [o] + Parse(bytes[n..])
  }

  datatype Record = None | Some(op: Op, size: nat)

  /** The first record of a file and its size. */
  function ReadRecord(bytes: seq<byte>): (r: Record)
    ensures r.Some? ==> 4 < r.size <= |bytes|
  {
    if |bytes| < 4 then None
    else
      var n := Get32(bytes[..4]);
      if n <= 0 || |bytes| - 4 < n then None
      else match Decode(bytes[4..4 + n])
        case Loaded(o, _) => Some(o, 4 + n)
        case _ => None
  }

  lemma ReadWhole(o: Op, rest: seq<byte>)
    requires Fits(o.cont)
    ensures ReadRecord(Frame(o) + rest) == Some(o, |Frame(o)|)
  {
    hide Put32, Get32, Encode, Decode;
    var s := Frame(o) + rest;
    assert s[..4] == Put32(|Encode(o)|) && s[4..4 + |Encode(o)|] == Encode(o) + [];
    RoundTrip32(|Encode(o)|);
    DecodeEncode(o, []);
  }

  /**
    What counts as a record in a file of any content: a length that is positive and not behind the end of the file, and
    in that many bytes the encoding of an operation, whatever follows it there.
   */
  lemma {:induction false} ReadExact(bytes: seq<byte>, o: Op, size: nat)
    requires size + SIZEOF_OP < 0x8000_0000
    ensures ReadRecord(bytes) == Some(o, size) <==>
              4 < size <= |bytes| && Fits(o.cont) && bytes[..4] == Put32(size - 4) && Encode(o) <= bytes[4..size]
  {
    hide Put32, Get32, Encode, Decode;
    if ReadRecord(bytes) == Some(o, size) {
      Canonical32(bytes[..4]);
      var s := bytes[4..size];
      EncodeDecode(s);
      LoadedFits(s);
      assert |Encode(o)| <= |s| && s[..|Encode(o)|] == Encode(o);
    }
    if 4 < size <= |bytes| && Fits(o.cont) && bytes[..4] == Put32(size - 4) && Encode(o) <= bytes[4..size] {
      RoundTrip32(size - 4);
      var s := bytes[4..size];
      DecodeEncode(o, s[|Encode(o)|..]);
      assert s == Encode(o) + s[|Encode(o)|..];
    }
  }

  lemma LoadedFits(s: seq<byte>)
    requires |s| + SIZEOF_OP < 0x8000_0000 && Decode(s).Loaded?
    ensures Fits(Decode(s).op.cont)
  {
  }

  lemma ReadTorn(o: Op, k: nat)
    requires Fits(o.cont) && k < |Frame(o)|
    ensures ReadRecord(Frame(o)[..k]) == None
  {
    hide Put32, Get32, Encode, Decode;
    if k >= 4 {
      assert Frame(o)[..k][..4] == Put32(|Encode(o)|);
      RoundTrip32(|Encode(o)|);
    }
  }

  lemma FrameAllSnoc(front: seq<Op>, o: Op)
    requires AllFit(front) && Fits(o.cont)
    ensures AllFit(front + [o]) && FrameAll(front + [o]) == FrameAll(front) + Frame(o) && FrameAll([]) == []
  {
    assert (front + [o])[..|front|] == front;
  }

  /** The same list from the front. */
  lemma {:induction false} FrameAllFront(ops: seq<Op>)
    requires AllFit(ops) && ops != []
    ensures FrameAll(ops) == Frame(ops[0]) + FrameAll(ops[1..])
  {
    hide Frame, FrameAll, Fits;
    var front, last := ops[..|ops| - 1], ops[|ops| - 1];
    assert front + [last] == ops;
    FrameAllSnoc(front, last);
    if front == [] {
      assert ops[1..] == [];
    } else {
      FrameAllFront(front);
      FrameAllSnoc(front[1..], last);
      assert front[1..] + [last] == ops[1..];
    }
  }

  /** How many records lie whole in the first `k` bytes. */
  ghost function Whole(ops: seq<Op>, k: nat): (n: nat)
    requires AllFit(ops)
    ensures n <= |ops|
  {
    if ops == [] || k < |Frame(ops[0])| then 0 else 1 + Whole(ops[1..], k - |Frame(ops[0])|)
  }

  /** It is the largest number of records that fit. */
  lemma {:induction false} WholeIsLargest(ops: seq<Op>, k: nat)
    requires AllFit(ops)
    ensures forall n :: 0 <= n <= |ops| ==> (|FrameAll(ops[..n])| <= k <==> n <= Whole(ops, k))
  {
    hide Frame;
    forall n | 0 <= n <= |ops|
      ensures |FrameAll(ops[..n])| <= k <==> n <= Whole(ops, k)
    {
      if n == 0 {
        assert ops[..n] == [];
      } else {
        FrameAllFront(ops[..n]);
        assert ops[..n][1..] == ops[1..][..n - 1];
        if k >= |Frame(ops[0])| {
          WholeIsLargest(ops[1..], k - |Frame(ops[0])|);
        }
      }
    }
  }

  /** A log file cut off at any byte yields exactly the records that survived whole. */
  lemma {:induction false} ParseCut(ops: seq<Op>, k: nat)
    requires AllFit(ops) && k <= |FrameAll(ops)|
    ensures Parse(FrameAll(ops)[..k]) == ops[..Whole(ops, k)]
  {
    hide Frame, ReadRecord;
    if ops == [] {
      assert FrameAll(ops)[..k] == [];
      NothingToRead();
    } else {
      FrameAllFront(ops);
      var f, rest := Frame(ops[0]), FrameAll(ops[1..]);
      if k < |f| {
        assert (f + rest)[..k] == f[..k];
        ReadTorn(ops[0], k);
      } else {
        assert (f + rest)[..k] == f + rest[..k - |f|];
        ReadWhole(ops[0], rest[..k - |f|]);
        assert (f + rest[..k - |f|])[|f|..] == rest[..k - |f|];
        ParseCut(ops[1..], k - |f|);
      }
    }
  }

  lemma NothingToRead()
    ensures ReadRecord([]) == None
  {
  }

  /** A whole file is read whole. */
  lemma ParseAll(ops: seq<Op>)
    requires AllFit(ops)
    ensures Parse(FrameAll(ops)) == ops
  {
    var k := |FrameAll(ops)|;
    ParseCut(ops, k);
    WholeIsLargest(ops, k);
    assert ops[..|ops|] == ops;
    assert FrameAll(ops)[..k] == FrameAll(ops);
  }
}
