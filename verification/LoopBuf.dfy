/** The ring buffer of common/base/ef_loop_buf.cpp, and the bounded byte queue it implements. */
module LoopBuf {
  import opened Octets

  function Min(a: int, b: int): (m: int)
    ensures m <= a && m <= b && (m == a || m == b)
  {
    if a <= b then a else b
  }

  // ---------------------------------------------------------------- the queue

  datatype Operation = Write(data: seq<byte>) | Read(len: nat) | Peek(len: nat) | Clear | Resize(newCap: nat)

  /** A smaller buffer does not go with the capacity, which `resize` leaves as it is. */
  predicate Allowed(cap: nat, op: Operation) { op.Resize? ==> cap <= op.newCap }

  predicate AllAllowed(cap: nat, ops: seq<Operation>) { forall i :: 0 <= i < |ops| ==> Allowed(cap, ops[i]) }

  /** What an operation leaves in a queue of `cap` bytes. */
  function Step(q: seq<byte>, cap: nat, op: Operation): (r: seq<byte>)
    requires |q| <= cap && Allowed(cap, op)
    ensures |r| <= cap
  {
    match op
    case Write(data) => q + data[..Min(|data|, cap - |q|)]
    case Read(len) => q[Min(len, |q|)..]
    case Peek(_) => q
    case Clear => []
    case Resize(_) => q
  }

  function Run(q: seq<byte>, cap: nat, ops: seq<Operation>): (r: seq<byte>)
    requires |q| <= cap && AllAllowed(cap, ops)
    ensures |r| <= cap
    decreases ops
  {
    if ops == [] then q else Run(Step(q, cap, ops[0]), cap, ops[1..])
  }

  /** The bytes an operation adds. */
  function Added(q: seq<byte>, cap: nat, op: Operation): seq<byte>
    requires |q| <= cap
  {
    if op.Write? then op.data[..Min(|op.data|, cap - |q|)] else []
  }

  /** The bytes a read returns or a clear drops. */
  function Taken(q: seq<byte>, op: Operation): seq<byte> {
    if op.Read? then q[..Min(op.len, |q|)] else if op.Clear? then q else []
  }

  function AllAdded(q: seq<byte>, cap: nat, ops: seq<Operation>): seq<byte>
    requires |q| <= cap && AllAllowed(cap, ops)
    decreases ops
  {
    if ops == [] then [] else Added(q, cap, ops[0]) + AllAdded(Step(q, cap, ops[0]), cap, ops[1..])
  }

  function AllTaken(q: seq<byte>, cap: nat, ops: seq<Operation>): seq<byte>
    requires |q| <= cap && AllAllowed(cap, ops)
    decreases ops
  {
    if ops == [] then [] else Taken(q, ops[0]) + AllTaken(Step(q, cap, ops[0]), cap, ops[1..])
  }

  lemma OneStep(q: seq<byte>, cap: nat, op: Operation)
    requires |q| <= cap && Allowed(cap, op)
    ensures q + Added(q, cap, op) == Taken(q, op) + Step(q, cap, op)
  {
  }

  /** First in, first out, in every run: what was there and what is added comes out in this order or is still there. */
  lemma {:induction false} FirstInFirstOut(q: seq<byte>, cap: nat, ops: seq<Operation>)
    requires |q| <= cap && AllAllowed(cap, ops)
    ensures q + AllAdded(q, cap, ops) == AllTaken(q, cap, ops) + Run(q, cap, ops)
    decreases ops
  {
    hide Added, Taken;
    if ops == [] {
      assert q + [] == [] + q;
    } else {
      var op, rest, next := ops[0], ops[1..], Step(q, cap, ops[0]);
      FirstInFirstOut(next, cap, rest);
      OneStep(q, cap, op);
      Regroup(q, Added(q, cap, op), AllAdded(next, cap, rest), Taken(q, op), next, AllTaken(next, cap, rest),
              Run(next, cap, rest));
    }
  }

  lemma Regroup(q: seq<byte>, add: seq<byte>, adds: seq<byte>, take: seq<byte>, next: seq<byte>, takes: seq<byte>,
                end: seq<byte>)
    requires q + add == take + next && next + adds == takes + end
    ensures q + (add + adds) == take + takes + end
  {
    assert q + (add + adds) == (q + add) + adds;
    assert (take + next) + adds == take + (next + adds);
    assert take + (takes + end) == take + takes + end;
  }

  // ---------------------------------------------------------------- the ring

  /** The bytes of a ring in order; the start may be at the very end of the buffer. */
  function Ring(buf: seq<byte>, cap: nat, start: nat, size: nat): (r: seq<byte>)
    requires start <= cap <= |buf| && size <= cap
    ensures |r| == size
  {
    if start + size <= cap then buf[start..start + size] else buf[start..cap] + buf[..start + size - cap]
  }

  /** The front of the contents, and the start behind it. */
  lemma RingDrop(buf: seq<byte>, cap: nat, start: nat, size: nat, n: nat)
    requires start <= cap <= |buf| && n <= size <= cap
    ensures var start' := if cap - start < n then n - (cap - start) else start + n;
            Ring(buf, cap, start, size)[n..] == Ring(buf, cap, start', size - n)
    ensures |Ring(buf, cap, start, size)| == size
    ensures Ring(buf, cap, start, size)[..n]
         == if cap - start < n then buf[start..cap] + buf[..n - (cap - start)] else buf[start..start + n]
  {
    var r := Ring(buf, cap, start, size);
    if start + size <= cap {
      assert r[n..] == buf[start + n..start + size] && r[..n] == buf[start..start + n];
    } else if cap - start < n {
      assert r[n..] == buf[n - (cap - start)..start + size - cap];
      assert r[..n] == buf[start..cap] + buf[..n - (cap - start)];
    } else {
      assert r[n..] == buf[start + n..cap] + buf[..start + size - cap] && r[..n] == buf[start..start + n];
    }
  }

  class Buffer {
    var buf: array<byte>
    const cap: nat
    var size: nat
    var start: nat

    ghost predicate Valid()
      reads this
    {
      0 < cap <= buf.Length && size <= cap && start <= cap
    }

    ghost function Contents(): (s: seq<byte>)
      reads this, buf
      requires Valid()
      ensures |s| == size
    {
      Ring(buf[..], cap, start, size)
    }

    constructor (cap: nat)
      requires cap > 0
      ensures Valid() && Contents() == [] && this.cap == cap && fresh(buf)
    {
      this.cap := cap;
      buf := new byte[cap](i => 0);
      size, start := 0, 0;
    }

    /** memmove from the buffer. */
    method Take(out: array<byte>, at: nat, from: nat, n: nat)
      requires out != buf && at + n <= out.Length && from + n <= buf.Length
      modifies out
      ensures forall k :: 0 <= k < out.Length ==> out[k] == if at <= k < at + n then buf[from + k - at] else old(out[k])
    {
      forall k | 0 <= k < n {
        out[at + k] := buf[from + k];
      }
    }

    /** memmove into the buffer. */
    method Put(at: nat, src: seq<byte>)
      requires at + |src| <= buf.Length
      modifies buf
      ensures forall k :: 0 <= k < buf.Length ==> buf[k] == if at <= k < at + |src| then src[k - at] else old(buf[k])
    {
      forall k | 0 <= k < |src| {
        buf[at + k] := src[k];
      }
    }

    /** The two halves of a read or peek. */
    method CopyFront(out: array<byte>, n: nat)
      requires Valid() && out != buf && n <= size && n <= out.Length
      modifies out
      ensures out[..n] == Contents()[..n] && out[n..] == old(out[n..])
    {
      hide Ring;
      RingDrop(buf[..], cap, start, size, n);
      var firsthalf := cap - start;
      if firsthalf < n {
        Take(out, 0, start, firsthalf);
        Take(out, firsthalf, 0, n - firsthalf);
        assert out[..n] == buf[start..start + firsthalf] + buf[..n - firsthalf];
      } else {
        Take(out, 0, start, n);
        assert out[..n] == buf[start..start + n];
      }
    }

    method Peek(out: array<byte>, len: nat) returns (realread: nat)
      requires Valid() && out != buf && Min(len, size) <= out.Length
      modifies out
      ensures realread == Min(len, size)
      ensures out[..realread] == Contents()[..realread] && out[realread..] == old(out[..])[realread..]
      ensures Contents() == Step(old(Contents()), cap, Operation.Peek(len))
    {
      hide Ring;
      realread := len;
      if size <= len {
        realread := size;
      }
      CopyFront(out, realread);
    }

    method Read(out: array<byte>, len: nat) returns (realread: nat)
      requires Valid() && out != buf && Min(len, size) <= out.Length
      modifies this`size, this`start, out
      ensures Valid() && realread == Min(len, old(size)) && size == old(size) - realread
      ensures out[..realread] == old(Contents())[..realread] && out[realread..] == old(out[..])[realread..]
      ensures Contents() == Step(old(Contents()), cap, Operation.Read(len))
    {
      hide Ring;
      realread := len;
      if size <= len {
        realread := size;
      }
      RingDrop(buf[..], cap, start, size, realread);
      CopyFront(out, realread);
      var firsthalf := cap - start;
      if firsthalf < realread {
        start := realread - firsthalf;
      } else {
        start := start + realread;
      }
      size := size - realread;
      if size <= 0 {
        RingEmpty(buf[..], cap, start);
        start := 0;
      }
    }

    method Write(src: seq<byte>) returns (realwrite: nat)
      requires Valid()
      modifies this`size, buf
      ensures Valid() && realwrite == Min(|src|, cap - old(size)) && size == old(size) + realwrite
      ensures Contents() == Step(old(Contents()), cap, Operation.Write(src))
    {
      hide Ring;
      realwrite := |src|;
      if realwrite > cap - size {
        realwrite := cap - size;
      }
      ghost var was := buf[..];
      StopPlace(cap, start, size);
      var stop := (start + size) % cap;
      PutAround(stop, src[..realwrite]);
      RingAppend(was, buf[..], cap, start, size, stop, src[..realwrite]);
      size := size + realwrite;
    }

    /** The two halves of a write. */
    method PutAround(stop: nat, src: seq<byte>)
      requires Valid() && stop < cap && |src| <= cap
      modifies buf
      ensures forall i :: 0 <= i < |src| ==> buf[if stop + i < cap then stop + i else stop + i - cap] == src[i]
      ensures forall i :: 0 <= i < cap && !(stop <= i < stop + |src|) && !(i + cap < stop + |src|) ==>
                buf[i] == old(buf[i])
    {
      var firsthalf := cap - stop;
      if firsthalf < |src| {
        Put(stop, src[..firsthalf]);
        Put(0, src[firsthalf..]);
      } else {
        Put(stop, src);
      }
    }

    method Clear() returns (ret: nat)
      requires Valid()
      modifies this`size, this`start
      ensures Valid() && ret == old(size) && Contents() == Step(old(Contents()), cap, Operation.Clear)
    {
      ret := size;
      size := 0;
      start := 0;
    }

    /**
      resize copies the front of the contents into a new buffer, but keeps the capacity. So the buffer is in order
      afterwards if and only if it has not become smaller than the capacity; then nothing is lost.
     */
    method Resize(newCap: nat) returns (ret: nat)
      requires Valid() && newCap > 0
      modifies this
      ensures ret == size == Min(newCap, old(size)) && start == 0 && buf.Length == newCap
      ensures buf[..ret] == old(Contents())[..ret]
      ensures Valid() <==> newCap >= cap
      ensures newCap >= cap ==> Contents() == Step(old(Contents()), cap, Operation.Resize(newCap)) == old(Contents())
    {
      var larger := new byte[newCap](i => 0);
      ret := Read(larger, newCap);
      buf := larger;
      size := ret;
      start := 0;
    }
  }

  /** Where writing starts. */
  function Stop(cap: nat, start: nat, size: nat): nat {
    if start + size < cap then start + size else if start + size < 2 * cap then start + size - cap else 0
  }

  lemma StopPlace(cap: nat, start: nat, size: nat)
    requires 0 < cap && start <= cap && size <= cap
    ensures (start + size) % cap == Stop(cap, start, size) < cap
  {
    if start + size >= 2 * cap {
      assert start + size == 2 * cap;
    }
  }

  lemma RingEmpty(buf: seq<byte>, cap: nat, start: nat)
    requires start <= cap <= |buf|
    ensures Ring(buf, cap, start, 0) == Ring(buf, cap, 0, 0) == []
  {
  }

  /** Writing behind the contents, across the end of the buffer where need be, appends. */
  lemma {:induction false} RingAppend(was: seq<byte>, now: seq<byte>, cap: nat, start: nat, size: nat, stop: nat,
                                      src: seq<byte>)
    requires 0 < cap <= |was| == |now| && start <= cap && size + |src| <= cap && stop == Stop(cap, start, size)
    requires forall i :: 0 <= i < |src| ==> now[if stop + i < cap then stop + i else stop + i - cap] == src[i]
    requires forall i :: 0 <= i < cap && !(stop <= i < stop + |src|) && !(i + cap < stop + |src|) ==> now[i] == was[i]
    ensures Ring(now, cap, start, size + |src|) == Ring(was, cap, start, size) + src
  {
    hide Ring;
    RingLength(was, cap, start, size);
    RingLength(now, cap, start, size + |src|);
    var r := Ring(now, cap, start, size + |src|);
    forall k | 0 <= k < size + |src|
      ensures r[k] == (Ring(was, cap, start, size) + src)[k]
    {
      RingAt(now, cap, start, size + |src|, k);
      if k < size {
        RingAt(was, cap, start, size, k);
      } else {
        var i := k - size;
        assert now[if stop + i < cap then stop + i else stop + i - cap] == src[i];
      }
    }
  }

  lemma RingLength(buf: seq<byte>, cap: nat, start: nat, size: nat)
    requires start <= cap <= |buf| && size <= cap
    ensures |Ring(buf, cap, start, size)| == size
  {
  }

  lemma RingAt(buf: seq<byte>, cap: nat, start: nat, size: nat, k: nat)
    requires start <= cap <= |buf| && k < size <= cap
    ensures Ring(buf, cap, start, size)[k] == buf[if start + k < cap then start + k else start + k - cap]
  {
  }
}
