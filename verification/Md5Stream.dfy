/**
  MD5Init, MD5Update, MD5Final and file_md5 of be/be_md5.cpp against sections 3.1 to 3.5 of RFC 1321, on a machine that
  stores words least significant byte first.
 */
module Md5Stream {
  import opened Arithmetic
  import opened Octets
  import opened LittleEndian
  import opened DesWords
  import opened Md5Transform

  type u32 = x: int | 0 <= x < 0x1_0000_0000

  const INIT := State(Word(0x6745_2301), Word(0xefcd_ab89), Word(0x98ba_dcfe), Word(0x1032_5476))

  // ---------------------------------------------------------------- RFC 1321

  function WordAt(s: seq<byte>): Word
    requires |s| == 4
  {
    SpanValues();
    DigitsOfNumber(s);
    Word(Number(s) as bv32)
  }

  function WordsOf(block: seq<byte>): (x: seq<Word>)
    requires |block| == 64
    ensures |x| == 16
  {
    seq(16, j requires 0 <= j < 16 => WordAt(block[4 * j..4 * j + 4]))
  }

  function BytesOf(w: Word): (s: seq<byte>)
    ensures |s| == 4
  {
    Digits(w.bits as int, 4)
  }

  function Compress(s: State, block: seq<byte>): State
    requires |block| == 64
  {
    RfcTransform(s, WordsOf(block))
  }

  /** Section 3.4: the whole blocks of the data, one after the other. */
  function Hash(s: State, data: seq<byte>): State
    decreases |data|
  {
    if |data| < 64 then s else Hash(Compress(s, data[..64]), data[64..])
  }

  function Zeros(k: nat): (s: seq<byte>)
    ensures |s| == k && forall i :: 0 <= i < k ==> s[i] == 0
  {
    seq(k, i => 0)
  }

  /** The length in bits; only its low 64 bits are used. */
  function BitCount(length: nat): nat { 8 * length % 0x1_0000_0000_0000_0000 }

  /** Zero bytes that bring the length, with the byte 0x80, to 56 modulo 64. */
  function Gap(length: nat): (k: nat)
    ensures k < 64
  {
    (55 - length) % 64
  }

  /** Sections 3.1 and 3.2. */
  function Pad(m: seq<byte>): seq<byte> { m + [0x80] + Zeros(Gap(|m|)) + Digits(BitCount(|m|), 8) }

  /** Section 3.5. */
  function Output(s: State): (digest: seq<byte>)
    ensures |digest| == 16
  {
    BytesOf(s.a) + BytesOf(s.b) + BytesOf(s.c) + BytesOf(s.d)
  }

  function Md5(m: seq<byte>): seq<byte> { Output(Hash(INIT, Pad(m))) }

  /** The digest is A, B, C and D, each with its least significant byte first. */
  lemma OutputBytes(s: State, i: nat)
    requires i < 4
    ensures Output(s)[i] == s.a.bits as int / Span(i) % 256 && Output(s)[4 + i] == s.b.bits as int / Span(i) % 256
    ensures Output(s)[8 + i] == s.c.bits as int / Span(i) % 256 && Output(s)[12 + i] == s.d.bits as int / Span(i) % 256
  {
    hide BytesOf, Span;
    RegisterBytes(s.a, i);
    RegisterBytes(s.b, i);
    RegisterBytes(s.c, i);
    RegisterBytes(s.d, i);
  }

  lemma RegisterBytes(w: Word, i: nat)
    requires i < 4
    ensures |BytesOf(w)| == 4 && BytesOf(w)[i] == w.bits as int / Span(i) % 256
  {
    hide Digits, Span;
    DigitAt(w.bits as int, 4, i);
  }

  /** Word `j` of a block is the one whose bytes, the least significant one first, stand at place 4 * j. */
  lemma BlockWords(block: seq<byte>, j: nat, w: Word)
    requires |block| == 64 && j < 16
    requires forall i :: 0 <= i < 4 ==> block[4 * j + i] == w.bits as int / Span(i) % 256
    ensures WordsOf(block)[j] == w
  {
    hide Span, Digits, WordAt;
    var s := block[4 * j..4 * j + 4];
    forall i | 0 <= i < 4
      ensures s[i] == BytesOf(w)[i]
    {
      RegisterBytes(w, i);
      assert s[i] == block[4 * j + i];
    }
    RegisterBytes(w, 0);
    assert s == BytesOf(w);
    WordOfBytes(w);
  }

  lemma WordOfBytes(w: Word)
    ensures WordAt(BytesOf(w)) == w
  {
    SpanValues();
    NumberOfDigits(w.bits as int, 4);
  }

  /** Section 3.3: the initial registers, as the bytes 01 23 45 67 and so on, least significant first. */
  lemma InitialBytes()
    ensures Digits(INIT.a.bits as int, 4) == [0x01, 0x23, 0x45, 0x67]
    ensures Digits(INIT.b.bits as int, 4) == [0x89, 0xab, 0xcd, 0xef]
    ensures Digits(INIT.c.bits as int, 4) == [0xfe, 0xdc, 0xba, 0x98]
    ensures Digits(INIT.d.bits as int, 4) == [0x76, 0x54, 0x32, 0x10]
  {
    FourDigits(0x01, 0x23, 0x45, 0x67);
    FourDigits(0x89, 0xab, 0xcd, 0xef);
    FourDigits(0xfe, 0xdc, 0xba, 0x98);
    FourDigits(0x76, 0x54, 0x32, 0x10);
  }

  lemma FourDigits(a: byte, b: byte, c: byte, d: byte)
    ensures Digits(a + 256 * (b + 256 * (c + 256 * d)), 4) == [a, b, c, d]
  {
    var s := [a, b, c, d];
    DigitsOfNumber(s);
    assert s[1..] == [b, c, d] && [b, c, d][1..] == [c, d] && [c, d][1..] == [d] && [d][1..] == [];
    assert Number([d]) == d && Number([c, d]) == c + 256 * d;
  }

  // ---------------------------------------------------------------- blocks of a stream

  /** The bytes behind the last whole block. */
  function Tail(m: seq<byte>): (t: seq<byte>)
    ensures |t| == |m| % 64
    decreases |m|
  {
    if |m| < 64 then m else Tail(m[64..])
  }

  /** Bytes that do not complete a block wait in the tail; bytes that do are hashed with it. */
  lemma {:induction false} Extend(s: State, m: seq<byte>, x: seq<byte>)
    requires |Tail(m)| + |x| <= 64
    ensures |Tail(m)| + |x| < 64 ==> Hash(s, m + x) == Hash(s, m) && Tail(m + x) == Tail(m) + x
    ensures |Tail(m)| + |x| == 64 ==> Hash(s, m + x) == Compress(Hash(s, m), Tail(m) + x) && Tail(m + x) == []
    decreases |m|
  {
    hide Compress;
    if |m| < 64 {
      ShortTail(m);
      if |m + x| == 64 {
        assert (m + x)[..64] == m + x && (m + x)[64..] == [];
      }
    } else {
      assert (m + x)[..64] == m[..64] && (m + x)[64..] == m[64..] + x;
      Extend(Compress(s, m[..64]), m[64..], x);
    }
  }

  lemma ShortTail(m: seq<byte>)
    requires |m| < 64
    ensures Tail(m) == m
  {
  }

  /** Padding completes a block, so hashing the padded message leaves nothing out. */
  lemma PadWhole(m: seq<byte>)
    ensures |Pad(m)| % 64 == 0 && |m| < |Pad(m)| && Tail(Pad(m)) == []
  {
    var k := (55 - |m|) / 64;
    assert 55 - |m| == 64 * k + Gap(|m|);
    Quotient(|Pad(m)|, 64, 1 - k, 0);
  }

  /**
    Sections 3.1 and 3.2 bit by bit: behind the message comes a byte with only its highest bit set, then zeros up to
    the last eight bytes of the block, and these are the length in bits, least significant byte first.
   */
  lemma PadLayout(m: seq<byte>, i: nat)
    requires |m| <= i < |Pad(m)|
    ensures m <= Pad(m) && |m| + 9 <= |Pad(m)| < |m| + 73
    ensures Pad(m)[i] == if i == |m| then 128
                         else if i < |Pad(m)| - 8 then 0
                         else 8 * |m| / Span(i - (|Pad(m)| - 8)) % 256
  {
    hide Digits, Span, Gap;
    var k := |Pad(m)| - 8;
    if i >= k {
      assert Pad(m)[i] == Digits(BitCount(|m|), 8)[i - k];
      DigitAt(BitCount(|m|), 8, i - k);
      LowDigits(8 * |m|, i - k);
    }
  }

  /** The low eight bytes of a number are those of the number modulo 2^64. */
  lemma LowDigits(n: nat, j: nat)
    requires j < 8
    ensures n % 0x1_0000_0000_0000_0000 / Span(j) % 256 == n / Span(j) % 256
  {
    hide Span;
    SpanValues();
    DigitsSplit(n, 8, 0, Span(8));
    DigitAt(n, 8, j);
    DigitAt(n % Span(8), 8, j);
  }

  /** Below 2^61 bytes different messages have different paddings. */
  lemma PadInjective(m: seq<byte>, n: seq<byte>)
    requires |m| < 0x2000_0000_0000_0000 && |n| < 0x2000_0000_0000_0000 && Pad(m) == Pad(n)
    ensures m == n
  {
    hide Gap, Zeros;
    var k := |Pad(m)| - 8;
    assert Pad(m)[k..] == Digits(BitCount(|m|), 8) && Pad(n)[k..] == Digits(BitCount(|n|), 8);
    SameCount(|m|, |n|);
    assert m == Pad(m)[..|m|] && n == Pad(n)[..|n|];
  }

  lemma SameCount(m: nat, n: nat)
    requires m < 0x2000_0000_0000_0000 && n < 0x2000_0000_0000_0000
    requires Digits(BitCount(m), 8) == Digits(BitCount(n), 8)
    ensures m == n
  {
    hide Digits;
    SpanValues();
    NumberOfDigits(BitCount(m), 8);
    NumberOfDigits(BitCount(n), 8);
  }

  // ---------------------------------------------------------------- the two counter words

  function Low(length: nat): u32 { 8 * length % 0x1_0000_0000 }

  function High(length: nat): u32 { 8 * length / 0x1_0000_0000 % 0x1_0000_0000 }

  /** How MD5Update advances the counter words, the carry included. */
  function NextLow(low: u32, len: u32): u32 { (low + 8 * len % 0x1_0000_0000) % 0x1_0000_0000 }

  function NextHigh(low: u32, high: u32, len: u32): u32 {
    var carried := if NextLow(low, len) < low then (high + 1) % 0x1_0000_0000 else high;
    (carried + len / 0x2000_0000) % 0x1_0000_0000
  }

  /** The counter words are the length in bits modulo 2^64, and stay so. */
  lemma {:induction false} CountersAdvance(length: nat, len: u32)
    ensures NextLow(Low(length), len) == Low(length + len)
    ensures NextHigh(Low(length), High(length), len) == High(length + len)
  {
    var w := 0x1_0000_0000;
    var q, r := 8 * length / w, 8 * length % w;
    var p, s := len / 0x2000_0000, 8 * len % w;
    LengthShifted(len, p, s);
    AddSplit(length, len, q, r, p, s);
    HighPart(q, p, q + p);
    HighPart(q, 1, q + 1);
    HighPart(q + 1, p, q + p + 1);
  }

  lemma LengthShifted(len: u32, p: int, s: int)
    requires p == len / 0x2000_0000 && s == 8 * len % 0x1_0000_0000
    ensures 8 * len == p * 0x1_0000_0000 + s
  {
  }

  /** Adding the two counts in 32-bit halves. */
  lemma AddSplit(length: nat, len: nat, q: nat, r: nat, p: nat, s: nat)
    requires r < 0x1_0000_0000 && s < 0x1_0000_0000
    requires 8 * length == q * 0x1_0000_0000 + r && 8 * len == p * 0x1_0000_0000 + s
    ensures var n, sum := 8 * (length + len), (r + s) % 0x1_0000_0000;
            && n % 0x1_0000_0000 == sum
            && n / 0x1_0000_0000 == q + p + (if sum < r then 1 else 0)
  {
    var w, n := 0x1_0000_0000, 8 * (length + len);
    if r + s < w {
      Quotient(n, w, q + p, r + s);
      Quotient(r + s, w, 0, r + s);
    } else {
      Quotient(n, w, q + p + 1, r + s - w);
      Quotient(r + s, w, 1, r + s - w);
    }
  }

  /** How many bytes wait in the buffer. */
  lemma WaitingBytes(length: nat)
    ensures Low(length) / 8 % 64 == length % 64
  {
    var w := 0x1_0000_0000;
    var q, r := 8 * length / w, 8 * length % w;
    assert 8 * length == q * w + r && r == 8 * (r / 8);
    assert length == 64 * (q * 0x80_0000) + r / 8;
    Quotient(length, 64, q * 0x80_0000 + r / 8 / 64, r / 8 % 64);
  }

  lemma HighPart(q: nat, p: nat, sum: nat)
    requires sum == q + p
    ensures (q % 0x1_0000_0000 + p) % 0x1_0000_0000 == sum % 0x1_0000_0000
  {
  }

  /** Section 3.2: the counter is appended low word first. */
  lemma {:induction false} CounterBytes(length: nat)
    ensures Digits(BitCount(length), 8) == Digits(Low(length), 4) + Digits(High(length), 4)
  {
    SpanValues();
    var n, w := BitCount(length), 0x1_0000_0000;
    DigitsSplit(n, 4, 4, w);
    var v := 8 * length;
    var h := v / (w * w);
    assert v == h * (w * w) + n;
    assert n == n / w * w + n % w;
    assert v == (h * w + n / w) * w + n % w;
    Quotient(v, w, h * w + n / w, n % w);
    Quotient(v / w, w, h, n / w);
  }

  // ---------------------------------------------------------------- the context

  class Context {
    const buf: array<Word>
    const bits: array<int>
    const block: array<byte>

    ghost predicate Valid() {
      buf.Length == 4 && bits.Length == 2 && block.Length == 64
    }

    ghost function Registers(): State
      requires Valid()
      reads buf
    {
      State(buf[0], buf[1], buf[2], buf[3])
    }

    /** The context has been fed the message `m`. */
    ghost predicate Holds(m: seq<byte>)
      requires Valid()
      reads buf, bits, block
    {
      && Registers() == Hash(INIT, m)
      && bits[0] == Low(|m|) && bits[1] == High(|m|)
      && block[..|Tail(m)|] == Tail(m)
    }

    /** A context, and MD5Init on it. */
    constructor ()
      ensures Valid() && Holds([]) && fresh(buf) && fresh(bits) && fresh(block)
    {
      buf := new Word[4](i => Word(0));
      bits := new int[2](i => 0);
      block := new byte[64](i => 0);
      new;
      buf[0] := Word(0x6745_2301);
      buf[1] := Word(0xefcd_ab89);
      buf[2] := Word(0x98ba_dcfe);
      buf[3] := Word(0x1032_5476);
      bits[0] := 0;
      bits[1] := 0;
      assert Tail([]) == [];
    }

    /** MD5Transform on the buffered block. */
    method Digest64()
      requires Valid()
      modifies buf
      ensures Registers() == Compress(old(Registers()), block[..])
    {
      hide RfcTransform;
      Md5Transform.Transform(buf, WordsOf(block[..]));
    }

    /** memcpy into the block. */
    method Copy(at: nat, src: seq<byte>)
      requires Valid() && at + |src| <= 64
      modifies block
      ensures block[..] == old(block[..at]) + src + old(block[at + |src|..])
    {
      forall k | 0 <= k < |src| {
        block[at + k] := src[k];
      }
    }

    /** The first lines of MD5Update. */
    method Count(len: u32) returns (t: nat)
      requires Valid() && 0 <= bits[0] < 0x1_0000_0000 && 0 <= bits[1] < 0x1_0000_0000
      modifies bits
      ensures bits[0] == NextLow(old(bits[0]), len) && bits[1] == NextHigh(old(bits[0]), old(bits[1]), len)
      ensures t == old(bits[0]) / 8 % 64
    {
      t := bits[0];
      bits[0] := (t + 8 * len % 0x1_0000_0000) % 0x1_0000_0000;
      if bits[0] < t {
        bits[1] := (bits[1] + 1) % 0x1_0000_0000;
      }
      bits[1] := (bits[1] + len / 0x2000_0000) % 0x1_0000_0000;
      t := t / 8 % 64;
    }

    /** Bytes behind those that wait already; a full block is hashed. */
    method Append(t: nat, x: seq<byte>, ghost m: seq<byte>)
      requires Valid() && Registers() == Hash(INIT, m) && block[..|Tail(m)|] == Tail(m)
      requires t == |Tail(m)| && t + |x| <= 64
      modifies buf, block
      ensures Registers() == Hash(INIT, m + x) && block[..|Tail(m + x)|] == Tail(m + x)
    {
      hide Hash, Tail, Compress;
      TailLength(m);
      TailLength(m + x);
      Extend(INIT, m, x);
      Copy(t, x);
      if t + |x| == 64 {
        assert block[..] == Tail(m) + x;
        Digest64();
      } else {
        assert block[..t + |x|] == Tail(m) + x;
      }
    }

    /** MD5Update. */
    method Update(data: seq<byte>, ghost m: seq<byte>)
      requires Valid() && Holds(m) && |data| < 0x1_0000_0000
      modifies buf, bits, block
      ensures Holds(m + data)
    {
      hide Hash, Tail, Low, High, NextLow, NextHigh, Compress;
      TailLength(m);
      LowRange(|m|);
      CountersAdvance(|m|, |data|);
      WaitingBytes(|m|);
      var t := Count(|data|);
      var at := 0;
      if t != 0 {
        if |data| < 64 - t {
          Append(t, data, m);
          return;
        }
        at := 64 - t;
        Append(t, data[..at], m);
        FullTail(m, data[..at]);
        TailLength(m + data[..at]);
      } else {
        assert m == m + data[..0];
      }
      ghost var done, start := m + data[..at], at;
      at := Blocks(data, at, done);
      Append(0, data[at..], done + data[start..at]);
      assert done + data[start..at] + data[at..] == m + data;
    }

    /** The loop of MD5Update over whole blocks; `done` has been hashed before. */
    method Blocks(data: seq<byte>, start: nat, ghost done: seq<byte>) returns (at: nat)
      requires Valid() && start <= |data| && |done| % 64 == 0 && Registers() == Hash(INIT, done)
      modifies buf, block
      ensures start <= at <= |data| && |data| - at < 64
      ensures Tail(done + data[start..at]) == [] && Registers() == Hash(INIT, done + data[start..at])
    {
      hide Hash, Tail, Compress;
      TailLength(done);
      at := start;
      assert done + data[start..start] == done;
      while |data| - at >= 64
        invariant start <= at <= |data|
        invariant Tail(done + data[start..at]) == [] && Registers() == Hash(INIT, done + data[start..at])
      {
        Append(0, data[at..at + 64], done + data[start..at]);
        FullTail(done + data[start..at], data[at..at + 64]);
        assert done + data[start..at] + data[at..at + 64] == done + data[start..at + 64];
        at := at + 64;
      }
    }

    /** MD5Final up to the digest: two blocks of padding if the first has no room for the length, else one. */
    method Finish(ghost m: seq<byte>)
      requires Valid() && Holds(m)
      modifies buf, block
      ensures Registers() == Hash(INIT, Pad(m))
    {
      hide Hash, Tail, Low, High, Compress, Pad, Digits, Zeros, BitCount;
      TailLength(m);
      WaitingBytes(|m|);
      PadSplit(m);
      var length := Digits(bits[0], 4) + Digits(bits[1], 4);
      Complete(bits[0] / 8 % 64, length, m);
    }

    /** The padding behind `count` bytes that wait. */
    method Complete(count: nat, length: seq<byte>, ghost m: seq<byte>)
      requires Valid() && Registers() == Hash(INIT, m) && block[..|Tail(m)|] == Tail(m)
      requires count == |Tail(m)| < 64 && |length| == 8
      requires var free := 63 - count;
               Pad(m) == if free < 8 then m + ([0x80] + Zeros(free)) + (Zeros(56) + length)
                         else m + ([0x80] + Zeros(free - 8) + length)
      modifies buf, block
      ensures Registers() == Hash(INIT, Pad(m))
    {
      hide Hash, Tail, Compress, Pad;
      var free := 63 - count;
      if free < 8 {
        Append(count, [0x80] + Zeros(free), m);
        FullTail(m, [0x80] + Zeros(free));
        Append(0, Zeros(56) + length, m + ([0x80] + Zeros(free)));
      } else {
        Append(count, [0x80] + Zeros(free - 8) + length, m);
      }
    }

    /** MD5Final. The last memset clears as many bytes as a pointer has: two of the four registers. */
    method Final(digest: array<byte>, ghost m: seq<byte>)
      requires Valid() && Holds(m) && digest.Length == 16 && digest != block
      modifies buf, block, digest
      ensures digest[..] == Md5(m)
      ensures buf[0] == buf[1] == Word(0)
    {
      hide Hash, Pad;
      Finish(m);
      var out := Output(State(buf[0], buf[1], buf[2], buf[3]));
      forall k | 0 <= k < 16 {
        digest[k] := out[k];
      }
      buf[0] := Word(0);
      buf[1] := Word(0);
    }
  }

  lemma {:induction false} FullTail(m: seq<byte>, x: seq<byte>)
    requires |Tail(m)| + |x| == 64
    ensures Tail(m + x) == []
  {
    Extend(INIT, m, x);
  }

  lemma LowRange(length: nat)
    ensures 0 <= Low(length) < 0x1_0000_0000 && 0 <= High(length) < 0x1_0000_0000
  {
  }

  /** The pieces MD5Final appends make up the padding. */
  lemma {:induction false} PadSplit(m: seq<byte>)
    ensures 0 <= Low(|m|) && 0 <= High(|m|)
    ensures var free, length := 63 - |m| % 64, Digits(Low(|m|), 4) + Digits(High(|m|), 4);
            Pad(m) == if free < 8 then m + ([0x80] + Zeros(free)) + (Zeros(56) + length)
                      else m + ([0x80] + Zeros(free - 8) + length)
  {
    hide Low, High, BitCount, Gap, Digits;
    LowRange(|m|);
    GapOf(|m|);
    CounterBytes(|m|);
    var free := 63 - |m| % 64;
    if free < 8 {
      assert Zeros(Gap(|m|)) == Zeros(free) + Zeros(56);
    }
  }

  lemma GapOf(length: nat)
    ensures Gap(length) == if length % 64 < 56 then 55 - length % 64 else 119 - length % 64
  {
    var q, r := length / 64, length % 64;
    assert length == 64 * q + r;
    if r < 56 {
      Quotient(55 - length, 64, -q, 55 - r);
    } else {
      Quotient(55 - length, 64, -q - 1, 119 - r);
    }
  }

  function Concat(chunks: seq<seq<byte>>): seq<byte> {
    if chunks == [] then [] else Concat(chunks[..|chunks| - 1]) + chunks[|chunks| - 1]
  }

  /**
    The loop of file_md5 with the chunks the reads return: however the file is split, the digest is that of the file.
   */
  method DigestOfChunks(chunks: seq<seq<byte>>) returns (md5val: array<byte>)
    requires forall i :: 0 <= i < |chunks| ==> |chunks[i]| < 0x1_0000_0000
    ensures md5val[..] == Md5(Concat(chunks))
  {
    hide Hash, Tail, Low, High, Md5;
    var ctx := new Context();
    var i := 0;
    while i < |chunks|
      invariant 0 <= i <= |chunks| && ctx.Valid() && ctx.Holds(Concat(chunks[..i]))
      invariant fresh(ctx) && fresh(ctx.buf) && fresh(ctx.bits) && fresh(ctx.block)
    {
      assert chunks[..i + 1][..i] == chunks[..i];
      ctx.Update(chunks[i], Concat(chunks[..i]));
      i := i + 1;
    }
    assert chunks[..i] == chunks;
    md5val := new byte[16](k => 0);
    ctx.Final(md5val, Concat(chunks));
  }

  lemma TailLength(m: seq<byte>)
    ensures |Tail(m)| == |m| % 64
  {
  }
}
