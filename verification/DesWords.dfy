/**
  The 32-bit words of be/be_des.cpp and the bit operations the cipher applies to them: the masked swaps that
  make up the initial and final permutations, and the conversion between eight bytes and two words.

  A word is wrapped in a one-field datatype, so that reasoning about whole permutations happens on values and
  only the leaf lemmas below look at bits.
 */
module DesWords {

  datatype Byte = Byte(bits: bv8)

  datatype Word = Word(bits: bv32)

  /** The registers `left` and `right` of the block functions. */
  datatype Halves = Halves(left: Word, right: Word)

  function Not(w: Word): Word { Word(!w.bits) }

  function Xor(a: Word, b: Word): Word { Word(a.bits ^ b.bits) }

  /** Complements both halves of a block. */
  function Flip(h: Halves): Halves { Halves(Not(h.left), Not(h.right)) }

  /** Exchanges the two halves of a block. */
  function Cross(h: Halves): Halves { Halves(h.right, h.left) }

  lemma XorCancels(a: Word, b: Word)
    ensures Xor(Xor(a, b), b) == a
  {
    var c := Xor(Xor(a, b), b);
    assert c.bits == a.bits;
  }

  lemma XorNot(a: Word, b: Word)
    ensures Xor(Not(a), b) == Not(Xor(a, b))
  {
    var c, d := Xor(Not(a), b), Not(Xor(a, b));
    assert c.bits == d.bits;
  }

  // ---------------------------------------------------------------- the masked swaps

  // The macro DO_PERMUTATION, once for every pair of offset and mask it is used with on a data block. The
  // first two take bits from the left word, the last two from the right word.

  function Swap4(h: Halves): Halves {
    var l, r := h.left.bits, h.right.bits;
    var work := ((l >> 4) ^ r) & 0x0f0f0f0f;
    Halves(Word(l ^ (work << 4)), Word(r ^ work))
  }

  function Swap16(h: Halves): Halves {
    var l, r := h.left.bits, h.right.bits;
    var work := ((l >> 16) ^ r) & 0x0000ffff;
    Halves(Word(l ^ (work << 16)), Word(r ^ work))
  }

  function Swap2(h: Halves): Halves {
    var l, r := h.left.bits, h.right.bits;
    var work := ((r >> 2) ^ l) & 0x33333333;
    Halves(Word(l ^ work), Word(r ^ (work << 2)))
  }

  function Swap8(h: Halves): Halves {
    var l, r := h.left.bits, h.right.bits;
    var work := ((r >> 8) ^ l) & 0x00ff00ff;
    Halves(Word(l ^ work), Word(r ^ (work << 8)))
  }

  /** The tail of INITIAL_PERMUTATION: interleave the words and rotate both left by one. */
  function Spread(h: Halves): Halves {
    var l, r := h.left.bits, (h.right.bits << 1) | (h.right.bits >> 31);
    var work := (l ^ r) & 0xaaaaaaaa;
    var l' := l ^ work;
    Halves(Word((l' << 1) | (l' >> 31)), Word(r ^ work))
  }

  /** The head of FINAL_PERMUTATION, which undoes Spread. */
  function Gather(h: Halves): Halves {
    var l, r := (h.left.bits << 31) | (h.left.bits >> 1), h.right.bits;
    var work := (l ^ r) & 0xaaaaaaaa;
    var r' := r ^ work;
    Halves(Word(l ^ work), Word((r' << 31) | (r' >> 1)))
  }

  function InitialPermutation(h: Halves): Halves {
    Spread(Swap8(Swap2(Swap16(Swap4(h)))))
  }

  function FinalPermutation(h: Halves): Halves {
    Swap4(Swap16(Swap2(Swap8(Gather(h)))))
  }

  // ---------------------------------------------------------------- each swap undoes itself

  lemma Swap4Twice(h: Halves)
    ensures Swap4(Swap4(h)) == h
  {
    var a := Swap4(Swap4(h));
    assert a.left.bits == h.left.bits && a.right.bits == h.right.bits;
  }

  lemma Swap16Twice(h: Halves)
    ensures Swap16(Swap16(h)) == h
  {
    var a := Swap16(Swap16(h));
    assert a.left.bits == h.left.bits && a.right.bits == h.right.bits;
  }

  lemma Swap2Twice(h: Halves)
    ensures Swap2(Swap2(h)) == h
  {
    var a := Swap2(Swap2(h));
    assert a.left.bits == h.left.bits && a.right.bits == h.right.bits;
  }

  lemma Swap8Twice(h: Halves)
    ensures Swap8(Swap8(h)) == h
  {
    var a := Swap8(Swap8(h));
    assert a.left.bits == h.left.bits && a.right.bits == h.right.bits;
  }

  lemma GatherSpread(h: Halves)
    ensures Gather(Spread(h)) == h
  {
    var a := Gather(Spread(h));
    assert a.left.bits == h.left.bits && a.right.bits == h.right.bits;
  }

  lemma SpreadGather(h: Halves)
    ensures Spread(Gather(h)) == h
  {
    var a := Spread(Gather(h));
    assert a.left.bits == h.left.bits && a.right.bits == h.right.bits;
  }

  /** FINAL_PERMUTATION undoes INITIAL_PERMUTATION on every block, and the other way round. */
  lemma {:induction false} PermutationsInverse(h: Halves)
    ensures FinalPermutation(InitialPermutation(h)) == h
    ensures InitialPermutation(FinalPermutation(h)) == h
  {
    var a := Swap4(h);
    var b := Swap16(a);
    var c := Swap2(b);
    var d := Swap8(c);
    GatherSpread(d); Swap8Twice(c); Swap2Twice(b); Swap16Twice(a); Swap4Twice(h);
    var p := Gather(h);
    var q := Swap8(p);
    var s := Swap2(q);
    var t := Swap16(s);
    Swap4Twice(t); Swap16Twice(s); Swap2Twice(q); Swap8Twice(p); SpreadGather(h);
  }

  // ---------------------------------------------------------------- each swap commutes with complement

  lemma Swap4Flip(h: Halves)
    ensures Swap4(Flip(h)) == Flip(Swap4(h))
  {
    var a, b := Swap4(Flip(h)), Flip(Swap4(h));
    assert a.left.bits == b.left.bits && a.right.bits == b.right.bits;
  }

  lemma Swap16Flip(h: Halves)
    ensures Swap16(Flip(h)) == Flip(Swap16(h))
  {
    var a, b := Swap16(Flip(h)), Flip(Swap16(h));
    assert a.left.bits == b.left.bits && a.right.bits == b.right.bits;
  }

  lemma Swap2Flip(h: Halves)
    ensures Swap2(Flip(h)) == Flip(Swap2(h))
  {
    var a, b := Swap2(Flip(h)), Flip(Swap2(h));
    assert a.left.bits == b.left.bits && a.right.bits == b.right.bits;
  }

  lemma Swap8Flip(h: Halves)
    ensures Swap8(Flip(h)) == Flip(Swap8(h))
  {
    var a, b := Swap8(Flip(h)), Flip(Swap8(h));
    assert a.left.bits == b.left.bits && a.right.bits == b.right.bits;
  }

  lemma SpreadFlip(h: Halves)
    ensures Spread(Flip(h)) == Flip(Spread(h))
  {
    var a, b := Spread(Flip(h)), Flip(Spread(h));
    assert a.left.bits == b.left.bits && a.right.bits == b.right.bits;
  }

  lemma GatherFlip(h: Halves)
    ensures Gather(Flip(h)) == Flip(Gather(h))
  {
    var a, b := Gather(Flip(h)), Flip(Gather(h));
    assert a.left.bits == b.left.bits && a.right.bits == b.right.bits;
  }

  /** Both permutations commute with complementing the block. */
  lemma {:induction false} PermutationsFlip(h: Halves)
    ensures InitialPermutation(Flip(h)) == Flip(InitialPermutation(h))
    ensures FinalPermutation(Flip(h)) == Flip(FinalPermutation(h))
  {
    var a := Swap4(h);
    var b := Swap16(a);
    var c := Swap2(b);
    Swap4Flip(h); Swap16Flip(a); Swap2Flip(b); Swap8Flip(c); SpreadFlip(Swap8(c));
    var p := Gather(h);
    var q := Swap8(p);
    var s := Swap2(q);
    GatherFlip(h); Swap8Flip(p); Swap2Flip(q); Swap16Flip(s); Swap4Flip(Swap16(s));
  }

  // ---------------------------------------------------------------- bytes

  function ReadWord(b0: Byte, b1: Byte, b2: Byte, b3: Byte): Word {
    Word(((b0.bits as bv32) << 24) | ((b1.bits as bv32) << 16) | ((b2.bits as bv32) << 8) | (b3.bits as bv32))
  }

  function WriteWord(w: Word): (bytes: seq<Byte>)
    ensures |bytes| == 4
  {
    [Byte(((w.bits >> 24) & 0xff) as bv8), Byte(((w.bits >> 16) & 0xff) as bv8),
     Byte(((w.bits >> 8) & 0xff) as bv8), Byte((w.bits & 0xff) as bv8)]
  }

  /** READ_64BIT_DATA. */
  function ReadBlock(data: seq<Byte>): Halves
    requires |data| == 8
  {
    Halves(ReadWord(data[0], data[1], data[2], data[3]), ReadWord(data[4], data[5], data[6], data[7]))
  }

  /** WRITE_64BIT_DATA. */
  function WriteBlock(h: Halves): (data: seq<Byte>)
    ensures |data| == 8
  {
    WriteWord(h.left) + WriteWord(h.right)
  }

  lemma ReadWriteWord(w: Word)
    ensures var s := WriteWord(w); ReadWord(s[0], s[1], s[2], s[3]) == w
  {
    var s := WriteWord(w);
    var v := ReadWord(s[0], s[1], s[2], s[3]);
    assert v.bits == w.bits;
  }

  lemma WriteReadWord(b0: Byte, b1: Byte, b2: Byte, b3: Byte)
    ensures WriteWord(ReadWord(b0, b1, b2, b3)) == [b0, b1, b2, b3]
  {
    var s := WriteWord(ReadWord(b0, b1, b2, b3));
    assert s[0].bits == b0.bits;
    assert s[1].bits == b1.bits;
    assert s[2].bits == b2.bits;
    assert s[3].bits == b3.bits;
  }

  /** Reading and writing a block are inverse, in both directions. */
  lemma BlockBytes(h: Halves, data: seq<Byte>)
    requires |data| == 8
    ensures ReadBlock(WriteBlock(h)) == h
    ensures WriteBlock(ReadBlock(data)) == data
  {
    ReadWriteWord(h.left);
    ReadWriteWord(h.right);
    WriteReadWord(data[0], data[1], data[2], data[3]);
    WriteReadWord(data[4], data[5], data[6], data[7]);
  }

  function NotByte(b: Byte): Byte { Byte(!b.bits) }

  /** The complement of a byte string. */
  function FlipBytes(data: seq<Byte>): (flipped: seq<Byte>)
    ensures |flipped| == |data|
  {
    seq(|data|, i requires 0 <= i < |data| => NotByte(data[i]))
  }

  lemma ReadWordFlip(b0: Byte, b1: Byte, b2: Byte, b3: Byte)
    ensures ReadWord(NotByte(b0), NotByte(b1), NotByte(b2), NotByte(b3)) == Not(ReadWord(b0, b1, b2, b3))
  {
    var a := ReadWord(NotByte(b0), NotByte(b1), NotByte(b2), NotByte(b3));
    var b := Not(ReadWord(b0, b1, b2, b3));
    assert a.bits == b.bits;
  }

  lemma ReadBlockFlip(data: seq<Byte>)
    requires |data| == 8
    ensures ReadBlock(FlipBytes(data)) == Flip(ReadBlock(data))
  {
    ReadWordFlip(data[0], data[1], data[2], data[3]);
    ReadWordFlip(data[4], data[5], data[6], data[7]);
  }

  lemma WriteBlockFlip(h: Halves)
    ensures WriteBlock(Flip(h)) == FlipBytes(WriteBlock(h))
  {
    var data := WriteBlock(h);
    BlockBytes(h, data);
    ReadBlockFlip(data);
    BlockBytes(h, FlipBytes(data));
  }
}
