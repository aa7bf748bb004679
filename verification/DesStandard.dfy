/**
  The Data Encryption Standard, written from the tables of FIPS PUB 46-3, and the theorem that the optimised code
  of be/be_des.cpp computes it: the masked swaps, the nibble tables of the key schedule, the shift-and-mask form of
  permuted choice 2 and the pre-permuted S-boxes together give the standard's function on every key and block.

  Bits are numbered from the left, starting at 1, as in the standard.
 */
module DesStandard {
  import opened DesWords
  import opened DesCipher
  import opened DesKeySchedule
  import opened DesTables

  // ---------------------------------------------------------------- reading the standard's tables

  /** Bit `n` of a 64-bit block. */
  function Bit(h: Halves, n: bv32): bv32
    requires 1 <= n <= 64
  {
    if n <= 32 then (h.left.bits >> (32 - n)) & 1 else (h.right.bits >> (64 - n)) & 1
  }

  /** Bit `n` of a 56-bit key, 28 bits to a word. */
  function KeyBit(h: Halves, n: bv32): bv32
    requires 1 <= n <= 56
  {
    if n <= 28 then (h.left.bits >> (28 - n)) & 1 else (h.right.bits >> (56 - n)) & 1
  }

  /** Bit `n` of a 32-bit word. */
  function WordBit(w: Word, n: bv32): bv32
    requires 1 <= n <= 32
  {
    (w.bits >> (32 - n)) & 1
  }

  /** One row of the tables IP and IP^-1. */
  function BlockRow(h: Halves, a: bv32, b: bv32, c: bv32, d: bv32, e: bv32, f: bv32, g: bv32, i: bv32): bv32
    requires 1 <= a <= 64 && 1 <= b <= 64 && 1 <= c <= 64 && 1 <= d <= 64
    requires 1 <= e <= 64 && 1 <= f <= 64 && 1 <= g <= 64 && 1 <= i <= 64
  {
    (Bit(h, a) << 7) | (Bit(h, b) << 6) | (Bit(h, c) << 5) | (Bit(h, d) << 4)
    | (Bit(h, e) << 3) | (Bit(h, f) << 2) | (Bit(h, g) << 1) | Bit(h, i)
  }

  /** One row of the table PC-1. */
  function ChoiceRow(h: Halves, a: bv32, b: bv32, c: bv32, d: bv32, e: bv32, f: bv32, g: bv32): bv32
    requires 1 <= a <= 64 && 1 <= b <= 64 && 1 <= c <= 64 && 1 <= d <= 64
    requires 1 <= e <= 64 && 1 <= f <= 64 && 1 <= g <= 64
  {
    (Bit(h, a) << 6) | (Bit(h, b) << 5) | (Bit(h, c) << 4) | (Bit(h, d) << 3)
    | (Bit(h, e) << 2) | (Bit(h, f) << 1) | Bit(h, g)
  }

  /** One row of the table PC-2. */
  function KeyRow(h: Halves, a: bv32, b: bv32, c: bv32, d: bv32, e: bv32, f: bv32): bv32
    requires 1 <= a <= 56 && 1 <= b <= 56 && 1 <= c <= 56
    requires 1 <= d <= 56 && 1 <= e <= 56 && 1 <= f <= 56
  {
    (KeyBit(h, a) << 5) | (KeyBit(h, b) << 4) | (KeyBit(h, c) << 3)
    | (KeyBit(h, d) << 2) | (KeyBit(h, e) << 1) | KeyBit(h, f)
  }

  /** One row of the E bit-selection table. */
  function SelectRow(w: Word, a: bv32, b: bv32, c: bv32, d: bv32, e: bv32, f: bv32): bv32
    requires 1 <= a <= 32 && 1 <= b <= 32 && 1 <= c <= 32
    requires 1 <= d <= 32 && 1 <= e <= 32 && 1 <= f <= 32
  {
    (WordBit(w, a) << 5) | (WordBit(w, b) << 4) | (WordBit(w, c) << 3)
    | (WordBit(w, d) << 2) | (WordBit(w, e) << 1) | WordBit(w, f)
  }

  /** Two rows of the table P. */
  function MixRow(w: Word, a: bv32, b: bv32, c: bv32, d: bv32, e: bv32, f: bv32, g: bv32, i: bv32): bv32
    requires 1 <= a <= 32 && 1 <= b <= 32 && 1 <= c <= 32 && 1 <= d <= 32
    requires 1 <= e <= 32 && 1 <= f <= 32 && 1 <= g <= 32 && 1 <= i <= 32
  {
    (WordBit(w, a) << 7) | (WordBit(w, b) << 6) | (WordBit(w, c) << 5) | (WordBit(w, d) << 4)
    | (WordBit(w, e) << 3) | (WordBit(w, f) << 2) | (WordBit(w, g) << 1) | WordBit(w, i)
  }

  // ---------------------------------------------------------------- the standard

  function IP(h: Halves): Halves {
    Halves(
      Word((BlockRow(h, 58, 50, 42, 34, 26, 18, 10, 2) << 24)
        | (BlockRow(h, 60, 52, 44, 36, 28, 20, 12, 4) << 16)
        | (BlockRow(h, 62, 54, 46, 38, 30, 22, 14, 6) << 8)
        | BlockRow(h, 64, 56, 48, 40, 32, 24, 16, 8)),
      Word((BlockRow(h, 57, 49, 41, 33, 25, 17, 9, 1) << 24)
        | (BlockRow(h, 59, 51, 43, 35, 27, 19, 11, 3) << 16)
        | (BlockRow(h, 61, 53, 45, 37, 29, 21, 13, 5) << 8)
        | BlockRow(h, 63, 55, 47, 39, 31, 23, 15, 7)))
  }

  function InverseIP(h: Halves): Halves {
    Halves(
      Word((BlockRow(h, 40, 8, 48, 16, 56, 24, 64, 32) << 24)
        | (BlockRow(h, 39, 7, 47, 15, 55, 23, 63, 31) << 16)
        | (BlockRow(h, 38, 6, 46, 14, 54, 22, 62, 30) << 8)
        | BlockRow(h, 37, 5, 45, 13, 53, 21, 61, 29)),
      Word((BlockRow(h, 36, 4, 44, 12, 52, 20, 60, 28) << 24)
        | (BlockRow(h, 35, 3, 43, 11, 51, 19, 59, 27) << 16)
        | (BlockRow(h, 34, 2, 42, 10, 50, 18, 58, 26) << 8)
        | BlockRow(h, 33, 1, 41, 9, 49, 17, 57, 25)))
  }

  function PC1(key: Halves): Halves {
    Halves(
      Word((ChoiceRow(key, 57, 49, 41, 33, 25, 17, 9) << 21)
        | (ChoiceRow(key, 1, 58, 50, 42, 34, 26, 18) << 14)
        | (ChoiceRow(key, 10, 2, 59, 51, 43, 35, 27) << 7)
        | ChoiceRow(key, 19, 11, 3, 60, 52, 44, 36)),
      Word((ChoiceRow(key, 63, 55, 47, 39, 31, 23, 15) << 21)
        | (ChoiceRow(key, 7, 62, 54, 46, 38, 30, 22) << 14)
        | (ChoiceRow(key, 14, 6, 61, 53, 45, 37, 29) << 7)
        | ChoiceRow(key, 21, 13, 5, 28, 20, 12, 4)))
  }

  /** Forty-eight bits as eight groups of six: the input of the S-boxes, or a round key. */
  datatype Groups = Groups(g1: Word, g2: Word, g3: Word, g4: Word, g5: Word, g6: Word, g7: Word, g8: Word)

  /** Bit-by-bit addition modulo 2. */
  function Plus(a: Word, b: Word): Word { Word((a.bits & !b.bits) | (!a.bits & b.bits)) }

  function XorGroups(a: Groups, b: Groups): Groups {
    Groups(Plus(a.g1, b.g1), Plus(a.g2, b.g2), Plus(a.g3, b.g3), Plus(a.g4, b.g4),
           Plus(a.g5, b.g5), Plus(a.g6, b.g6), Plus(a.g7, b.g7), Plus(a.g8, b.g8))
  }

  function PC2(cd: Halves): Groups {
    Groups(
      Word(KeyRow(cd, 14, 17, 11, 24, 1, 5)),
      Word(KeyRow(cd, 3, 28, 15, 6, 21, 10)),
      Word(KeyRow(cd, 23, 19, 12, 4, 26, 8)),
      Word(KeyRow(cd, 16, 7, 27, 20, 13, 2)),
      Word(KeyRow(cd, 41, 52, 31, 37, 47, 55)),
      Word(KeyRow(cd, 30, 40, 51, 45, 33, 48)),
      Word(KeyRow(cd, 44, 49, 39, 56, 34, 53)),
      Word(KeyRow(cd, 46, 42, 50, 36, 29, 32)))
  }

  function E(r: Word): Groups {
    Groups(
      Word(SelectRow(r, 32, 1, 2, 3, 4, 5)),
      Word(SelectRow(r, 4, 5, 6, 7, 8, 9)),
      Word(SelectRow(r, 8, 9, 10, 11, 12, 13)),
      Word(SelectRow(r, 12, 13, 14, 15, 16, 17)),
      Word(SelectRow(r, 16, 17, 18, 19, 20, 21)),
      Word(SelectRow(r, 20, 21, 22, 23, 24, 25)),
      Word(SelectRow(r, 24, 25, 26, 27, 28, 29)),
      Word(SelectRow(r, 28, 29, 30, 31, 32, 1)))
  }

  function P(w: Word): Word {
    Word((MixRow(w, 16, 7, 20, 21, 29, 12, 28, 17) << 24)
        | (MixRow(w, 1, 15, 23, 26, 5, 18, 31, 10) << 16)
        | (MixRow(w, 2, 8, 24, 14, 32, 27, 3, 9) << 8)
        | MixRow(w, 19, 13, 30, 6, 22, 11, 4, 25))
  }

  /**
    An S-box given by its four rows of sixteen hexadecimal digits: the outer bits of the group select the row, the
    inner four the column.
   */
  function Substitute(group: Word, r0: bv64, r1: bv64, r2: bv64, r3: bv64): Word {
    var x := group.bits;
    var row := if x & 0x20 == 0 then if x & 1 == 0 then r0 else r1 else if x & 1 == 0 then r2 else r3;
    var column := ((x >> 1) & 0xf) as bv64;
    Word(((row >> (60 - 4 * column)) & 0xf) as bv32)
  }

  function S1(group: Word): Word {
    Substitute(group, 0xe4d12fb83a6c5907, 0x0f74e2d1a6cb9538, 0x41e8d62bfc973a50, 0xfc8249175b3ea06d)
  }

  function S2(group: Word): Word {
    Substitute(group, 0xf18e6b34972dc05a, 0x3d47f28ec01a69b5, 0x0e7ba4d158c6932f, 0xd8a13f42b67c05e9)
  }

  function S3(group: Word): Word {
    Substitute(group, 0xa09e63f51dc7b428, 0xd709346a285ecbf1, 0xd6498f30b12c5ae7, 0x1ad069874fe3b52c)
  }

  function S4(group: Word): Word {
    Substitute(group, 0x7de3069a1285bc4f, 0xd8b56f03472c1ae9, 0xa690cb7df13e5284, 0x3f06a1d8945bc72e)
  }

  function S5(group: Word): Word {
    Substitute(group, 0x2c417ab6853fd0e9, 0xeb2c47d150fa3986, 0x421bad78f9c5630e, 0xb8c71e2d6f09a453)
  }

  function S6(group: Word): Word {
    Substitute(group, 0xc1af92680d34e75b, 0xaf427c9561de0b38, 0x9ef528c3704a1db6, 0x432c95fabe17608d)
  }

  function S7(group: Word): Word {
    Substitute(group, 0x4b2ef08d3c975a61, 0xd0b7491ae35c2f86, 0x14bdc37eaf680592, 0x6bd814a7950fe23c)
  }

  function S8(group: Word): Word {
    Substitute(group, 0xd2846fb1a93e50c7, 0x1fd8a374c56b0e92, 0x7b419ce206adf358, 0x21e74a8dfc90356b)
  }

  // Eight four-bit digits as one word.

  function Digit1(d: Word): Word { Word((d.bits & 0xf) << 28) }
  function Digit2(d: Word): Word { Word((d.bits & 0xf) << 24) }
  function Digit3(d: Word): Word { Word((d.bits & 0xf) << 20) }
  function Digit4(d: Word): Word { Word((d.bits & 0xf) << 16) }
  function Digit5(d: Word): Word { Word((d.bits & 0xf) << 12) }
  function Digit6(d: Word): Word { Word((d.bits & 0xf) << 8) }
  function Digit7(d: Word): Word { Word((d.bits & 0xf) << 4) }
  function Digit8(d: Word): Word { Word(d.bits & 0xf) }

  function Join(a: Word, b: Word, c: Word, d: Word, e: Word, f: Word, g: Word, h: Word): Word {
    Word(Digit1(a).bits | Digit2(b).bits | Digit3(c).bits | Digit4(d).bits
      | Digit5(e).bits | Digit6(f).bits | Digit7(g).bits | Digit8(h).bits)
  }

  /** The cipher function f(R, K). */
  function CipherFunction(r: Word, k: Groups): Word {
    var x := XorGroups(E(r), k);
    P(Join(S1(x.g1), S2(x.g2), S3(x.g3), S4(x.g4), S5(x.g5), S6(x.g6), S7(x.g7), S8(x.g8)))
  }

  function StandardRound(h: Halves, k: Groups): Halves {
    Halves(h.right, Plus(h.left, CipherFunction(h.right, k)))
  }

  /** Bit `n` of a 28-bit half of the key. */
  function HalfBit(w: Word, n: bv32): bv32
    requires 1 <= n <= 28
  {
    (w.bits >> (28 - n)) & 1
  }

  /** Seven consecutive bits of a half. */
  function HalfRow(w: Word, a: bv32, b: bv32, c: bv32, d: bv32, e: bv32, f: bv32, g: bv32): bv32
    requires 1 <= a <= 28 && 1 <= b <= 28 && 1 <= c <= 28 && 1 <= d <= 28
    requires 1 <= e <= 28 && 1 <= f <= 28 && 1 <= g <= 28
  {
    (HalfBit(w, a) << 6) | (HalfBit(w, b) << 5) | (HalfBit(w, c) << 4) | (HalfBit(w, d) << 3)
    | (HalfBit(w, e) << 2) | (HalfBit(w, f) << 1) | HalfBit(w, g)
  }

  /** One left shift: the bits that were in positions 2, 3, ..., 28, 1. */
  function LeftShift(w: Word): Word {
    Word((HalfRow(w, 2, 3, 4, 5, 6, 7, 8) << 21) | (HalfRow(w, 9, 10, 11, 12, 13, 14, 15) << 14)
      | (HalfRow(w, 16, 17, 18, 19, 20, 21, 22) << 7) | HalfRow(w, 23, 24, 25, 26, 27, 28, 1))
  }

  function ShiftHalves(h: Halves): Halves { Halves(LeftShift(h.left), LeftShift(h.right)) }

  /** The left shifts of an iteration: one in iterations 1, 2, 9 and 16, else two. */
  function KeyShift(h: Halves, iteration: nat): Halves {
    if iteration in {1, 2, 9, 16} then ShiftHalves(h) else ShiftHalves(ShiftHalves(h))
  }

  /** The rounds from `round` on; the key halves are shifted before each round key is selected. */
  function StandardRounds(h: Halves, cd: Halves, round: nat): Halves
    requires round <= 16
    decreases 16 - round
  {
    if round == 16 then h
    else
      var next := KeyShift(cd, round + 1);
      StandardRounds(StandardRound(h, PC2(next)), next, round + 1)
  }

  /** Bit `j` of a byte, the most significant one first. */
  function ByteBit(b: Byte, j: bv32): bv32
    requires 1 <= j <= 8
  {
    ((b.bits as bv32) >> (8 - j)) & 1
  }

  function ByteBits(b: Byte): bv32 {
    (ByteBit(b, 1) << 7) | (ByteBit(b, 2) << 6) | (ByteBit(b, 3) << 5) | (ByteBit(b, 4) << 4)
    | (ByteBit(b, 5) << 3) | (ByteBit(b, 6) << 2) | (ByteBit(b, 7) << 1) | ByteBit(b, 8)
  }

  /** Eight bytes as a block of 64 bits: bit 1 is the most significant bit of the first byte. */
  function Block(data: seq<Byte>): Halves
    requires |data| == 8
  {
    Halves(Word((ByteBits(data[0]) << 24) | (ByteBits(data[1]) << 16) | (ByteBits(data[2]) << 8) | ByteBits(data[3])),
           Word((ByteBits(data[4]) << 24) | (ByteBits(data[5]) << 16) | (ByteBits(data[6]) << 8) | ByteBits(data[7])))
  }

  /** The byte behind bit `n` of a block. */
  function ByteBehind(h: Halves, n: bv32): Byte
    requires n <= 56
  {
    Byte(((Bit(h, n + 1) << 7) | (Bit(h, n + 2) << 6) | (Bit(h, n + 3) << 5) | (Bit(h, n + 4) << 4)
         | (Bit(h, n + 5) << 3) | (Bit(h, n + 6) << 2) | (Bit(h, n + 7) << 1) | Bit(h, n + 8)) as bv8)
  }

  function BytesOfBlock(h: Halves): (data: seq<Byte>)
    ensures |data| == 8
  {
    [ByteBehind(h, 0), ByteBehind(h, 8), ByteBehind(h, 16), ByteBehind(h, 24),
     ByteBehind(h, 32), ByteBehind(h, 40), ByteBehind(h, 48), ByteBehind(h, 56)]
  }

  /** Enciphering as in FIPS PUB 46-3. */
  function StandardDes(key: seq<Byte>, data: seq<Byte>): (out: seq<Byte>)
    requires |key| == 8 && |data| == 8
    ensures |out| == 8
  {
    var last := StandardRounds(IP(Block(data)), PC1(Block(key)), 0);
    BytesOfBlock(InverseIP(Halves(last.right, last.left)))
  }

  // ---------------------------------------------------------------- bytes and bits

  /** Bit `8 * i + j` of a block that is read is bit `j` of byte `i`. */
  lemma ReadBits(data: seq<Byte>, i: bv32, j: bv32)
    requires |data| == 8 && i < 8 && 1 <= j <= 8
    ensures Bit(ReadBlock(data), 8 * i + j) == ByteBit(data[i as int], j)
  {
    if i == 0 {
    } else if i == 1 {
    } else if i == 2 {
    } else if i == 3 {
    } else if i == 4 {
    } else if i == 5 {
    } else if i == 6 {
    } else {
      assert i == 7;
    }
  }

  lemma WordOfBytes(b0: Byte, b1: Byte, b2: Byte, b3: Byte)
    ensures ReadWord(b0, b1, b2, b3)
         == Word((ByteBits(b0) << 24) | (ByteBits(b1) << 16) | (ByteBits(b2) << 8) | ByteBits(b3))
  {
    var a := ReadWord(b0, b1, b2, b3);
    var b := Word((ByteBits(b0) << 24) | (ByteBits(b1) << 16) | (ByteBits(b2) << 8) | ByteBits(b3));
    assert a.bits == b.bits;
  }

  lemma ReadIsStandard(data: seq<Byte>)
    requires |data| == 8
    ensures ReadBlock(data) == Block(data)
  {
    hide ReadWord, ByteBits;
    WordOfBytes(data[0], data[1], data[2], data[3]);
    WordOfBytes(data[4], data[5], data[6], data[7]);
  }

  lemma WriteLeft(h: Halves)
    ensures WriteWord(h.left) == [ByteBehind(h, 0), ByteBehind(h, 8), ByteBehind(h, 16), ByteBehind(h, 24)]
  {
    var a := WriteWord(h.left);
    assert a[0].bits == ByteBehind(h, 0).bits;
    assert a[1].bits == ByteBehind(h, 8).bits;
    assert a[2].bits == ByteBehind(h, 16).bits;
    assert a[3].bits == ByteBehind(h, 24).bits;
  }

  lemma WriteRight(h: Halves)
    ensures WriteWord(h.right) == [ByteBehind(h, 32), ByteBehind(h, 40), ByteBehind(h, 48), ByteBehind(h, 56)]
  {
    var a := WriteWord(h.right);
    assert a[0].bits == ByteBehind(h, 32).bits;
    assert a[1].bits == ByteBehind(h, 40).bits;
    assert a[2].bits == ByteBehind(h, 48).bits;
    assert a[3].bits == ByteBehind(h, 56).bits;
  }

  lemma WriteIsStandard(h: Halves)
    ensures WriteBlock(h) == BytesOfBlock(h)
  {
    hide WriteWord, ByteBehind;
    WriteLeft(h);
    WriteRight(h);
  }

  /** Bit `j` of byte `i` that is written is bit `8 * i + j` of the block. */
  lemma WriteBits(h: Halves, i: bv32, j: bv32)
    requires i < 8 && 1 <= j <= 8
    ensures ByteBit(WriteBlock(h)[i as int], j) == Bit(h, 8 * i + j)
  {
    hide WriteWord, ReadWord, Bit, ByteBit;
    BlockBytes(h, WriteBlock(h));
    ReadBits(WriteBlock(h), i, j);
  }

  // ---------------------------------------------------------------- the code's representation

  // The code keeps both words of a block rotated left by one between the two permutations.

  function Turn(w: Word): Word { Word((w.bits << 1) | (w.bits >> 31)) }

  function TurnHalves(h: Halves): Halves { Halves(Turn(h.left), Turn(h.right)) }

  lemma InitialLeft(h: Halves)
    ensures InitialPermutation(h).left == Turn(IP(h).left)
  {
    var a, b := InitialPermutation(h).left, Turn(IP(h).left);
    assert a.bits == b.bits;
  }

  lemma InitialRight(h: Halves)
    ensures InitialPermutation(h).right == Turn(IP(h).right)
  {
    var a, b := InitialPermutation(h).right, Turn(IP(h).right);
    assert a.bits == b.bits;
  }

  lemma InitialIsStandard(h: Halves)
    ensures InitialPermutation(h) == TurnHalves(IP(h))
  {
    hide InitialPermutation, Turn, IP;
    InitialLeft(h);
    InitialRight(h);
  }

  lemma FinalLeft(h: Halves)
    ensures FinalPermutation(TurnHalves(h)).left == InverseIP(h).left
  {
    var a, b := FinalPermutation(TurnHalves(h)).left, InverseIP(h).left;
    assert a.bits == b.bits;
  }

  lemma FinalRight(h: Halves)
    ensures FinalPermutation(TurnHalves(h)).right == InverseIP(h).right
  {
    var a, b := FinalPermutation(TurnHalves(h)).right, InverseIP(h).right;
    assert a.bits == b.bits;
  }

  lemma FinalIsStandard(h: Halves)
    ensures FinalPermutation(TurnHalves(h)) == InverseIP(h)
  {
    hide FinalPermutation, TurnHalves, InverseIP;
    FinalLeft(h);
    FinalRight(h);
  }

  lemma Choice1IsStandard(key: Halves)
    ensures PermutedChoice1(key) == PC1(key)
  {
    hide LeftChoice, RightChoice, LeftSpread, RightSpread, PC1, KeySwap0, KeySwap4;
    var h := KeySwap0(KeySwap4(key));
    LeftChoiceIsSpread(h.left);
    RightChoiceIsSpread(h.right);
    LeftSpreadIsStandard(key);
    RightSpreadIsStandard(key);
  }

  lemma ChoiceGivesHalves(key: Halves)
    ensures AreHalves(PC1(key))
  {
    hide LeftChoice, RightChoice, PC1, Cut, KeySwap0, KeySwap4;
    Choice1IsStandard(key);
    ChoicesAreCut(KeySwap0(KeySwap4(key)).left);
    ChoicesAreCut(KeySwap0(KeySwap4(key)).right);
  }

  lemma LeftSpreadIsStandard(key: Halves)
    ensures LeftSpread(KeySwap0(KeySwap4(key)).left) == PC1(key).left
  {
    var a, b := LeftSpread(KeySwap0(KeySwap4(key)).left), PC1(key).left;
    assert a.bits == b.bits;
  }

  lemma RightSpreadIsStandard(key: Halves)
    ensures RightSpread(KeySwap0(KeySwap4(key)).right) == PC1(key).right
  {
    var a, b := RightSpread(KeySwap0(KeySwap4(key)).right), PC1(key).right;
    assert a.bits == b.bits;
  }

  lemma RotateIsShift(w: Word)
    requires Cut(w) == w
    ensures RotateOnce(w) == LeftShift(w) && Cut(LeftShift(w)) == LeftShift(w)
  {
    var a, b := RotateOnce(w), LeftShift(w);
    assert a.bits == b.bits;
    assert Cut(b).bits == b.bits;
  }

  lemma RotateTwiceIsShifts(w: Word)
    requires Cut(w) == w
    ensures RotateTwice(w) == RotateOnce(RotateOnce(w))
  {
    var a, b := RotateTwice(w), RotateOnce(RotateOnce(w));
    assert a.bits == b.bits;
  }

  lemma RotationIsStandard(h: Halves, round: nat)
    requires AreHalves(h) && round < 16
    ensures Rotate(h, round) == KeyShift(h, round + 1) && AreHalves(Rotate(h, round))
  {
    hide RotateOnce, RotateTwice, LeftShift, Cut;
    RotateIsShift(h.left);
    RotateIsShift(h.right);
    RotateIsShift(LeftShift(h.left));
    RotateIsShift(LeftShift(h.right));
    RotateTwiceIsShifts(h.left);
    RotateTwiceIsShifts(h.right);
  }

  /** The two subkey words that hold a round key: the even-numbered groups, then the odd-numbered ones. */
  function EvenGroups(k: Groups): Word {
    Word((k.g2.bits << 24) | (k.g4.bits << 16) | (k.g6.bits << 8) | k.g8.bits)
  }

  function OddGroups(k: Groups): Word {
    Word((k.g1.bits << 24) | (k.g3.bits << 16) | (k.g5.bits << 8) | k.g7.bits)
  }

  lemma FirstSubkeyIsStandard(cd: Halves)
    ensures FirstSubkey(cd) == EvenGroups(PC2(cd))
  {
    var a, b := FirstSubkey(cd), EvenGroups(PC2(cd));
    assert a.bits == b.bits;
  }

  lemma SecondSubkeyIsStandard(cd: Halves)
    ensures SecondSubkey(cd) == OddGroups(PC2(cd))
  {
    var a, b := SecondSubkey(cd), OddGroups(PC2(cd));
    assert a.bits == b.bits;
  }

  // ---------------------------------------------------------------- the S-boxes

  lemma Sbox1LowIsStandard(i: Word)
    requires Index0(i) == i && i.bits & 0x20 == 0
    ensures Sbox1(i) == Turn(P(Digit1(S1(i))))
  {
    var a, b := Sbox1(i), Turn(P(Digit1(S1(i))));
    assert a.bits == b.bits;
  }

  lemma Sbox1HighIsStandard(i: Word)
    requires Index0(i) == i && i.bits & 0x20 != 0
    ensures Sbox1(i) == Turn(P(Digit1(S1(i))))
  {
    var a, b := Sbox1(i), Turn(P(Digit1(S1(i))));
    assert a.bits == b.bits;
  }

  lemma Sbox1IsStandard(i: Word)
    requires Index0(i) == i
    ensures Sbox1(i) == Turn(P(Digit1(S1(i))))
  {
    hide Sbox1, S1, Turn, P, Digit1, Index0;
    if i.bits & 0x20 == 0 { Sbox1LowIsStandard(i); } else { Sbox1HighIsStandard(i); }
  }

  lemma Sbox2LowIsStandard(i: Word)
    requires Index0(i) == i && i.bits & 0x20 == 0
    ensures Sbox2(i) == Turn(P(Digit2(S2(i))))
  {
    var a, b := Sbox2(i), Turn(P(Digit2(S2(i))));
    assert a.bits == b.bits;
  }

  lemma Sbox2HighIsStandard(i: Word)
    requires Index0(i) == i && i.bits & 0x20 != 0
    ensures Sbox2(i) == Turn(P(Digit2(S2(i))))
  {
    var a, b := Sbox2(i), Turn(P(Digit2(S2(i))));
    assert a.bits == b.bits;
  }

  lemma Sbox2IsStandard(i: Word)
    requires Index0(i) == i
    ensures Sbox2(i) == Turn(P(Digit2(S2(i))))
  {
    hide Sbox2, S2, Turn, P, Digit2, Index0;
    if i.bits & 0x20 == 0 { Sbox2LowIsStandard(i); } else { Sbox2HighIsStandard(i); }
  }

  lemma Sbox3LowIsStandard(i: Word)
    requires Index0(i) == i && i.bits & 0x20 == 0
    ensures Sbox3(i) == Turn(P(Digit3(S3(i))))
  {
    var a, b := Sbox3(i), Turn(P(Digit3(S3(i))));
    assert a.bits == b.bits;
  }

  lemma Sbox3HighIsStandard(i: Word)
    requires Index0(i) == i && i.bits & 0x20 != 0
    ensures Sbox3(i) == Turn(P(Digit3(S3(i))))
  {
    var a, b := Sbox3(i), Turn(P(Digit3(S3(i))));
    assert a.bits == b.bits;
  }

  lemma Sbox3IsStandard(i: Word)
    requires Index0(i) == i
    ensures Sbox3(i) == Turn(P(Digit3(S3(i))))
  {
    hide Sbox3, S3, Turn, P, Digit3, Index0;
    if i.bits & 0x20 == 0 { Sbox3LowIsStandard(i); } else { Sbox3HighIsStandard(i); }
  }

  lemma Sbox4LowIsStandard(i: Word)
    requires Index0(i) == i && i.bits & 0x20 == 0
    ensures Sbox4(i) == Turn(P(Digit4(S4(i))))
  {
    var a, b := Sbox4(i), Turn(P(Digit4(S4(i))));
    assert a.bits == b.bits;
  }

  lemma Sbox4HighIsStandard(i: Word)
    requires Index0(i) == i && i.bits & 0x20 != 0
    ensures Sbox4(i) == Turn(P(Digit4(S4(i))))
  {
    var a, b := Sbox4(i), Turn(P(Digit4(S4(i))));
    assert a.bits == b.bits;
  }

  lemma Sbox4IsStandard(i: Word)
    requires Index0(i) == i
    ensures Sbox4(i) == Turn(P(Digit4(S4(i))))
  {
    hide Sbox4, S4, Turn, P, Digit4, Index0;
    if i.bits & 0x20 == 0 { Sbox4LowIsStandard(i); } else { Sbox4HighIsStandard(i); }
  }

  lemma Sbox5LowIsStandard(i: Word)
    requires Index0(i) == i && i.bits & 0x20 == 0
    ensures Sbox5(i) == Turn(P(Digit5(S5(i))))
  {
    var a, b := Sbox5(i), Turn(P(Digit5(S5(i))));
    assert a.bits == b.bits;
  }

  lemma Sbox5HighIsStandard(i: Word)
    requires Index0(i) == i && i.bits & 0x20 != 0
    ensures Sbox5(i) == Turn(P(Digit5(S5(i))))
  {
    var a, b := Sbox5(i), Turn(P(Digit5(S5(i))));
    assert a.bits == b.bits;
  }

  lemma Sbox5IsStandard(i: Word)
    requires Index0(i) == i
    ensures Sbox5(i) == Turn(P(Digit5(S5(i))))
  {
    hide Sbox5, S5, Turn, P, Digit5, Index0;
    if i.bits & 0x20 == 0 { Sbox5LowIsStandard(i); } else { Sbox5HighIsStandard(i); }
  }

  lemma Sbox6LowIsStandard(i: Word)
    requires Index0(i) == i && i.bits & 0x20 == 0
    ensures Sbox6(i) == Turn(P(Digit6(S6(i))))
  {
    var a, b := Sbox6(i), Turn(P(Digit6(S6(i))));
    assert a.bits == b.bits;
  }

  lemma Sbox6HighIsStandard(i: Word)
    requires Index0(i) == i && i.bits & 0x20 != 0
    ensures Sbox6(i) == Turn(P(Digit6(S6(i))))
  {
    var a, b := Sbox6(i), Turn(P(Digit6(S6(i))));
    assert a.bits == b.bits;
  }

  lemma Sbox6IsStandard(i: Word)
    requires Index0(i) == i
    ensures Sbox6(i) == Turn(P(Digit6(S6(i))))
  {
    hide Sbox6, S6, Turn, P, Digit6, Index0;
    if i.bits & 0x20 == 0 { Sbox6LowIsStandard(i); } else { Sbox6HighIsStandard(i); }
  }

  lemma Sbox7LowIsStandard(i: Word)
    requires Index0(i) == i && i.bits & 0x20 == 0
    ensures Sbox7(i) == Turn(P(Digit7(S7(i))))
  {
    var a, b := Sbox7(i), Turn(P(Digit7(S7(i))));
    assert a.bits == b.bits;
  }

  lemma Sbox7HighIsStandard(i: Word)
    requires Index0(i) == i && i.bits & 0x20 != 0
    ensures Sbox7(i) == Turn(P(Digit7(S7(i))))
  {
    var a, b := Sbox7(i), Turn(P(Digit7(S7(i))));
    assert a.bits == b.bits;
  }

  lemma Sbox7IsStandard(i: Word)
    requires Index0(i) == i
    ensures Sbox7(i) == Turn(P(Digit7(S7(i))))
  {
    hide Sbox7, S7, Turn, P, Digit7, Index0;
    if i.bits & 0x20 == 0 { Sbox7LowIsStandard(i); } else { Sbox7HighIsStandard(i); }
  }

  lemma Sbox8LowIsStandard(i: Word)
    requires Index0(i) == i && i.bits & 0x20 == 0
    ensures Sbox8(i) == Turn(P(Digit8(S8(i))))
  {
    var a, b := Sbox8(i), Turn(P(Digit8(S8(i))));
    assert a.bits == b.bits;
  }

  lemma Sbox8HighIsStandard(i: Word)
    requires Index0(i) == i && i.bits & 0x20 != 0
    ensures Sbox8(i) == Turn(P(Digit8(S8(i))))
  {
    var a, b := Sbox8(i), Turn(P(Digit8(S8(i))));
    assert a.bits == b.bits;
  }

  lemma Sbox8IsStandard(i: Word)
    requires Index0(i) == i
    ensures Sbox8(i) == Turn(P(Digit8(S8(i))))
  {
    hide Sbox8, S8, Turn, P, Digit8, Index0;
    if i.bits & 0x20 == 0 { Sbox8LowIsStandard(i); } else { Sbox8HighIsStandard(i); }
  }

  /** P selects bits, so it can be applied to each digit on its own. */
  lemma PJoin(a: Word, b: Word, c: Word, d: Word, e: Word, f: Word, g: Word, h: Word)
    ensures Turn(P(Join(a, b, c, d, e, f, g, h))) ==
      Xor(Xor(Xor(Xor(Xor(Xor(Xor(
        Turn(P(Digit8(h))), Turn(P(Digit6(f)))),
        Turn(P(Digit4(d)))), Turn(P(Digit2(b)))),
        Turn(P(Digit7(g)))), Turn(P(Digit5(e)))),
        Turn(P(Digit3(c)))), Turn(P(Digit1(a))))
  {
    var x := Turn(P(Join(a, b, c, d, e, f, g, h)));
    var y :=
      Xor(Xor(Xor(Xor(Xor(Xor(Xor(
        Turn(P(Digit8(h))), Turn(P(Digit6(f)))),
        Turn(P(Digit4(d)))), Turn(P(Digit2(b)))),
        Turn(P(Digit7(g)))), Turn(P(Digit5(e)))),
        Turn(P(Digit3(c)))), Turn(P(Digit1(a))));
    assert x.bits == y.bits;
  }

  // ---------------------------------------------------------------- one round

  predicate SixBits(k: Groups) {
    && Index0(k.g1) == k.g1 && Index0(k.g2) == k.g2 && Index0(k.g3) == k.g3 && Index0(k.g4) == k.g4
    && Index0(k.g5) == k.g5 && Index0(k.g6) == k.g6 && Index0(k.g7) == k.g7 && Index0(k.g8) == k.g8
  }

  lemma RoundKeySixBits(cd: Halves)
    ensures SixBits(PC2(cd))
  {
    hide PC2, Index0;
    Groups1And2SixBits(cd);
    Groups3And4SixBits(cd);
    Groups5And6SixBits(cd);
    Groups7And8SixBits(cd);
  }

  lemma Groups1And2SixBits(cd: Halves)
    ensures var k := PC2(cd); Index0(k.g1) == k.g1 && Index0(k.g2) == k.g2
  {
    var k := PC2(cd);
    assert Index0(k.g1).bits == k.g1.bits;
    assert Index0(k.g2).bits == k.g2.bits;
  }

  lemma Groups3And4SixBits(cd: Halves)
    ensures var k := PC2(cd); Index0(k.g3) == k.g3 && Index0(k.g4) == k.g4
  {
    var k := PC2(cd);
    assert Index0(k.g3).bits == k.g3.bits;
    assert Index0(k.g4).bits == k.g4.bits;
  }

  lemma Groups5And6SixBits(cd: Halves)
    ensures var k := PC2(cd); Index0(k.g5) == k.g5 && Index0(k.g6) == k.g6
  {
    var k := PC2(cd);
    assert Index0(k.g5).bits == k.g5.bits;
    assert Index0(k.g6).bits == k.g6.bits;
  }

  lemma Groups7And8SixBits(cd: Halves)
    ensures var k := PC2(cd); Index0(k.g7) == k.g7 && Index0(k.g8) == k.g8
  {
    var k := PC2(cd);
    assert Index0(k.g7).bits == k.g7.bits;
    assert Index0(k.g8).bits == k.g8.bits;
  }

  /** The table indices of a round are the groups of E(R) xor K. */
  lemma EvenIndices(r: Word, k: Groups)
    requires SixBits(k)
    ensures var w, x := Xor(Turn(r), EvenGroups(k)), XorGroups(E(r), k);
            Index24(w) == x.g2 && Index16(w) == x.g4 && Index8(w) == x.g6 && Index0(w) == x.g8
  {
    var w, x := Xor(Turn(r), EvenGroups(k)), XorGroups(E(r), k);
    assert Index24(w).bits == x.g2.bits;
    assert Index16(w).bits == x.g4.bits;
    assert Index8(w).bits == x.g6.bits;
    assert Index0(w).bits == x.g8.bits;
  }

  lemma OddIndices(r: Word, k: Groups)
    requires SixBits(k)
    ensures var v, x := Xor(RotateRight4(Turn(r)), OddGroups(k)), XorGroups(E(r), k);
            Index24(v) == x.g1 && Index16(v) == x.g3 && Index8(v) == x.g5 && Index0(v) == x.g7
  {
    var v, x := Xor(RotateRight4(Turn(r)), OddGroups(k)), XorGroups(E(r), k);
    assert Index24(v).bits == x.g1.bits;
    assert Index16(v).bits == x.g3.bits;
    assert Index8(v).bits == x.g5.bits;
    assert Index0(v).bits == x.g7.bits;
  }

  lemma IndexTwice(w: Word)
    ensures Index0(Index0(w)) == Index0(w) && Index0(Index8(w)) == Index8(w)
    ensures Index0(Index16(w)) == Index16(w) && Index0(Index24(w)) == Index24(w)
  {
    assert Index0(Index0(w)).bits == Index0(w).bits && Index0(Index8(w)).bits == Index8(w).bits;
    assert Index0(Index16(w)).bits == Index16(w).bits && Index0(Index24(w)).bits == Index24(w).bits;
  }

  lemma MangleIsStandard(r: Word, k: Groups)
    requires SixBits(k)
    ensures Mangle(DES_SBOXES, Turn(r), EvenGroups(k), OddGroups(k)) == Turn(CipherFunction(r, k))
  {
    hide Xor, Turn, P, Join, Digit1, Digit2, Digit3, Digit4, Digit5, Digit6, Digit7, Digit8,
         E, XorGroups, EvenGroups, OddGroups, RotateRight4, Index0, Index8, Index16, Index24;
    hide Sbox1, Sbox2, Sbox3, Sbox4, Sbox5, Sbox6, Sbox7, Sbox8, S1, S2, S3, S4, S5, S6, S7, S8;
    var x := XorGroups(E(r), k);
    EvenIndices(r, k);
    OddIndices(r, k);
    IndexTwice(Xor(Turn(r), EvenGroups(k)));
    IndexTwice(Xor(RotateRight4(Turn(r)), OddGroups(k)));
    Sbox1IsStandard(x.g1); Sbox2IsStandard(x.g2); Sbox3IsStandard(x.g3); Sbox4IsStandard(x.g4);
    Sbox5IsStandard(x.g5); Sbox6IsStandard(x.g6); Sbox7IsStandard(x.g7); Sbox8IsStandard(x.g8);
    PJoin(S1(x.g1), S2(x.g2), S3(x.g3), S4(x.g4), S5(x.g5), S6(x.g6), S7(x.g7), S8(x.g8));
  }

  lemma XorTurn(a: Word, b: Word)
    ensures Xor(Turn(a), Turn(b)) == Turn(Plus(a, b))
  {
    var x, y := Xor(Turn(a), Turn(b)), Turn(Plus(a, b));
    assert x.bits == y.bits;
  }

  lemma {:induction false} RoundIsStandard(h: Halves, cd: Halves)
    ensures Round(DES_SBOXES, TurnHalves(h), FirstSubkey(cd), SecondSubkey(cd))
         == TurnHalves(StandardRound(h, PC2(cd)))
  {
    hide Mangle, Xor, Plus, Turn, FirstSubkey, SecondSubkey, PC2, EvenGroups, OddGroups, CipherFunction, SixBits;
    FirstSubkeyIsStandard(cd);
    SecondSubkeyIsStandard(cd);
    RoundKeySixBits(cd);
    MangleIsStandard(h.right, PC2(cd));
    XorTurn(h.left, CipherFunction(h.right, PC2(cd)));
  }

  // ---------------------------------------------------------------- the whole cipher

  lemma {:induction false} RoundsAreStandard(h: Halves, cd: Halves, round: nat)
    requires round <= 16 && AreHalves(cd)
    ensures Rounds(DES_SBOXES, TurnHalves(h), ScheduleFrom(cd, round)) == TurnHalves(StandardRounds(h, cd, round))
    decreases 16 - round
  {
    hide Round, FirstSubkey, SecondSubkey, Rotate, KeyShift, AreHalves, TurnHalves, StandardRound, PC2;
    if round < 16 {
      var next := Rotate(cd, round);
      RotationIsStandard(cd, round);
      RoundIsStandard(h, next);
      RoundsAreStandard(StandardRound(h, PC2(next)), next, round + 1);
      var keys := ScheduleFrom(cd, round);
      assert keys[2..] == ScheduleFrom(next, round + 1);
    }
  }

  /** be/be_des.cpp enciphers as FIPS PUB 46-3 prescribes, for every key and every block. */
  lemma CodeIsStandard(key: seq<Byte>, data: seq<Byte>)
    requires |key| == |data| == 8
    ensures CryptBlock(DES_SBOXES, KeySchedule(key), data) == StandardDes(key, data)
  {
    hide InitialPermutation, FinalPermutation, PermutedChoice1, PC1, IP, InverseIP,
         Rounds, ScheduleFrom, StandardRounds;
    hide Turn, ReadBlock, WriteBlock, Block, BytesOfBlock, AreHalves;
    ReadIsStandard(data);
    ReadIsStandard(key);
    var h, cd := IP(ReadBlock(data)), PC1(ReadBlock(key));
    InitialIsStandard(ReadBlock(data));
    Choice1IsStandard(ReadBlock(key));
    ChoiceGivesHalves(ReadBlock(key));
    RoundsAreStandard(h, cd, 0);
    FinalIsStandard(Cross(StandardRounds(h, cd, 0)));
    WriteIsStandard(InverseIP(Cross(StandardRounds(h, cd, 0))));
  }
}
