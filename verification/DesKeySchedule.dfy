/**
  The DES key schedule of be/be_des.cpp: permuted choice 1 by masked swaps and two nibble tables, the rotations,
  and permuted choice 2 written as shifts and masks. Its two classical theorems are here: complementing the key
  complements the used bits of every subkey word, and a key whose halves are constant yields one repeated pair.
 */
module DesKeySchedule {
  import opened DesWords
  import opened DesCipher

  /** The 28 bits of a key half. */
  const HALF_MASK: Word := Word(0x0fffffff)

  // ---------------------------------------------------------------- permuted choice 1

  /** DO_PERMUTATION(right, work, left, 4, 0x0f0f0f0f). */
  function KeySwap4(h: Halves): Halves {
    var l, r := h.left.bits, h.right.bits;
    var work := ((r >> 4) ^ l) & 0x0f0f0f0f;
    Halves(Word(l ^ work), Word(r ^ (work << 4)))
  }

  /** DO_PERMUTATION(right, work, left, 0, 0x10101010). */
  function KeySwap0(h: Halves): Halves {
    var l, r := h.left.bits, h.right.bits;
    var work := (r ^ l) & 0x10101010;
    Halves(Word(l ^ work), Word(r ^ work))
  }

  /** The table leftkey_swap; an index has four bits. */
  function LeftKeySwap(i: Word): Word {
    match i.bits
    case 0 => Word(0x00000000)
    case 1 => Word(0x00000001)
    case 2 => Word(0x00000100)
    case 3 => Word(0x00000101)
    case 4 => Word(0x00010000)
    case 5 => Word(0x00010001)
    case 6 => Word(0x00010100)
    case 7 => Word(0x00010101)
    case 8 => Word(0x01000000)
    case 9 => Word(0x01000001)
    case 10 => Word(0x01000100)
    case 11 => Word(0x01000101)
    case 12 => Word(0x01010000)
    case 13 => Word(0x01010001)
    case 14 => Word(0x01010100)
    case _ => Word(0x01010101)
  }

  /** The table rightkey_swap; an index has four bits. */
  function RightKeySwap(i: Word): Word {
    match i.bits
    case 0 => Word(0x00000000)
    case 1 => Word(0x01000000)
    case 2 => Word(0x00010000)
    case 3 => Word(0x01010000)
    case 4 => Word(0x00000100)
    case 5 => Word(0x01000100)
    case 6 => Word(0x00010100)
    case 7 => Word(0x01010100)
    case 8 => Word(0x00000001)
    case 9 => Word(0x01000001)
    case 10 => Word(0x00010001)
    case 11 => Word(0x01010001)
    case 12 => Word(0x00000101)
    case 13 => Word(0x01000101)
    case 14 => Word(0x00010101)
    case _ => Word(0x01010101)
  }

  // The four-bit table indices.
  function Nibble0(w: Word): Word { Word(w.bits & 0xf) }
  function Nibble1(w: Word): Word { Word((w.bits >> 1) & 0xf) }
  function Nibble4(w: Word): Word { Word((w.bits >> 4) & 0xf) }
  function Nibble5(w: Word): Word { Word((w.bits >> 5) & 0xf) }
  function Nibble8(w: Word): Word { Word((w.bits >> 8) & 0xf) }
  function Nibble9(w: Word): Word { Word((w.bits >> 9) & 0xf) }
  function Nibble12(w: Word): Word { Word((w.bits >> 12) & 0xf) }
  function Nibble13(w: Word): Word { Word((w.bits >> 13) & 0xf) }
  function Nibble16(w: Word): Word { Word((w.bits >> 16) & 0xf) }
  function Nibble17(w: Word): Word { Word((w.bits >> 17) & 0xf) }
  function Nibble20(w: Word): Word { Word((w.bits >> 20) & 0xf) }
  function Nibble21(w: Word): Word { Word((w.bits >> 21) & 0xf) }
  function Nibble24(w: Word): Word { Word((w.bits >> 24) & 0xf) }
  function Nibble25(w: Word): Word { Word((w.bits >> 25) & 0xf) }
  function Nibble28(w: Word): Word { Word((w.bits >> 28) & 0xf) }
  function Nibble29(w: Word): Word { Word((w.bits >> 29) & 0xf) }

  /** Eight table entries shifted into place and cut to 28 bits. */
  function Assemble(e3: Word, e2: Word, e1: Word, e0: Word, e7: Word, e6: Word, e5: Word, e4: Word): Word {
    Word(((e3.bits << 3) | (e2.bits << 2) | (e1.bits << 1) | e0.bits
      | (e7.bits << 7) | (e6.bits << 6) | (e5.bits << 5) | (e4.bits << 4)) & 0x0fffffff)
  }

  function LeftChoice(w: Word): Word {
    Assemble(LeftKeySwap(Nibble0(w)), LeftKeySwap(Nibble8(w)), LeftKeySwap(Nibble16(w)), LeftKeySwap(Nibble24(w)),
             LeftKeySwap(Nibble5(w)), LeftKeySwap(Nibble13(w)), LeftKeySwap(Nibble21(w)), LeftKeySwap(Nibble29(w)))
  }

  function RightChoice(w: Word): Word {
    Assemble(RightKeySwap(Nibble1(w)), RightKeySwap(Nibble9(w)), RightKeySwap(Nibble17(w)), RightKeySwap(Nibble25(w)),
             RightKeySwap(Nibble4(w)), RightKeySwap(Nibble12(w)), RightKeySwap(Nibble20(w)), RightKeySwap(Nibble28(w)))
  }

  /** The meaning of the tables: bit k of the index becomes bit 8k, or bit 24 - 8k, of the entry. */
  function NibbleUp(i: Word): Word {
    var n := i.bits;
    Word((n & 1) | ((n & 2) << 7) | ((n & 4) << 14) | ((n & 8) << 21))
  }

  function NibbleDown(i: Word): Word {
    var n := i.bits;
    Word(((n & 1) << 24) | ((n & 2) << 15) | ((n & 4) << 6) | ((n & 8) >> 3))
  }

  lemma TablesSpreadNibbles(i: Word)
    requires i.bits & 0xf == i.bits
    ensures LeftKeySwap(i) == NibbleUp(i)
    ensures RightKeySwap(i) == NibbleDown(i)
  {
    var a, b, c, d := LeftKeySwap(i), NibbleUp(i), RightKeySwap(i), NibbleDown(i);
    assert a.bits == b.bits;
    assert c.bits == d.bits;
  }

  function LeftSpread(w: Word): Word {
    Assemble(NibbleUp(Nibble0(w)), NibbleUp(Nibble8(w)), NibbleUp(Nibble16(w)), NibbleUp(Nibble24(w)),
             NibbleUp(Nibble5(w)), NibbleUp(Nibble13(w)), NibbleUp(Nibble21(w)), NibbleUp(Nibble29(w)))
  }

  function RightSpread(w: Word): Word {
    Assemble(NibbleDown(Nibble1(w)), NibbleDown(Nibble9(w)), NibbleDown(Nibble17(w)), NibbleDown(Nibble25(w)),
             NibbleDown(Nibble4(w)), NibbleDown(Nibble12(w)), NibbleDown(Nibble20(w)), NibbleDown(Nibble28(w)))
  }

  lemma LeftChoiceIsSpread(w: Word)
    ensures LeftChoice(w) == LeftSpread(w)
  {
    TablesSpreadNibbles(Nibble0(w));
    TablesSpreadNibbles(Nibble8(w));
    TablesSpreadNibbles(Nibble16(w));
    TablesSpreadNibbles(Nibble24(w));
    TablesSpreadNibbles(Nibble5(w));
    TablesSpreadNibbles(Nibble13(w));
    TablesSpreadNibbles(Nibble21(w));
    TablesSpreadNibbles(Nibble29(w));
  }

  lemma RightChoiceIsSpread(w: Word)
    ensures RightChoice(w) == RightSpread(w)
  {
    TablesSpreadNibbles(Nibble1(w));
    TablesSpreadNibbles(Nibble9(w));
    TablesSpreadNibbles(Nibble17(w));
    TablesSpreadNibbles(Nibble25(w));
    TablesSpreadNibbles(Nibble4(w));
    TablesSpreadNibbles(Nibble12(w));
    TablesSpreadNibbles(Nibble20(w));
    TablesSpreadNibbles(Nibble28(w));
  }

  /** The two 28-bit key halves before the first rotation. */
  function PermutedChoice1(key: Halves): Halves {
    var h := KeySwap0(KeySwap4(key));
    Halves(LeftChoice(h.left), RightChoice(h.right))
  }

  // ---------------------------------------------------------------- rotations

  function Cut(w: Word): Word { Word(w.bits & 0x0fffffff) }

  /** Both words have no more than 28 bits. */
  predicate AreHalves(h: Halves) { Cut(h.left) == h.left && Cut(h.right) == h.right }

  function RotateOnce(w: Word): Word { Word(((w.bits << 1) | (w.bits >> 27)) & 0x0fffffff) }

  function RotateTwice(w: Word): Word { Word(((w.bits << 2) | (w.bits >> 26)) & 0x0fffffff) }

  /** encrypt_rotate_tab: the number of positions both halves rotate before each round. */
  const ROTATIONS: seq<nat> := [1, 1, 2, 2, 2, 2, 2, 2, 1, 2, 2, 2, 2, 2, 2, 1]

  /** Both halves rotated for the given round. */
  function Rotate(h: Halves, round: nat): Halves
    requires round < 16
  {
    if ROTATIONS[round] == 1 then Halves(RotateOnce(h.left), RotateOnce(h.right))
    else Halves(RotateTwice(h.left), RotateTwice(h.right))
  }

  // ---------------------------------------------------------------- permuted choice 2

  function FirstSubkey(h: Halves): Word {
    var left, right := h.left.bits, h.right.bits;
    Word(((left << 4) & 0x24000000)
      | ((left << 28) & 0x10000000)
      | ((left << 14) & 0x08000000)
      | ((left << 18) & 0x02080000)
      | ((left << 6) & 0x01000000)
      | ((left << 9) & 0x00200000)
      | ((left >> 1) & 0x00100000)
      | ((left << 10) & 0x00040000)
      | ((left << 2) & 0x00020000)
      | ((left >> 10) & 0x00010000)
      | ((right >> 13) & 0x00002000)
      | ((right >> 4) & 0x00001000)
      | ((right << 6) & 0x00000800)
      | ((right >> 1) & 0x00000400)
      | ((right >> 14) & 0x00000200)
      | (right & 0x00000100)
      | ((right >> 5) & 0x00000020)
      | ((right >> 10) & 0x00000010)
      | ((right >> 3) & 0x00000008)
      | ((right >> 18) & 0x00000004)
      | ((right >> 26) & 0x00000002)
      | ((right >> 24) & 0x00000001))
  }

  function SecondSubkey(h: Halves): Word {
    var left, right := h.left.bits, h.right.bits;
    Word(((left << 15) & 0x20000000)
      | ((left << 17) & 0x10000000)
      | ((left << 10) & 0x08000000)
      | ((left << 22) & 0x04000000)
      | ((left >> 2) & 0x02000000)
      | ((left << 1) & 0x01000000)
      | ((left << 16) & 0x00200000)
      | ((left << 11) & 0x00100000)
      | ((left << 3) & 0x00080000)
      | ((left >> 6) & 0x00040000)
      | ((left << 15) & 0x00020000)
      | ((left >> 4) & 0x00010000)
      | ((right >> 2) & 0x00002000)
      | ((right << 8) & 0x00001000)
      | ((right >> 14) & 0x00000808)
      | ((right >> 9) & 0x00000400)
      | (right & 0x00000200)
      | ((right << 7) & 0x00000100)
      | ((right >> 7) & 0x00000020)
      | ((right >> 3) & 0x00000011)
      | ((right << 2) & 0x00000004)
      | ((right >> 21) & 0x00000002))
  }

  // ---------------------------------------------------------------- the whole schedule

  /** The subkey words of the rounds from `round` on, for halves not yet rotated for that round. */
  function ScheduleFrom(h: Halves, round: nat): (keys: seq<Word>)
    requires round <= 16
    ensures |keys| == 2 * (16 - round)
    decreases 16 - round
  {
    if round == 16 then []
    else
      var next := Rotate(h, round);
      [FirstSubkey(next), SecondSubkey(next)] + ScheduleFrom(next, round + 1)
  }

  /** The 32 subkey words of a key of eight bytes. */
  function KeySchedule(rawkey: seq<Byte>): (keys: seq<Word>)
    requires |rawkey| == 8
    ensures |keys| == DES_KEYS
  {
    ScheduleFrom(PermutedChoice1(ReadBlock(rawkey)), 0)
  }

  // ---------------------------------------------------------------- complementing the key

  /** Complements the 28 bits of both halves. */
  function FlipHalves(h: Halves): Halves { Halves(Xor(h.left, HALF_MASK), Xor(h.right, HALF_MASK)) }

  lemma KeySwap4Flip(h: Halves)
    ensures KeySwap4(Flip(h)) == Flip(KeySwap4(h))
  {
    var a, b := KeySwap4(Flip(h)), Flip(KeySwap4(h));
    assert a.left.bits == b.left.bits && a.right.bits == b.right.bits;
  }

  lemma KeySwap0Flip(h: Halves)
    ensures KeySwap0(Flip(h)) == Flip(KeySwap0(h))
  {
    var a, b := KeySwap0(Flip(h)), Flip(KeySwap0(h));
    assert a.left.bits == b.left.bits && a.right.bits == b.right.bits;
  }

  lemma LeftSpreadFlip(w: Word)
    ensures LeftSpread(Not(w)) == Xor(LeftSpread(w), HALF_MASK)
  {
    var a, b := LeftSpread(Not(w)), Xor(LeftSpread(w), HALF_MASK);
    assert a.bits == b.bits;
  }

  lemma RightSpreadFlip(w: Word)
    ensures RightSpread(Not(w)) == Xor(RightSpread(w), HALF_MASK)
  {
    var a, b := RightSpread(Not(w)), Xor(RightSpread(w), HALF_MASK);
    assert a.bits == b.bits;
  }

  lemma LeftChoiceFlip(w: Word)
    ensures LeftChoice(Not(w)) == Xor(LeftChoice(w), HALF_MASK)
  {
    LeftChoiceIsSpread(w);
    LeftChoiceIsSpread(Not(w));
    LeftSpreadFlip(w);
  }

  lemma RightChoiceFlip(w: Word)
    ensures RightChoice(Not(w)) == Xor(RightChoice(w), HALF_MASK)
  {
    RightChoiceIsSpread(w);
    RightChoiceIsSpread(Not(w));
    RightSpreadFlip(w);
  }

  lemma PermutedChoice1Flip(key: Halves)
    ensures PermutedChoice1(Flip(key)) == FlipHalves(PermutedChoice1(key))
  {
    KeySwap4Flip(key);
    KeySwap0Flip(KeySwap4(key));
    var h := KeySwap0(KeySwap4(key));
    LeftChoiceFlip(h.left);
    RightChoiceFlip(h.right);
  }

  lemma ChoicesAreCut(w: Word)
    ensures Cut(LeftChoice(w)) == LeftChoice(w)
    ensures Cut(RightChoice(w)) == RightChoice(w)
  {
    var a, b := Cut(LeftChoice(w)), LeftChoice(w);
    assert a.bits == b.bits;
    var c, d := Cut(RightChoice(w)), RightChoice(w);
    assert c.bits == d.bits;
  }

  lemma RotateOnceFlip(w: Word)
    requires Cut(w) == w
    ensures RotateOnce(Xor(w, HALF_MASK)) == Xor(RotateOnce(w), HALF_MASK)
    ensures Cut(RotateOnce(w)) == RotateOnce(w)
  {
    var a, b := RotateOnce(Xor(w, HALF_MASK)), Xor(RotateOnce(w), HALF_MASK);
    assert a.bits == b.bits;
    var c, d := Cut(RotateOnce(w)), RotateOnce(w);
    assert c.bits == d.bits;
  }

  lemma RotateTwiceFlip(w: Word)
    requires Cut(w) == w
    ensures RotateTwice(Xor(w, HALF_MASK)) == Xor(RotateTwice(w), HALF_MASK)
    ensures Cut(RotateTwice(w)) == RotateTwice(w)
  {
    var a, b := RotateTwice(Xor(w, HALF_MASK)), Xor(RotateTwice(w), HALF_MASK);
    assert a.bits == b.bits;
    var c, d := Cut(RotateTwice(w)), RotateTwice(w);
    assert c.bits == d.bits;
  }

  lemma RotateFlipHalves(h: Halves, round: nat)
    requires round < 16 && AreHalves(h)
    ensures Rotate(FlipHalves(h), round) == FlipHalves(Rotate(h, round))
    ensures AreHalves(Rotate(h, round))
  {
    RotateOnceFlip(h.left);
    RotateOnceFlip(h.right);
    RotateTwiceFlip(h.left);
    RotateTwiceFlip(h.right);
  }

  lemma FirstSubkeyFlip(h: Halves)
    ensures FirstSubkey(FlipHalves(h)) == Xor(FirstSubkey(h), SUBKEY_MASK)
  {
    var a, b := FirstSubkey(FlipHalves(h)), Xor(FirstSubkey(h), SUBKEY_MASK);
    assert a.bits == b.bits;
  }

  lemma SecondSubkeyFlip(h: Halves)
    ensures SecondSubkey(FlipHalves(h)) == Xor(SecondSubkey(h), SUBKEY_MASK)
  {
    var a, b := SecondSubkey(FlipHalves(h)), Xor(SecondSubkey(h), SUBKEY_MASK);
    assert a.bits == b.bits;
  }

  lemma FlipSubkeysPair(k0: Word, k1: Word, rest: seq<Word>)
    ensures FlipSubkeys([k0, k1] + rest) == [Xor(k0, SUBKEY_MASK), Xor(k1, SUBKEY_MASK)] + FlipSubkeys(rest)
  {
  }

  lemma {:induction false} ScheduleFlip(h: Halves, round: nat)
    requires round <= 16 && AreHalves(h)
    ensures ScheduleFrom(FlipHalves(h), round) == FlipSubkeys(ScheduleFrom(h, round))
    decreases 16 - round
  {
    if round < 16 {
      var next := Rotate(h, round);
      RotateFlipHalves(h, round);
      FirstSubkeyFlip(next);
      SecondSubkeyFlip(next);
      ScheduleFlip(next, round + 1);
      FlipSubkeysPair(FirstSubkey(next), SecondSubkey(next), ScheduleFrom(next, round + 1));
    }
  }

  /** Complementing the key flips exactly the used bits of every subkey word. */
  lemma KeyScheduleFlip(rawkey: seq<Byte>)
    requires |rawkey| == 8
    ensures KeySchedule(FlipBytes(rawkey)) == FlipSubkeys(KeySchedule(rawkey))
  {
    ReadBlockFlip(rawkey);
    PermutedChoice1Flip(ReadBlock(rawkey));
    var h := KeySwap0(KeySwap4(ReadBlock(rawkey)));
    ChoicesAreCut(h.left);
    ChoicesAreCut(h.right);
    ScheduleFlip(PermutedChoice1(ReadBlock(rawkey)), 0);
  }

  /** The complementation property: E(~k, ~p) = ~E(k, p), for every key and block. */
  lemma Complementation(sb: SBoxes, rawkey: seq<Byte>, data: seq<Byte>)
    requires |rawkey| == 8 && |data| == 8
    ensures CryptBlock(sb, KeySchedule(FlipBytes(rawkey)), FlipBytes(data))
         == FlipBytes(CryptBlock(sb, KeySchedule(rawkey), data))
  {
    KeyScheduleFlip(rawkey);
    CryptBlockFlip(sb, KeySchedule(rawkey), data);
  }

  // ---------------------------------------------------------------- self-inverse keys

  /** Both halves after permuted choice 1 are all zeros or all ones. */
  predicate ConstantHalves(rawkey: seq<Byte>)
    requires |rawkey| == 8
  {
    var h := PermutedChoice1(ReadBlock(rawkey));
    h.left in {Word(0), HALF_MASK} && h.right in {Word(0), HALF_MASK}
  }

  /** `n` copies of one subkey pair. */
  function Repeated(k0: Word, k1: Word, n: nat): (keys: seq<Word>)
    ensures |keys| == 2 * n
  {
    if n == 0 then [] else [k0, k1] + Repeated(k0, k1, n - 1)
  }

  lemma {:induction false} RepeatedAppend(k0: Word, k1: Word, n: nat)
    ensures Repeated(k0, k1, n) + [k0, k1] == [k0, k1] + Repeated(k0, k1, n)
  {
    if n > 0 {
      RepeatedAppend(k0, k1, n - 1);
      var rest := Repeated(k0, k1, n - 1);
      assert [k0, k1] + rest + [k0, k1] == [k0, k1] + (rest + [k0, k1]);
    }
  }

  lemma {:induction false} RepeatedReverse(k0: Word, k1: Word, n: nat)
    ensures PairReverse(Repeated(k0, k1, n)) == Repeated(k0, k1, n)
  {
    if n > 0 {
      RepeatedReverse(k0, k1, n - 1);
      assert Repeated(k0, k1, n)[2..] == Repeated(k0, k1, n - 1);
      assert Repeated(k0, k1, n)[..2] == [k0, k1];
      RepeatedAppend(k0, k1, n - 1);
    }
  }

  lemma RotateConstant(w: Word)
    requires w in {Word(0), HALF_MASK}
    ensures RotateOnce(w) == w && RotateTwice(w) == w
  {
    assert RotateOnce(w).bits == w.bits;
    assert RotateTwice(w).bits == w.bits;
  }

  lemma RotateConstantHalves(h: Halves, round: nat)
    requires round < 16 && h.left in {Word(0), HALF_MASK} && h.right in {Word(0), HALF_MASK}
    ensures Rotate(h, round) == h
  {
    RotateConstant(h.left);
    RotateConstant(h.right);
  }

  lemma {:induction false} ScheduleConstant(h: Halves, round: nat)
    requires round <= 16 && h.left in {Word(0), HALF_MASK} && h.right in {Word(0), HALF_MASK}
    ensures ScheduleFrom(h, round) == Repeated(FirstSubkey(h), SecondSubkey(h), 16 - round)
    decreases 16 - round
  {
    if round < 16 {
      RotateConstantHalves(h, round);
      ScheduleConstant(h, round + 1);
    }
  }

  /** Such a key has sixteen equal subkey pairs, and encrypting twice under it changes nothing. */
  lemma ConstantHalvesSelfInverse(sb: SBoxes, rawkey: seq<Byte>, data: seq<Byte>)
    requires |rawkey| == 8 && |data| == 8 && ConstantHalves(rawkey)
    ensures var keys := KeySchedule(rawkey); keys == Repeated(keys[0], keys[1], 16)
    ensures var keys := KeySchedule(rawkey); CryptBlock(sb, keys, CryptBlock(sb, keys, data)) == data
  {
    var h := PermutedChoice1(ReadBlock(rawkey));
    var keys := KeySchedule(rawkey);
    ScheduleConstant(h, 0);
    RepeatedReverse(FirstSubkey(h), SecondSubkey(h), 16);
    DecryptInvertsEncrypt(sb, keys, data);
  }
}
