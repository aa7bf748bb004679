/**
  The DES rounds and key schedule of be/be_des.cpp as functions, and the classical theorems about them:
  decryption inverts encryption, the complementation property, and the self-inverse (weak) keys.
  Nothing here depends on the contents of the S-boxes, so they are a parameter.
 */
module DesCipher {
  import opened DesWords

  /** Eight lookup tables; an argument is a word masked to its six low bits. */
  datatype SBoxes = SBoxes(
    s1: Word -> Word, s2: Word -> Word, s3: Word -> Word, s4: Word -> Word,
    s5: Word -> Word, s6: Word -> Word, s7: Word -> Word, s8: Word -> Word)

  // ---------------------------------------------------------------- one round

  function Index0(w: Word): Word { Word(w.bits & 0x3f) }
  function Index8(w: Word): Word { Word((w.bits >> 8) & 0x3f) }
  function Index16(w: Word): Word { Word((w.bits >> 16) & 0x3f) }
  function Index24(w: Word): Word { Word((w.bits >> 24) & 0x3f) }

  function RotateRight4(w: Word): Word { Word((w.bits << 28) | (w.bits >> 4)) }

  /** The value DES_ROUND folds into `to`: expansion, S-boxes and permutation P of the other half. */
  function Mangle(sb: SBoxes, from: Word, k0: Word, k1: Word): Word {
    var w := Xor(from, k0);
    var v := Xor(RotateRight4(from), k1);
    Xor(Xor(Xor(Xor(Xor(Xor(Xor(
      sb.s8(Index0(w)), sb.s6(Index8(w))), sb.s4(Index16(w))), sb.s2(Index24(w))),
      sb.s7(Index0(v))), sb.s5(Index8(v))), sb.s3(Index16(v))), sb.s1(Index24(v)))
  }

  /** The textbook round: the right half moves left, the mangled left half becomes the right one. */
  function Round(sb: SBoxes, h: Halves, k0: Word, k1: Word): Halves {
    Halves(h.right, Xor(h.left, Mangle(sb, h.right, k0, k1)))
  }

  /** As many textbook rounds as there are pairs of subkey words. */
  function Rounds(sb: SBoxes, h: Halves, keys: seq<Word>): Halves
    decreases |keys|
  {
    if |keys| < 2 then h else Rounds(sb, Round(sb, h, keys[0], keys[1]), keys[2..])
  }

  lemma {:induction false} RoundsAppend(sb: SBoxes, h: Halves, a: seq<Word>, b: seq<Word>)
    requires |a| % 2 == 0
    ensures Rounds(sb, h, a + b) == Rounds(sb, Rounds(sb, h, a), b)
    decreases |a|
  {
    if a == [] {
      assert a + b == b;
    } else {
      assert (a + b)[2..] == a[2..] + b;
      RoundsAppend(sb, Round(sb, h, a[0], a[1]), a[2..], b);
    }
  }

  // ---------------------------------------------------------------- decryption

  /** The subkey pairs in reverse order. */
  function PairReverse(keys: seq<Word>): (r: seq<Word>)
    requires |keys| % 2 == 0
    ensures |r| == |keys|
  {
    if keys == [] then [] else PairReverse(keys[2..]) + keys[..2]
  }

  lemma {:induction false} PairReverseAt(keys: seq<Word>, i: nat)
    requires |keys| % 2 == 0 && i < |keys|
    ensures PairReverse(keys)[i] == if i % 2 == 0 then keys[|keys| - 2 - i] else keys[|keys| - i]
  {
    if i < |keys| - 2 {
      PairReverseAt(keys[2..], i);
    }
  }

  lemma {:induction false} PairReverseAppend(a: seq<Word>, b: seq<Word>)
    requires |a| % 2 == 0 && |b| % 2 == 0
    ensures PairReverse(a + b) == PairReverse(b) + PairReverse(a)
  {
    if a == [] {
      assert a + b == b;
    } else {
      assert (a + b)[2..] == a[2..] + b && (a + b)[..2] == a[..2];
      PairReverseAppend(a[2..], b);
    }
  }

  lemma {:induction false} PairReverseTwice(keys: seq<Word>)
    requires |keys| % 2 == 0
    ensures PairReverse(PairReverse(keys)) == keys
  {
    if keys != [] {
      PairReverseTwice(keys[2..]);
      PairReverseAppend(PairReverse(keys[2..]), keys[..2]);
      assert PairReverse(keys[..2]) == keys[..2];
    }
  }

  /** One round undone by the same round on crossed halves. */
  lemma RoundUndone(sb: SBoxes, h: Halves, k0: Word, k1: Word)
    ensures Round(sb, Cross(Round(sb, h, k0, k1)), k0, k1) == Cross(h)
  {
    XorCancels(h.left, Mangle(sb, h.right, k0, k1));
  }

  /** The Feistel argument, for any number of rounds and any S-boxes. */
  lemma {:induction false} RoundsUndone(sb: SBoxes, h: Halves, keys: seq<Word>)
    requires |keys| % 2 == 0
    ensures Rounds(sb, Cross(Rounds(sb, h, keys)), PairReverse(keys)) == Cross(h)
    decreases |keys|
  {
    if keys != [] {
      var next := Round(sb, h, keys[0], keys[1]);
      RoundsUndone(sb, next, keys[2..]);
      RoundsAppend(sb, Cross(Rounds(sb, h, keys)), PairReverse(keys[2..]), keys[..2]);
      assert Rounds(sb, Cross(next), keys[..2]) == Round(sb, Cross(next), keys[0], keys[1]);
      RoundUndone(sb, h, keys[0], keys[1]);
    }
  }

  /** The rounds of one DES, halves crossed at the end. */
  function Scramble(sb: SBoxes, h: Halves, keys: seq<Word>): Halves {
    Cross(Rounds(sb, h, keys))
  }

  lemma {:induction false} ScrambleUndone(sb: SBoxes, h: Halves, keys: seq<Word>)
    requires |keys| % 2 == 0
    ensures Scramble(sb, Scramble(sb, h, keys), PairReverse(keys)) == h
    ensures Scramble(sb, Scramble(sb, h, PairReverse(keys)), keys) == h
  {
    RoundsUndone(sb, h, keys);
    RoundsUndone(sb, h, PairReverse(keys));
    PairReverseTwice(keys);
  }

  // ---------------------------------------------------------------- single and triple block functions

  const DES_KEYS: nat := 32
  const TRIPLE_KEYS: nat := 96

  predicate IsSchedule(keys: seq<Word>) { |keys| == DES_KEYS || |keys| == TRIPLE_KEYS }

  /** The subkeys of the n-th of the three DES passes. */
  function Pass(keys: seq<Word>, n: nat): (part: seq<Word>)
    requires |keys| == TRIPLE_KEYS && n < 3
    ensures |part| == DES_KEYS
  {
    keys[32 * n..32 * n + 32]
  }

  /** What the block functions do between the two permutations: one DES, or three with halves crossed between. */
  function Core(sb: SBoxes, h: Halves, keys: seq<Word>): Halves
    requires IsSchedule(keys)
  {
    if |keys| == DES_KEYS then Scramble(sb, h, keys)
    else Scramble(sb, Scramble(sb, Scramble(sb, h, Pass(keys, 0)), Pass(keys, 1)), Pass(keys, 2))
  }

  /** des_ecb_crypt and tripledes_ecb_crypt on one block of eight bytes. */
  function CryptBlock(sb: SBoxes, keys: seq<Word>, data: seq<Byte>): (out: seq<Byte>)
    requires IsSchedule(keys) && |data| == 8
    ensures |out| == 8
  {
    WriteBlock(FinalPermutation(Core(sb, InitialPermutation(ReadBlock(data)), keys)))
  }

  lemma CoreUndone(sb: SBoxes, h: Halves, keys: seq<Word>)
    requires IsSchedule(keys)
    ensures Core(sb, Core(sb, h, keys), PairReverse(keys)) == h
  {
    if |keys| == DES_KEYS {
      ScrambleUndone(sb, h, keys);
    } else {
      var a, b, c := Pass(keys, 0), Pass(keys, 1), Pass(keys, 2);
      TripleReverse(keys);
      var h1 := Scramble(sb, h, a);
      var h2 := Scramble(sb, h1, b);
      ScrambleUndone(sb, h2, c);
      ScrambleUndone(sb, h1, b);
      ScrambleUndone(sb, h, a);
    }
  }

  /** Reversing a triple schedule reverses the three parts and their order. */
  lemma TripleReverse(keys: seq<Word>)
    requires |keys| == TRIPLE_KEYS
    ensures forall n: nat | n < 3 :: Pass(PairReverse(keys), n) == PairReverse(Pass(keys, 2 - n))
  {
    var a, b, c := Pass(keys, 0), Pass(keys, 1), Pass(keys, 2);
    assert keys == a + (b + c);
    PairReverseAppend(a, b + c);
    PairReverseAppend(b, c);
  }

  /** Decryption with the pairwise reversed schedule inverts encryption, for DES and for triple DES. */
  lemma DecryptInvertsEncrypt(sb: SBoxes, keys: seq<Word>, data: seq<Byte>)
    requires IsSchedule(keys) && |data| == 8
    ensures CryptBlock(sb, PairReverse(keys), CryptBlock(sb, keys, data)) == data
    ensures CryptBlock(sb, keys, CryptBlock(sb, PairReverse(keys), data)) == data
  {
    PairReverseTwice(keys);
    OneWay(sb, keys, data);
    OneWay(sb, PairReverse(keys), data);
  }

  lemma {:induction false} OneWay(sb: SBoxes, keys: seq<Word>, data: seq<Byte>)
    requires IsSchedule(keys) && |data| == 8
    ensures CryptBlock(sb, PairReverse(keys), CryptBlock(sb, keys, data)) == data
  {
    var h := InitialPermutation(ReadBlock(data));
    var scrambled := Core(sb, h, keys);
    BlockBytes(FinalPermutation(scrambled), data);
    PermutationsInverse(scrambled);
    CoreUndone(sb, h, keys);
    PermutationsInverse(ReadBlock(data));
  }

  // ---------------------------------------------------------------- complementation of the rounds

  /** The bits of a subkey word that DES_ROUND uses. */
  const SUBKEY_MASK: Word := Word(0x3f3f3f3f)

  function FlipSubkeys(keys: seq<Word>): (r: seq<Word>)
    ensures |r| == |keys|
  {
    seq(|keys|, i requires 0 <= i < |keys| => Xor(keys[i], SUBKEY_MASK))
  }

  lemma IndicesFlip(from: Word, k: Word)
    ensures var w, w' := Xor(from, k), Xor(Not(from), Xor(k, SUBKEY_MASK));
            && Index0(w') == Index0(w) && Index8(w') == Index8(w)
            && Index16(w') == Index16(w) && Index24(w') == Index24(w)
  {
    var w, w' := Xor(from, k), Xor(Not(from), Xor(k, SUBKEY_MASK));
    assert Index0(w').bits == Index0(w).bits;
    assert Index8(w').bits == Index8(w).bits;
    assert Index16(w').bits == Index16(w).bits;
    assert Index24(w').bits == Index24(w).bits;
  }

  lemma RotateFlip(w: Word)
    ensures RotateRight4(Not(w)) == Not(RotateRight4(w))
  {
    var a, b := RotateRight4(Not(w)), Not(RotateRight4(w));
    assert a.bits == b.bits;
  }

  lemma {:induction false} MangleFlip(sb: SBoxes, from: Word, k0: Word, k1: Word)
    ensures Mangle(sb, Not(from), Xor(k0, SUBKEY_MASK), Xor(k1, SUBKEY_MASK)) == Mangle(sb, from, k0, k1)
  {
    IndicesFlip(from, k0);
    RotateFlip(from);
    IndicesFlip(RotateRight4(from), k1);
  }

  lemma {:induction false} RoundsFlip(sb: SBoxes, h: Halves, keys: seq<Word>)
    ensures Rounds(sb, Flip(h), FlipSubkeys(keys)) == Flip(Rounds(sb, h, keys))
    decreases |keys|
  {
    if |keys| >= 2 {
      var next := Round(sb, h, keys[0], keys[1]);
      MangleFlip(sb, h.right, keys[0], keys[1]);
      XorNot(h.left, Mangle(sb, h.right, keys[0], keys[1]));
      RoundsFlip(sb, next, keys[2..]);
      assert FlipSubkeys(keys)[2..] == FlipSubkeys(keys[2..]);
    }
  }

  /** Complementing block and subkeys complements the result, for DES and for triple DES. */
  lemma CryptBlockFlip(sb: SBoxes, keys: seq<Word>, data: seq<Byte>)
    requires IsSchedule(keys) && |data| == 8
    ensures CryptBlock(sb, FlipSubkeys(keys), FlipBytes(data)) == FlipBytes(CryptBlock(sb, keys, data))
  {
    var h := InitialPermutation(ReadBlock(data));
    ReadBlockFlip(data);
    PermutationsFlip(ReadBlock(data));
    CoreFlip(sb, h, keys);
    PermutationsFlip(Core(sb, h, keys));
    WriteBlockFlip(FinalPermutation(Core(sb, h, keys)));
  }

  lemma PassFlip(keys: seq<Word>, n: nat)
    requires |keys| == TRIPLE_KEYS && n < 3
    ensures Pass(FlipSubkeys(keys), n) == FlipSubkeys(Pass(keys, n))
  {
  }

  lemma ScrambleFlip(sb: SBoxes, h: Halves, keys: seq<Word>)
    ensures Scramble(sb, Flip(h), FlipSubkeys(keys)) == Flip(Scramble(sb, h, keys))
  {
    RoundsFlip(sb, h, keys);
  }

  lemma CoreFlip(sb: SBoxes, h: Halves, keys: seq<Word>)
    requires IsSchedule(keys)
    ensures Core(sb, Flip(h), FlipSubkeys(keys)) == Flip(Core(sb, h, keys))
  {
    if |keys| == DES_KEYS {
      ScrambleFlip(sb, h, keys);
    } else {
      var a, b, c := Pass(keys, 0), Pass(keys, 1), Pass(keys, 2);
      PassFlip(keys, 0);
      PassFlip(keys, 1);
      PassFlip(keys, 2);
      ScrambleFlip(sb, h, a);
      ScrambleFlip(sb, Scramble(sb, h, a), b);
      ScrambleFlip(sb, Scramble(sb, Scramble(sb, h, a), b), c);
    }
  }
}
