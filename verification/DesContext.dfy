/**
  The imperative code of be/be_des.cpp: contexts filled with subkeys, the block functions on registers, and the
  byte-level encrypt and decrypt loops, each proved equal to the functions of DesCipher, DesKeySchedule and DesEcb.
  A pointer into a buffer is an array and an offset. Input and output buffer may be the same array.
 */
module DesContext {
  import opened DesWords
  import opened DesCipher
  import opened DesKeySchedule
  import opened DesEcb
  import opened Wrappers

  // ---------------------------------------------------------------- key setup

  /** des_key_schedule: writes 32 subkey words at offset `at`. */
  method ScheduleInto(rawkey: seq<Byte>, subkey: array<Word>, at: nat)
    requires |rawkey| == 8 && at + 32 <= subkey.Length
    modifies subkey
    ensures subkey[at..at + 32] == KeySchedule(rawkey)
    ensures subkey[..at] == old(subkey[..at]) && subkey[at + 32..] == old(subkey[at + 32..])
  {
    hide *;
    var h := PermutedChoice1(ReadBlock(rawkey));
    ghost var keys := KeySchedule(rawkey);
    ScheduleStart(rawkey);
    var next := at;
    for round := 0 to 16
      invariant next == at + 2 * round
      invariant keys[2 * round..] == ScheduleFrom(h, round)
      invariant forall k :: 0 <= k < 2 * round ==> subkey[at + k] == keys[k]
      invariant forall k :: 0 <= k < at || at + 2 * round <= k < subkey.Length ==> subkey[k] == old(subkey[k])
    {
      ScheduleStep(h, round);
      assert keys[2 * round..][2..] == keys[2 * (round + 1)..];
      h := Rotate(h, round);
      subkey[next] := FirstSubkey(h);
      next := next + 1;
      subkey[next] := SecondSubkey(h);
      next := next + 1;
    }
  }

  lemma ScheduleStart(rawkey: seq<Byte>)
    requires |rawkey| == 8
    ensures KeySchedule(rawkey) == ScheduleFrom(PermutedChoice1(ReadBlock(rawkey)), 0)
  {
  }

  lemma ScheduleStep(h: Halves, round: nat)
    requires round < 16
    ensures var next := Rotate(h, round);
            ScheduleFrom(h, round) == [FirstSubkey(next), SecondSubkey(next)] + ScheduleFrom(next, round + 1)
  {
  }

  /** Two assignments of the key setup loops: one subkey pair copied. */
  method CopyPair(from: array<Word>, at: nat, to: array<Word>, dest: nat)
    requires at + 2 <= from.Length && dest + 2 <= to.Length
    requires from != to || at + 2 <= dest
    modifies to
    ensures to[dest] == old(from[at]) && to[dest + 1] == old(from[at + 1])
    ensures forall k :: 0 <= k < to.Length && k != dest && k != dest + 1 ==> to[k] == old(to[k])
  {
    to[dest] := from[at];
    to[dest + 1] := from[at + 1];
  }

  /** What the reversing loops of the key setup write. */
  lemma {:induction false} PairReverseIndex(keys: seq<Word>, pair: nat)
    requires |keys| == DES_KEYS && pair < 16
    ensures PairReverse(keys)[2 * pair] == keys[30 - 2 * pair]
    ensures PairReverse(keys)[2 * pair + 1] == keys[31 - 2 * pair]
  {
    hide PairReverse;
    PairReverseAt(keys, 2 * pair);
    PairReverseAt(keys, 2 * pair + 1);
  }

  class Context {
    const encryptSubkeys: array<Word>
    const decryptSubkeys: array<Word>

    /** Two distinct subkey arrays, both of the size of DesCtx or both of the size of TripleDesCtx. */
    ghost predicate Valid() {
      && encryptSubkeys != decryptSubkeys
      && encryptSubkeys.Length == decryptSubkeys.Length
      && (encryptSubkeys.Length == DES_KEYS || encryptSubkeys.Length == TRIPLE_KEYS)
    }

    /** The context holds the schedule `keys` and its pairwise reversal. */
    ghost predicate Holds(keys: seq<Word>)
      requires IsSchedule(keys)
      reads encryptSubkeys, decryptSubkeys
    {
      encryptSubkeys[..] == keys && decryptSubkeys[..] == PairReverse(keys)
    }

    constructor (words: nat)
      requires words == DES_KEYS || words == TRIPLE_KEYS
      ensures Valid() && encryptSubkeys.Length == words && fresh(encryptSubkeys) && fresh(decryptSubkeys)
    {
      encryptSubkeys := new Word[words](i => Word(0));
      decryptSubkeys := new Word[words](i => Word(0));
    }

    /** des_setkey, with the self-test flag clear as it is until a self-test fails. */
    method SetKey(key: seq<Byte>)
      requires Valid() && encryptSubkeys.Length == DES_KEYS && |key| == 8
      modifies encryptSubkeys, decryptSubkeys
      ensures Holds(KeySchedule(key))
    {
      hide KeySchedule, PairReverse;
      ScheduleInto(key, encryptSubkeys, 0);
      ghost var keys := KeySchedule(key);
      assert encryptSubkeys[..] == keys;
      ghost var reversed := PairReverse(keys);
      var i := 0;
      ghost var pair: nat := 0;
      while i < 32
        invariant i == 2 * pair <= 32
        invariant encryptSubkeys[..] == keys
        invariant forall k :: 0 <= k < i ==> decryptSubkeys[k] == reversed[k]
      {
        PairReverseIndex(keys, pair);
        CopyPair(encryptSubkeys, 30 - i, decryptSubkeys, i);
        i := i + 2;
        pair := pair + 1;
      }
    }

    /** tripledes_set2keys: the third part of the schedule repeats the first key. */
    method SetTwoKeys(key1: seq<Byte>, key2: seq<Byte>)
      requires Valid() && encryptSubkeys.Length == TRIPLE_KEYS && |key1| == |key2| == 8
      modifies encryptSubkeys, decryptSubkeys
      ensures Holds(TripleKeys(KeySchedule(key1), KeySchedule(key2), KeySchedule(key1)))
    {
      hide KeySchedule, PairReverse;
      ghost var first, second := KeySchedule(key1), KeySchedule(key2);
      ScheduleInto(key1, encryptSubkeys, 0);
      ScheduleInto(key2, decryptSubkeys, 32);
      TripleMirrored(first, second, first);
      FillFromTwo(encryptSubkeys, decryptSubkeys, first + PairReverse(second) + first,
                  PairReverse(first) + second + PairReverse(first));
      TripleKeysReversed(first, second, first);
    }

    /** tripledes_set3keys. */
    method SetThreeKeys(key1: seq<Byte>, key2: seq<Byte>, key3: seq<Byte>)
      requires Valid() && encryptSubkeys.Length == TRIPLE_KEYS && |key1| == |key2| == |key3| == 8
      modifies encryptSubkeys, decryptSubkeys
      ensures Holds(TripleKeys(KeySchedule(key1), KeySchedule(key2), KeySchedule(key3)))
    {
      hide KeySchedule, PairReverse;
      ghost var first, second, third := KeySchedule(key1), KeySchedule(key2), KeySchedule(key3);
      ScheduleInto(key1, encryptSubkeys, 0);
      assert encryptSubkeys[0..32] == first;
      ScheduleInto(key2, decryptSubkeys, 32);
      ScheduleInto(key3, encryptSubkeys, 64);
      assert encryptSubkeys[..64][..32] == first;
      TripleMirrored(first, second, third);
      FillFromThree(encryptSubkeys, decryptSubkeys, first + PairReverse(second) + third,
                    PairReverse(third) + second + PairReverse(first));
      TripleKeysReversed(first, second, third);
    }
  }

  /** What pass `pair` of the filling loops reads and writes, in arrays that are already finished. */
  ghost predicate MirrorCells(encrypt: seq<Word>, decrypt: seq<Word>, pair: nat)
    requires |encrypt| == |decrypt| == TRIPLE_KEYS && pair < 16
  {
    var i := 2 * pair;
    && decrypt[i] == encrypt[94 - i] && decrypt[i + 1] == encrypt[95 - i]
    && encrypt[i + 32] == decrypt[62 - i] && encrypt[i + 33] == decrypt[63 - i]
    && decrypt[i + 64] == encrypt[30 - i] && decrypt[i + 65] == encrypt[31 - i]
  }

  ghost predicate Mirrored(encrypt: seq<Word>, decrypt: seq<Word>)
    requires |encrypt| == |decrypt| == TRIPLE_KEYS
  {
    forall pair: nat | pair < 16 :: MirrorCells(encrypt, decrypt, pair)
  }

  lemma Thirds(a: seq<Word>, b: seq<Word>, c: seq<Word>, k: nat)
    requires |a| == |b| == |c| == DES_KEYS && k < 32
    ensures (a + b + c)[k] == a[k] && (a + b + c)[k + 32] == b[k] && (a + b + c)[k + 64] == c[k]
  {
  }

  lemma {:induction false} ThirdsMirror(a: seq<Word>, b: seq<Word>, c: seq<Word>, pair: nat)
    requires |a| == |b| == |c| == DES_KEYS && pair < 16
    ensures MirrorCells(a + PairReverse(b) + c, PairReverse(c) + b + PairReverse(a), pair)
  {
    hide PairReverse;
    var i := 2 * pair;
    PairReverseIndex(a, pair);
    PairReverseIndex(b, pair);
    PairReverseIndex(c, pair);
    Thirds(a, PairReverse(b), c, i);
    Thirds(a, PairReverse(b), c, i + 1);
    Thirds(a, PairReverse(b), c, 30 - i);
    Thirds(a, PairReverse(b), c, 31 - i);
    Thirds(PairReverse(c), b, PairReverse(a), i);
    Thirds(PairReverse(c), b, PairReverse(a), i + 1);
    Thirds(PairReverse(c), b, PairReverse(a), 30 - i);
    Thirds(PairReverse(c), b, PairReverse(a), 31 - i);
  }

  lemma {:induction false} TripleMirrored(a: seq<Word>, b: seq<Word>, c: seq<Word>)
    requires |a| == |b| == |c| == DES_KEYS
    ensures Mirrored(a + PairReverse(b) + c, PairReverse(c) + b + PairReverse(a))
  {
    hide PairReverse;
    forall pair: nat | pair < 16
      ensures MirrorCells(a + PairReverse(b) + c, PairReverse(c) + b + PairReverse(a), pair)
    {
      ThirdsMirror(a, b, c, pair);
    }
  }

  /** The loop of tripledes_set2keys, towards finished arrays whose last thirds repeat their first thirds. */
  method FillFromTwo(encrypt: array<Word>, decrypt: array<Word>, ghost e: seq<Word>, ghost d: seq<Word>)
    requires encrypt != decrypt && encrypt.Length == decrypt.Length == |e| == |d| == TRIPLE_KEYS
    requires Mirrored(e, d)
    requires forall k :: 0 <= k < 32 ==> e[k + 64] == e[k] && d[k + 64] == d[k]
    requires encrypt[..32] == e[..32] && decrypt[32..64] == d[32..64]
    modifies encrypt, decrypt
    ensures encrypt[..] == e && decrypt[..] == d
  {
    var i := 0;
    ghost var pair: nat := 0;
    while i < 32
      invariant i == 2 * pair <= 32
      invariant forall k :: 0 <= k < 32 + i || 64 <= k < 64 + i ==> encrypt[k] == e[k]
      invariant forall k :: 0 <= k < i || 32 <= k < 64 + i ==> decrypt[k] == d[k]
    {
      assert MirrorCells(e, d, pair);
      CopyPair(encrypt, 30 - i, decrypt, i);
      CopyPair(decrypt, 62 - i, encrypt, i + 32);
      CopyPair(encrypt, i, encrypt, i + 64);
      CopyPair(decrypt, i, decrypt, i + 64);
      i := i + 2;
      pair := pair + 1;
    }
  }

  /** The loop of tripledes_set3keys. */
  method FillFromThree(encrypt: array<Word>, decrypt: array<Word>, ghost e: seq<Word>, ghost d: seq<Word>)
    requires encrypt != decrypt && encrypt.Length == decrypt.Length == |e| == |d| == TRIPLE_KEYS
    requires Mirrored(e, d)
    requires encrypt[..32] == e[..32] && decrypt[32..64] == d[32..64] && encrypt[64..] == e[64..]
    modifies encrypt, decrypt
    ensures encrypt[..] == e && decrypt[..] == d
  {
    var i := 0;
    ghost var pair: nat := 0;
    while i < 32
      invariant i == 2 * pair <= 32
      invariant forall k :: 0 <= k < 32 + i || 64 <= k < 96 ==> encrypt[k] == e[k]
      invariant forall k :: 0 <= k < i || 32 <= k < 64 + i ==> decrypt[k] == d[k]
    {
      assert MirrorCells(e, d, pair);
      CopyPair(encrypt, 94 - i, decrypt, i);
      CopyPair(decrypt, 62 - i, encrypt, i + 32);
      CopyPair(encrypt, 30 - i, decrypt, i + 64);
      i := i + 2;
      pair := pair + 1;
    }
  }

  // ---------------------------------------------------------------- the block functions

  lemma XorAssociative(a: Word, b: Word, c: Word)
    ensures Xor(Xor(a, b), c) == Xor(a, Xor(b, c))
  {
    var x, y := Xor(Xor(a, b), c), Xor(a, Xor(b, c));
    assert x.bits == y.bits;
  }

  /** DES_ROUND: eight table look-ups folded into `to`. */
  method DesRound(sb: SBoxes, from: Word, to: Word, k0: Word, k1: Word) returns (mixed: Word)
    ensures mixed == Xor(to, Mangle(sb, from, k0, k1))
  {
    hide Xor, RotateRight4, Index0, Index8, Index16, Index24;
    var work := Xor(from, k0);
    ghost var s := sb.s8(Index0(work));
    mixed := Xor(to, sb.s8(Index0(work)));
    XorAssociative(to, s, sb.s6(Index8(work)));
    s := Xor(s, sb.s6(Index8(work)));
    mixed := Xor(mixed, sb.s6(Index8(work)));
    XorAssociative(to, s, sb.s4(Index16(work)));
    s := Xor(s, sb.s4(Index16(work)));
    mixed := Xor(mixed, sb.s4(Index16(work)));
    XorAssociative(to, s, sb.s2(Index24(work)));
    s := Xor(s, sb.s2(Index24(work)));
    mixed := Xor(mixed, sb.s2(Index24(work)));
    work := Xor(RotateRight4(from), k1);
    XorAssociative(to, s, sb.s7(Index0(work)));
    s := Xor(s, sb.s7(Index0(work)));
    mixed := Xor(mixed, sb.s7(Index0(work)));
    XorAssociative(to, s, sb.s5(Index8(work)));
    s := Xor(s, sb.s5(Index8(work)));
    mixed := Xor(mixed, sb.s5(Index8(work)));
    XorAssociative(to, s, sb.s3(Index16(work)));
    s := Xor(s, sb.s3(Index16(work)));
    mixed := Xor(mixed, sb.s3(Index16(work)));
    XorAssociative(to, s, sb.s1(Index24(work)));
    mixed := Xor(mixed, sb.s1(Index24(work)));
  }

  /** One line of the unrolled block functions: two rounds with the halves taking turns, instead of crossing. */
  method TwoRounds(sb: SBoxes, keys: array<Word>, at: nat, left: Word, right: Word,
                   ghost start: Halves, ghost from: nat)
    returns (left': Word, right': Word, next: nat)
    requires from <= at <= at + 4 <= keys.Length && (at - from) % 2 == 0
    requires Halves(left, right) == Rounds(sb, start, keys[from..at])
    ensures next == at + 4
    ensures Halves(left', right') == Rounds(sb, start, keys[from..next])
  {
    hide Mangle, Xor;
    left' := DesRound(sb, right, left, keys[at], keys[at + 1]);
    right' := DesRound(sb, left', right, keys[at + 2], keys[at + 3]);
    next := at + 4;
    RoundsFour(sb, Halves(left, right), keys[at..next]);
    assert keys[from..at] + keys[at..next] == keys[from..next];
    RoundsAppend(sb, start, keys[from..at], keys[at..next]);
  }

  lemma RoundsFour(sb: SBoxes, h: Halves, keys: seq<Word>)
    requires |keys| == 4
    ensures Rounds(sb, h, keys) == Round(sb, Round(sb, h, keys[0], keys[1]), keys[2], keys[3])
  {
    hide Mangle, Xor;
    assert Rounds(sb, h, keys) == Rounds(sb, Round(sb, h, keys[0], keys[1]), keys[2..]);
  }

  /** The sixteen unrolled rounds of one DES pass. */
  method SixteenRounds(sb: SBoxes, keys: array<Word>, at: nat, left0: Word, right0: Word)
    returns (left: Word, right: Word, next: nat)
    requires at + 32 <= keys.Length
    ensures next == at + 32
    ensures Halves(left, right) == Rounds(sb, Halves(left0, right0), keys[at..at + 32])
  {
    hide Mangle, Xor;
    ghost var start := Halves(left0, right0);
    assert keys[at..at] == [];
    left, right, next := TwoRounds(sb, keys, at, left0, right0, start, at);
    left, right, next := TwoRounds(sb, keys, next, left, right, start, at);
    left, right, next := TwoRounds(sb, keys, next, left, right, start, at);
    left, right, next := TwoRounds(sb, keys, next, left, right, start, at);
    left, right, next := TwoRounds(sb, keys, next, left, right, start, at);
    left, right, next := TwoRounds(sb, keys, next, left, right, start, at);
    left, right, next := TwoRounds(sb, keys, next, left, right, start, at);
    left, right, next := TwoRounds(sb, keys, next, left, right, start, at);
  }

  /** The registers of des_ecb_crypt (one pass) and tripledes_ecb_crypt (three, the middle one on exchanged halves). */
  method CryptRegisters(sb: SBoxes, keys: array<Word>, left0: Word, right0: Word) returns (left: Word, right: Word)
    requires keys.Length == DES_KEYS || keys.Length == TRIPLE_KEYS
    ensures Halves(right, left) == Core(sb, Halves(left0, right0), keys[..])
  {
    hide Rounds;
    var next;
    left, right, next := SixteenRounds(sb, keys, 0, left0, right0);
    if keys.Length == TRIPLE_KEYS {
      assert keys[..][0..32] == keys[0..32] && keys[..][32..64] == keys[32..64] && keys[..][64..96] == keys[64..96];
      right, left, next := SixteenRounds(sb, keys, next, right, left);
      left, right, next := SixteenRounds(sb, keys, next, left, right);
    } else {
      assert keys[0..32] == keys[..];
    }
  }

  /** des_ecb_crypt and tripledes_ecb_crypt; `mode` is the choice of subkey array. */
  method CryptInto(sb: SBoxes, keys: array<Word>, from: array<Byte>, f: nat, to: array<Byte>, t: nat)
    requires keys.Length == DES_KEYS || keys.Length == TRIPLE_KEYS
    requires f + 8 <= from.Length && t + 8 <= to.Length
    modifies to
    ensures to[t..t + 8] == CryptBlock(sb, keys[..], old(from[f..f + 8]))
    ensures to[..t] == old(to[..t]) && to[t + 8..] == old(to[t + 8..])
  {
    hide InitialPermutation, FinalPermutation, Core, ReadWord, WriteWord;
    var h := Halves(ReadWord(from[f], from[f + 1], from[f + 2], from[f + 3]),
                    ReadWord(from[f + 4], from[f + 5], from[f + 6], from[f + 7]));
    h := InitialPermutation(h);
    var left, right := CryptRegisters(sb, keys, h.left, h.right);
    h := FinalPermutation(Halves(right, left));
    var data := WriteBlock(h);
    to[t], to[t + 1], to[t + 2], to[t + 3] := data[0], data[1], data[2], data[3];
    to[t + 4], to[t + 5], to[t + 6], to[t + 7] := data[4], data[5], data[6], data[7];
  }

  // ---------------------------------------------------------------- the byte-level functions

  /** One more block appended to blocks already processed. */
  lemma {:induction false} CryptBlocksExtend(sb: SBoxes, keys: seq<Word>, done: seq<Byte>, block: seq<Byte>)
    requires IsSchedule(keys) && |done| % 8 == 0 && |block| == 8
    ensures CryptBlocks(sb, keys, done + block) == CryptBlocks(sb, keys, done) + CryptBlock(sb, keys, block)
  {
    hide CryptBlock;
    CryptBlocksAppend(sb, keys, done, block);
    assert CryptBlocks(sb, keys, block) == CryptBlock(sb, keys, block[..8]) + CryptBlocks(sb, keys, block[8..]);
    assert block[..8] == block && block[8..] == [];
  }

  /** The loop over whole blocks that the four byte-level functions share. */
  method CryptGroups(sb: SBoxes, keys: array<Word>, inbuf: array<Byte>, outbuf: array<Byte>, groups: nat)
    returns (bnum: nat)
    requires keys.Length == DES_KEYS || keys.Length == TRIPLE_KEYS
    requires 8 * groups <= inbuf.Length && 8 * groups <= outbuf.Length
    modifies outbuf
    ensures bnum == 8 * groups
    ensures outbuf[..bnum] == CryptBlocks(sb, keys[..], old(inbuf[..bnum]))
    ensures outbuf[bnum..] == old(outbuf[..])[bnum..]
    ensures inbuf[bnum..] == old(inbuf[..])[bnum..]
  {
    hide CryptBlock, CryptBlocks;
    ghost var data := inbuf[..];
    ghost var untouched := outbuf[..];
    bnum := 0;
    var i := 0;
    CryptNothing(sb, keys[..]);
    assert data[..0] == outbuf[..0] == [];
    while i < groups
      invariant 0 <= i <= groups && bnum == 8 * i
      invariant outbuf[..bnum] == CryptBlocks(sb, keys[..], data[..bnum])
      invariant outbuf[bnum..] == untouched[bnum..]
      invariant inbuf[bnum..] == data[bnum..]
    {
      ghost var block := data[bnum..bnum + 8];
      assert inbuf[bnum..bnum + 8] == inbuf[bnum..][..8] == block;
      assert data[..bnum + 8] == data[..bnum] + block;
      CryptBlocksExtend(sb, keys[..], data[..bnum], block);
      CryptInto(sb, keys, inbuf, bnum, outbuf, bnum);
      assert outbuf[..bnum + 8] == outbuf[..bnum] + outbuf[bnum..bnum + 8];
      bnum := bnum + 8;
      i := i + 1;
    }
  }

  lemma CryptNothing(sb: SBoxes, keys: seq<Word>)
    requires IsSchedule(keys)
    ensures CryptBlocks(sb, keys, []) == []
  {
  }

  lemma PadLastBlock(message: seq<Byte>, bnum: nat)
    requires bnum == 8 * (|message| / 8)
    ensures Pad(message) == message[..bnum] + (message[bnum..] + Padding(8 - (|message| - bnum)))
  {
    hide PadByte;
    assert message == message[..bnum] + message[bnum..];
  }

  /** The local buffer of DesEncrypt: what is left of the message and the padding. */
  method LastBlock(inbuf: array<Byte>, at: nat, remaining: nat) returns (buf: array<Byte>)
    requires remaining < 8 && at + remaining <= inbuf.Length
    ensures fresh(buf) && buf.Length == 8
    ensures buf[0..8] == inbuf[at..at + remaining] + Padding(8 - remaining)
  {
    hide PadByte;
    var padlen := 8 - remaining;
    buf := new Byte[8](k => Byte(0));
    forall k | 0 <= k < remaining {
      buf[k] := inbuf[at + k];
    }
    forall k | 0 <= k < padlen {
      buf[remaining + k] := Padding(padlen)[k];
    }
  }

  /** DesEncrypt and Des3Encrypt after their null checks; they differ only in the block function. */
  method EncryptBuffer(sb: SBoxes, keys: array<Word>, inbuf: array<Byte>, len: nat, outbuf: array<Byte>)
    returns (outlen: nat)
    requires keys.Length == DES_KEYS || keys.Length == TRIPLE_KEYS
    requires len <= inbuf.Length && 8 * (len / 8 + 1) <= outbuf.Length
    modifies outbuf
    ensures outlen == 8 * (len / 8 + 1)
    ensures outbuf[..outlen] == Encrypt(sb, keys[..], old(inbuf[..len]))
    ensures outbuf[outlen..] == old(outbuf[..])[outlen..]
  {
    hide CryptBlock, CryptBlocks, Pad, Padding;
    ghost var schedule := keys[..];
    ghost var message, inputs, untouched := inbuf[..len], inbuf[..], outbuf[..];
    outlen := 8 * (len / 8 + 1);
    var groups, remaining := len / 8, len % 8;
    assert inbuf[..8 * groups] == message[..8 * groups];
    var bnum := CryptGroups(sb, keys, inbuf, outbuf, groups);
    assert inbuf[bnum..len] == inputs[bnum..len] == message[bnum..];
    assert outbuf[bnum..] == untouched[bnum..];
    var buf := LastBlock(inbuf, bnum, remaining);
    ghost var block := buf[0..8];
    PadLastBlock(message, bnum);
    CryptBlocksExtend(sb, schedule, message[..bnum], block);
    CryptInto(sb, keys, buf, 0, outbuf, bnum);
    assert keys[..] == schedule;
    assert outbuf[..bnum + 8] == outbuf[..bnum] + outbuf[bnum..bnum + 8];
    assert outbuf[bnum + 8..] == untouched[bnum..][8..];
  }

  /** The bytes DesDecrypt writes of the decrypted blocks: all but the last block when the padding is rejected. */
  function Written(plain: seq<Byte>): (bytes: seq<Byte>)
    requires |plain| >= 8
    ensures |plain| - 8 <= |bytes| < |plain|
  {
    match Unpad(plain)
    case Some(message) => message
    case None => plain[..|plain| - 8]
  }

  /** Whether padding is accepted depends on the last block alone. */
  lemma UnpadLastBlock(front: seq<Byte>, block: seq<Byte>)
    requires |block| == 8
    ensures var n := PadLength(block[7]);
            Unpad(front + block)
              == if n == 0 || block[8 - n..] != Padding(n) then None else Some(front + block[..8 - n])
  {
    hide PadByte, PadLength, Padding;
    var n := PadLength(block[7]);
    var plain := front + block;
    assert plain[|plain| - 1] == block[7];
    assert plain[|plain| - n..] == block[8 - n..];
    assert plain[..|plain| - n] == front + block[..8 - n];
  }

  /** The end of DesDecrypt: checks the padding of the last decrypted block and copies the rest of it. */
  method StripPadding(buf: array<Byte>, outbuf: array<Byte>, at: nat, ghost plain: seq<Byte>)
    returns (ret: int, bnum: nat)
    requires buf != outbuf && buf.Length == 8 && at + 7 <= outbuf.Length
    requires plain == outbuf[..at] + buf[..]
    modifies outbuf
    ensures ret == if Unpad(plain).Some? then 0 else -1
    ensures ret == 0 ==> bnum == |Written(plain)|
    ensures outbuf[..] == Written(plain) + old(outbuf[..])[|Written(plain)|..]
  {
    hide PadByte, PadLength, Padding, Unpad;
    ghost var front, block, untouched := outbuf[..at], buf[..], outbuf[..];
    UnpadLastBlock(front, block);
    bnum := at;
    var padlen := PadLength(buf[7]);
    if padlen == 0 || buf[8 - padlen..] != Padding(padlen) {
      assert plain[..|plain| - 8] == front;
      assert outbuf[..] == front + untouched[at..];
      return -1, bnum;
    }
    forall k | 0 <= k < 8 - padlen {
      outbuf[bnum + k] := buf[k];
    }
    bnum := bnum + 8 - padlen;
    assert outbuf[..] == front + block[..8 - padlen] + untouched[bnum..];
    return 0, bnum;
  }

  /** DesDecrypt and Des3Decrypt after their null checks; a negative length is rejected like an empty one. */
  method DecryptBuffer(sb: SBoxes, keys: array<Word>, inbuf: array<Byte>, len: int, outbuf: array<Byte>)
    returns (ret: int, outlen: nat)
    requires keys.Length == DES_KEYS || keys.Length == TRIPLE_KEYS
    requires len <= inbuf.Length && len - 1 <= outbuf.Length
    modifies outbuf
    ensures len <= 0 || len % 8 != 0 ==> ret == -1 && outbuf[..] == old(outbuf[..])
    ensures len > 0 && len % 8 == 0 ==>
              var plain := CryptBlocks(sb, keys[..], old(inbuf[..len]));
              var written := Written(plain);
              && ret == (if Unpad(plain).Some? then 0 else -1)
              && (ret == 0 ==> outlen == |written|)
              && outbuf[..] == written + old(outbuf[..])[|written|..]
  {
    hide CryptBlock, CryptBlocks, Unpad, Written;
    if len % 8 != 0 {
      return -1, 0;
    }
    var groups := len / 8 - 1;
    if len <= 0 {
      // no group and no last block: the remaining length is not 8
      return -1, 0;
    }
    ghost var schedule := keys[..];
    ghost var cipher, untouched := inbuf[..len], outbuf[..];
    ghost var last := cipher[8 * groups..];
    assert cipher == cipher[..8 * groups] + last;
    assert inbuf[..8 * groups] == cipher[..8 * groups];
    ghost var inputs := inbuf[..];
    var bnum := CryptGroups(sb, keys, inbuf, outbuf, groups);
    assert inbuf[bnum..bnum + 8] == inputs[bnum..bnum + 8] == last;
    var buf := new Byte[8](k => Byte(0));
    CryptInto(sb, keys, inbuf, bnum, buf, 0);
    assert keys[..] == schedule;
    assert buf.Length == 8;
    assert buf[0..8] == buf[..];
    CryptBlocksExtend(sb, schedule, cipher[..bnum], last);
    ghost var plain := CryptBlocks(sb, schedule, cipher);
    ret, outlen := StripPadding(buf, outbuf, bnum, plain);
    assert keys[..] == schedule;
    assert outbuf[..] == Written(plain) + untouched[|Written(plain)|..];
  }
}
