/**
  Triple DES as a composition of single DES, and the padded electronic-codebook format of be/be_des.cpp:
  what the byte-level encrypt and decrypt functions compute, and that each is the inverse of the other.
 */
module DesEcb {
  import opened Wrappers
  import opened DesWords
  import opened DesCipher
  import opened DesKeySchedule

  // ---------------------------------------------------------------- triple DES

  /** The 96 encryption subkeys made of three schedules: the middle part is reversed for decryption. */
  function TripleKeys(a: seq<Word>, b: seq<Word>, c: seq<Word>): (keys: seq<Word>)
    requires |a| == |b| == |c| == DES_KEYS
    ensures |keys| == TRIPLE_KEYS
  {
    a + PairReverse(b) + c
  }

  /** Two block functions after each other, when the first ends where the second begins. */
  lemma CryptTwice(sb: SBoxes, a: seq<Word>, b: seq<Word>, data: seq<Byte>)
    requires |a| == |b| == DES_KEYS && |data| == 8
    ensures CryptBlock(sb, b, CryptBlock(sb, a, data))
         == WriteBlock(FinalPermutation(Scramble(sb, Scramble(sb, InitialPermutation(ReadBlock(data)), a), b)))
  {
    var scrambled := Scramble(sb, InitialPermutation(ReadBlock(data)), a);
    BlockBytes(FinalPermutation(scrambled), data);
    PermutationsInverse(scrambled);
  }

  /** Triple DES is encrypt with the third part, after the second, after the first: the inner permutations cancel. */
  lemma {:induction false} TripleIsThreeSingles(sb: SBoxes, keys: seq<Word>, data: seq<Byte>)
    requires |keys| == TRIPLE_KEYS && |data| == 8
    ensures CryptBlock(sb, keys, data)
         == CryptBlock(sb, Pass(keys, 2), CryptBlock(sb, Pass(keys, 1), CryptBlock(sb, Pass(keys, 0), data)))
  {
    var once := CryptBlock(sb, Pass(keys, 0), data);
    var first := Scramble(sb, InitialPermutation(ReadBlock(data)), Pass(keys, 0));
    CryptTwice(sb, Pass(keys, 1), Pass(keys, 2), once);
    BlockBytes(FinalPermutation(first), data);
    PermutationsInverse(first);
  }

  lemma TriplePasses(a: seq<Word>, b: seq<Word>, c: seq<Word>)
    requires |a| == |b| == |c| == DES_KEYS
    ensures var keys := TripleKeys(a, b, c);
            Pass(keys, 0) == a && Pass(keys, 1) == PairReverse(b) && Pass(keys, 2) == c
  {
    hide PairReverse;
  }

  /** Section 3 of NIST SP 800-67: E(K3, D(K2, E(K1, data))). */
  lemma {:induction false} EncryptDecryptEncrypt(sb: SBoxes, a: seq<Word>, b: seq<Word>, c: seq<Word>, data: seq<Byte>)
    requires |a| == |b| == |c| == DES_KEYS && |data| == 8
    ensures CryptBlock(sb, TripleKeys(a, b, c), data)
         == CryptBlock(sb, c, CryptBlock(sb, PairReverse(b), CryptBlock(sb, a, data)))
  {
    hide CryptBlock, TripleKeys, PairReverse;
    TripleIsThreeSingles(sb, TripleKeys(a, b, c), data);
    TriplePasses(a, b, c);
  }

  /** Three equal keys give single DES. */
  lemma EqualKeysGiveSingleDes(sb: SBoxes, a: seq<Word>, data: seq<Byte>)
    requires |a| == DES_KEYS && |data| == 8
    ensures CryptBlock(sb, TripleKeys(a, a, a), data) == CryptBlock(sb, a, data)
  {
    hide CryptBlock, TripleKeys, PairReverse;
    EncryptDecryptEncrypt(sb, a, a, a, data);
    DecryptInvertsEncrypt(sb, a, data);
  }

  /** The decryption schedule of triple DES: the parts and their order reversed. */
  lemma TripleKeysReversed(a: seq<Word>, b: seq<Word>, c: seq<Word>)
    requires |a| == |b| == |c| == DES_KEYS
    ensures PairReverse(TripleKeys(a, b, c)) == PairReverse(c) + b + PairReverse(a)
  {
    hide PairReverse;
    PairReverseAppend(a + PairReverse(b), c);
    PairReverseAppend(a, PairReverse(b));
    PairReverseTwice(b);
    Associative(PairReverse(c), b, PairReverse(a));
  }

  lemma Associative(a: seq<Word>, b: seq<Word>, c: seq<Word>)
    ensures a + (b + c) == a + b + c
  {
  }

  /** The complementation property carries over to triple DES. */
  lemma {:induction false} TripleComplementation(sb: SBoxes, key1: seq<Byte>, key2: seq<Byte>, key3: seq<Byte>,
                                                 data: seq<Byte>)
    requires |key1| == |key2| == |key3| == |data| == 8
    ensures CryptBlock(sb, TripleKeys(KeySchedule(FlipBytes(key1)), KeySchedule(FlipBytes(key2)),
                                      KeySchedule(FlipBytes(key3))), FlipBytes(data))
         == FlipBytes(CryptBlock(sb, TripleKeys(KeySchedule(key1), KeySchedule(key2), KeySchedule(key3)), data))
  {
    hide CryptBlock, KeySchedule, TripleKeys, FlipBytes;
    KeyScheduleFlip(key1);
    KeyScheduleFlip(key2);
    KeyScheduleFlip(key3);
    TripleKeysFlip(KeySchedule(key1), KeySchedule(key2), KeySchedule(key3));
    CryptBlockFlip(sb, TripleKeys(KeySchedule(key1), KeySchedule(key2), KeySchedule(key3)), data);
  }

  lemma TripleKeysFlip(a: seq<Word>, b: seq<Word>, c: seq<Word>)
    requires |a| == |b| == |c| == DES_KEYS
    ensures TripleKeys(FlipSubkeys(a), FlipSubkeys(b), FlipSubkeys(c)) == FlipSubkeys(TripleKeys(a, b, c))
  {
    hide PairReverse, FlipSubkeys;
    PairReverseFlip(b);
    FlipSubkeysAppend(a, PairReverse(b));
    FlipSubkeysAppend(a + PairReverse(b), c);
  }

  lemma FlipSubkeysAppend(a: seq<Word>, b: seq<Word>)
    ensures FlipSubkeys(a + b) == FlipSubkeys(a) + FlipSubkeys(b)
  {
  }

  lemma {:induction false} PairReverseFlip(keys: seq<Word>)
    requires |keys| % 2 == 0
    ensures PairReverse(FlipSubkeys(keys)) == FlipSubkeys(PairReverse(keys))
  {
    if keys != [] {
      PairReverseFlip(keys[2..]);
      FlipSubkeysAppend(PairReverse(keys[2..]), keys[..2]);
      assert FlipSubkeys(keys)[2..] == FlipSubkeys(keys[2..]);
      assert FlipSubkeys(keys)[..2] == FlipSubkeys(keys[..2]);
    }
  }

  // ---------------------------------------------------------------- whole blocks

  /** Every block of eight bytes through the block function. */
  function CryptBlocks(sb: SBoxes, keys: seq<Word>, data: seq<Byte>): (out: seq<Byte>)
    requires IsSchedule(keys) && |data| % 8 == 0
    ensures |out| == |data|
    decreases |data|
  {
    if data == [] then [] else CryptBlock(sb, keys, data[..8]) + CryptBlocks(sb, keys, data[8..])
  }

  lemma {:induction false} CryptBlocksAppend(sb: SBoxes, keys: seq<Word>, a: seq<Byte>, b: seq<Byte>)
    requires IsSchedule(keys) && |a| % 8 == 0 && |b| % 8 == 0
    ensures CryptBlocks(sb, keys, a + b) == CryptBlocks(sb, keys, a) + CryptBlocks(sb, keys, b)
    decreases |a|
  {
    hide CryptBlock;
    if a == [] {
      assert a + b == b;
    } else {
      var first, rest := CryptBlock(sb, keys, a[..8]), CryptBlocks(sb, keys, a[8..]);
      assert (a + b)[..8] == a[..8];
      assert (a + b)[8..] == a[8..] + b;
      CryptBlocksAppend(sb, keys, a[8..], b);
      assert first + (rest + CryptBlocks(sb, keys, b)) == first + rest + CryptBlocks(sb, keys, b);
    }
  }

  lemma {:induction false} CryptBlocksInverse(sb: SBoxes, keys: seq<Word>, data: seq<Byte>)
    requires IsSchedule(keys) && |data| % 8 == 0
    ensures CryptBlocks(sb, PairReverse(keys), CryptBlocks(sb, keys, data)) == data
    ensures CryptBlocks(sb, keys, CryptBlocks(sb, PairReverse(keys), data)) == data
    decreases |data|
  {
    hide CryptBlock, PairReverse;
    if data != [] {
      DecryptInvertsEncrypt(sb, keys, data[..8]);
      CryptBlocksInverse(sb, keys, data[8..]);
      var there := CryptBlocks(sb, keys, data);
      assert there[..8] == CryptBlock(sb, keys, data[..8]) && there[8..] == CryptBlocks(sb, keys, data[8..]);
      var back := CryptBlocks(sb, PairReverse(keys), data);
      assert back[..8] == CryptBlock(sb, PairReverse(keys), data[..8]);
      assert back[8..] == CryptBlocks(sb, PairReverse(keys), data[8..]);
    }
  }

  lemma {:induction false} CryptBlocksExact(sb: SBoxes, keys: seq<Word>, plain: seq<Byte>, cipher: seq<Byte>)
    requires IsSchedule(keys) && |plain| % 8 == 0 && |cipher| % 8 == 0
    ensures CryptBlocks(sb, PairReverse(keys), cipher) == plain <==> CryptBlocks(sb, keys, plain) == cipher
  {
    CryptBlocksInverse(sb, keys, cipher);
    CryptBlocksInverse(sb, keys, plain);
  }

  // ---------------------------------------------------------------- padding

  /** The bytes of the table PADDING: row n is n copies of the byte n. */
  function PadByte(n: nat): Byte
    requires 1 <= n <= 8
  {
    [Byte(1), Byte(2), Byte(3), Byte(4), Byte(5), Byte(6), Byte(7), Byte(8)][n - 1]
  }

  function Padding(n: nat): (row: seq<Byte>)
    requires 1 <= n <= 8
    ensures |row| == n
  {
    seq(n, i => PadByte(n))
  }

  /** The number a padding byte stands for, 0 when the code rejects it. */
  function PadLength(b: Byte): (n: nat)
    ensures n <= 8
    ensures n != 0 ==> b == PadByte(n)
    ensures forall k | 1 <= k <= 8 && b == PadByte(k) :: n == k
  {
    if b == Byte(1) then 1 else if b == Byte(2) then 2 else if b == Byte(3) then 3 else if b == Byte(4) then 4
    else if b == Byte(5) then 5 else if b == Byte(6) then 6 else if b == Byte(7) then 7 else if b == Byte(8) then 8
    else 0
  }

  /** Section 6.3 of RFC 5652 with block size 8: one to eight bytes are always added. */
  function Pad(message: seq<Byte>): (padded: seq<Byte>)
    ensures |padded| == 8 * (|message| / 8 + 1)
  {
    message + Padding(8 - |message| % 8)
  }

  /** Every padding byte holds the number of padding bytes, which completes a block and is never 0. */
  lemma PadNumbers(message: seq<Byte>)
    ensures var padded := Pad(message);
            && message <= padded && |message| < |padded| <= |message| + 8 && |padded| % 8 == 0
            && forall i :: |message| <= i < |padded| ==> padded[i].bits as int == |padded| - |message|
  {
    hide PadByte, PadLength;
    var n := 8 - |message| % 8;
    forall i | |message| <= i < |Pad(message)|
      ensures Pad(message)[i].bits as int == n
    {
      assert Pad(message)[i] == PadByte(n);
      PadValue(n);
    }
  }

  lemma PadValue(n: nat)
    requires 1 <= n <= 8
    ensures PadByte(n).bits as int == n
  {
  }

  function Unpad(padded: seq<Byte>): (message: Option<seq<Byte>>)
    requires |padded| >= 8
  {
    var n := PadLength(padded[|padded| - 1]);
    if n == 0 || padded[|padded| - n..] != Padding(n) then None else Some(padded[..|padded| - n])
  }

  /** Unpad accepts exactly the padded strings, and gives back what was padded. */
  lemma UnpadExact(padded: seq<Byte>, message: seq<Byte>)
    requires |padded| % 8 == 0 && |padded| > 0
    ensures Unpad(padded) == Some(message) <==> padded == Pad(message)
  {
    if padded == Pad(message) {
      var n := 8 - |message| % 8;
      assert padded[|padded| - 1] == PadByte(n);
    }
    var k := PadLength(padded[|padded| - 1]);
    if Unpad(padded) == Some(message) {
      assert padded == padded[..|padded| - k] + padded[|padded| - k..];
      assert 8 - |message| % 8 == k;
    }
  }

  // ---------------------------------------------------------------- the byte-level functions

  /** DesEncrypt and Des3Encrypt. */
  function Encrypt(sb: SBoxes, keys: seq<Word>, message: seq<Byte>): (cipher: seq<Byte>)
    requires IsSchedule(keys)
    ensures |cipher| == 8 * (|message| / 8 + 1)
  {
    CryptBlocks(sb, keys, Pad(message))
  }

  /** DesDecrypt and Des3Decrypt. */
  function Decrypt(sb: SBoxes, keys: seq<Word>, cipher: seq<Byte>): Option<seq<Byte>>
    requires IsSchedule(keys)
  {
    if |cipher| % 8 != 0 || cipher == [] then None else Unpad(CryptBlocks(sb, keys, cipher))
  }

  /**
    Padded encryption is a bijection from all messages onto the accepted ciphertexts: a ciphertext decrypts to a
    message exactly when the message encrypts to it.
   */
  lemma {:induction false} EncryptDecryptExact(sb: SBoxes, keys: seq<Word>, message: seq<Byte>, cipher: seq<Byte>)
    requires IsSchedule(keys)
    ensures Decrypt(sb, PairReverse(keys), cipher) == Some(message) <==> Encrypt(sb, keys, message) == cipher
  {
    hide CryptBlocks, Unpad, Pad, PairReverse;
    if |cipher| % 8 == 0 && cipher != [] {
      UnpadExact(CryptBlocks(sb, PairReverse(keys), cipher), message);
      CryptBlocksExact(sb, keys, Pad(message), cipher);
    }
  }
}
