/**
  MD5Transform of be/be_md5.cpp and section 3.4 of RFC 1321: the unrolled macro steps on four registers are the 64
  steps of the standard, in which the registers move on by one place each time.
 */
module Md5Transform {
  import opened DesWords

  /** The four registers. */
  datatype State = State(a: Word, b: Word, c: Word, d: Word)

  // ---------------------------------------------------------------- section 3.4 of RFC 1321

  /** Addition modulo 2^32. */
  function Plus(x: Word, y: Word): Word { Word(x.bits + y.bits) }

  function Sum(a: Word, f: Word, x: Word, t: Word): Word { Word(a.bits + f.bits + x.bits + t.bits) }

  function F(x: Word, y: Word, z: Word): Word { Word((x.bits & y.bits) | (!x.bits & z.bits)) }

  function G(x: Word, y: Word, z: Word): Word { Word((x.bits & z.bits) | (y.bits & !z.bits)) }

  function H(x: Word, y: Word, z: Word): Word { Word(x.bits ^ y.bits ^ z.bits) }

  function I(x: Word, y: Word, z: Word): Word { Word(y.bits ^ (x.bits | !z.bits)) }

  /** The function of the round that step `i` belongs to. */
  function Mix(i: nat, x: Word, y: Word, z: Word): Word {
    if i < 16 then F(x, y, z) else if i < 32 then G(x, y, z) else if i < 48 then H(x, y, z) else I(x, y, z)
  }

  /** The word of the block that step `i` takes. */
  function Index(i: nat): (k: nat)
    ensures k < 16
  {
    if i < 16 then i
    else if i < 32 then (1 + 5 * (i - 16)) % 16
    else if i < 48 then (5 + 3 * (i - 32)) % 16
    else (7 * (i - 48)) % 16
  }

  /** How far step `i` rotates. */
  function Turn(i: nat): (s: nat)
    ensures s <= 32
  {
    var row := if i < 16 then [7, 12, 17, 22] else if i < 32 then [5, 9, 14, 20]
               else if i < 48 then [4, 11, 16, 23] else [6, 10, 15, 21];
    row[i % 4]
  }

  /** The table T in round 1, counted from 0. */
  function T1(i: nat): Word {
    match i
    case 0 => Word(0xd76a_a478)
    case 1 => Word(0xe8c7_b756)
    case 2 => Word(0x2420_70db)
    case 3 => Word(0xc1bd_ceee)
    case 4 => Word(0xf57c_0faf)
    case 5 => Word(0x4787_c62a)
    case 6 => Word(0xa830_4613)
    case 7 => Word(0xfd46_9501)
    case 8 => Word(0x6980_98d8)
    case 9 => Word(0x8b44_f7af)
    case 10 => Word(0xffff_5bb1)
    case 11 => Word(0x895c_d7be)
    case 12 => Word(0x6b90_1122)
    case 13 => Word(0xfd98_7193)
    case 14 => Word(0xa679_438e)
    case _ => Word(0x49b4_0821)
  }

  /** The table T in round 2, counted from 0. */
  function T2(i: nat): Word {
    match i
    case 0 => Word(0xf61e_2562)
    case 1 => Word(0xc040_b340)
    case 2 => Word(0x265e_5a51)
    case 3 => Word(0xe9b6_c7aa)
    case 4 => Word(0xd62f_105d)
    case 5 => Word(0x0244_1453)
    case 6 => Word(0xd8a1_e681)
    case 7 => Word(0xe7d3_fbc8)
    case 8 => Word(0x21e1_cde6)
    case 9 => Word(0xc337_07d6)
    case 10 => Word(0xf4d5_0d87)
    case 11 => Word(0x455a_14ed)
    case 12 => Word(0xa9e3_e905)
    case 13 => Word(0xfcef_a3f8)
    case 14 => Word(0x676f_02d9)
    case _ => Word(0x8d2a_4c8a)
  }

  /** The table T in round 3, counted from 0. */
  function T3(i: nat): Word {
    match i
    case 0 => Word(0xfffa_3942)
    case 1 => Word(0x8771_f681)
    case 2 => Word(0x6d9d_6122)
    case 3 => Word(0xfde5_380c)
    case 4 => Word(0xa4be_ea44)
    case 5 => Word(0x4bde_cfa9)
    case 6 => Word(0xf6bb_4b60)
    case 7 => Word(0xbebf_bc70)
    case 8 => Word(0x289b_7ec6)
    case 9 => Word(0xeaa1_27fa)
    case 10 => Word(0xd4ef_3085)
    case 11 => Word(0x0488_1d05)
    case 12 => Word(0xd9d4_d039)
    case 13 => Word(0xe6db_99e5)
    case 14 => Word(0x1fa2_7cf8)
    case _ => Word(0xc4ac_5665)
  }

  /** The table T in round 4, counted from 0. */
  function T4(i: nat): Word {
    match i
    case 0 => Word(0xf429_2244)
    case 1 => Word(0x432a_ff97)
    case 2 => Word(0xab94_23a7)
    case 3 => Word(0xfc93_a039)
    case 4 => Word(0x655b_59c3)
    case 5 => Word(0x8f0c_cc92)
    case 6 => Word(0xffef_f47d)
    case 7 => Word(0x8584_5dd1)
    case 8 => Word(0x6fa8_7e4f)
    case 9 => Word(0xfe2c_e6e0)
    case 10 => Word(0xa301_4314)
    case 11 => Word(0x4e08_11a1)
    case 12 => Word(0xf753_7e82)
    case 13 => Word(0xbd3a_f235)
    case 14 => Word(0x2ad7_d2bb)
    case _ => Word(0xeb86_d391)
  }

  function T(i: nat): Word {
    if i < 16 then T1(i) else if i < 32 then T2(i - 16) else if i < 48 then T3(i - 32) else T4(i - 48)
  }

  /** The number x * up modulo 2^32, plus what is lost at the top by this: x / down. */
  function Turned(x: Word, up: bv32, down: bv32): Word
    requires down != 0
  {
    Word(x.bits * up + x.bits / down)
  }

  /** X <<< s for the sixteen s of the standard: up is 2^s, and down 2^(32 - s). */
  function Circular(x: Word, s: nat): Word {
    match s
    case 4 => Turned(x, 0x10, 0x1000_0000)
    case 5 => Turned(x, 0x20, 0x800_0000)
    case 6 => Turned(x, 0x40, 0x400_0000)
    case 7 => Turned(x, 0x80, 0x200_0000)
    case 9 => Turned(x, 0x200, 0x80_0000)
    case 10 => Turned(x, 0x400, 0x40_0000)
    case 11 => Turned(x, 0x800, 0x20_0000)
    case 12 => Turned(x, 0x1000, 0x10_0000)
    case 14 => Turned(x, 0x4000, 0x4_0000)
    case 15 => Turned(x, 0x8000, 0x2_0000)
    case 16 => Turned(x, 0x1_0000, 0x1_0000)
    case 17 => Turned(x, 0x2_0000, 0x8000)
    case 20 => Turned(x, 0x10_0000, 0x1000)
    case 21 => Turned(x, 0x20_0000, 0x800)
    case 22 => Turned(x, 0x40_0000, 0x400)
    case 23 => Turned(x, 0x80_0000, 0x200)
    case _ => x
  }

  /** Step `i` on the block `x`, after which the next register is in front. */
  function RfcStep(s: State, x: seq<Word>, i: nat): State
    requires |x| == 16 && i < 64
  {
    State(s.d, Plus(s.b, Circular(Sum(s.a, Mix(i, s.b, s.c, s.d), x[Index(i)], T(i)), Turn(i))), s.b, s.c)
  }

  function RfcSteps(s: State, x: seq<Word>, from: nat, to: nat): State
    requires |x| == 16 && from <= to <= 64
  {
    if from == to then s else RfcStep(RfcSteps(s, x, from, to - 1), x, to - 1)
  }

  /** The processing of one block. */
  function RfcTransform(s: State, x: seq<Word>): State
    requires |x| == 16
  {
    var r := RfcSteps(s, x, 0, 64);
    State(Plus(s.a, r.a), Plus(s.b, r.b), Plus(s.c, r.c), Plus(s.d, r.d))
  }

  // ---------------------------------------------------------------- the macros

  function F1(x: Word, y: Word, z: Word): Word { Word(z.bits ^ (x.bits & (y.bits ^ z.bits))) }

  function F2(x: Word, y: Word, z: Word): Word { F1(z, x, y) }

  function F3(x: Word, y: Word, z: Word): Word { Word(x.bits ^ y.bits ^ z.bits) }

  function F4(x: Word, y: Word, z: Word): Word { Word(y.bits ^ (x.bits | !z.bits)) }

  /** `w += f + data`, where the data is a sum itself. */
  function MacroSum(w: Word, f: Word, x: Word, t: Word): Word { Word(w.bits + (f.bits + (x.bits + t.bits))) }

  /** `w << s | w >> (32 - s)`. */
  function RotateLeft(x: Word, s: nat): Word
    requires s <= 32
  {
    Word((x.bits << s) | (x.bits >> (32 - s)))
  }

  /** `w += x`. */
  function Add(x: Word, y: Word): Word { Word(x.bits + y.bits) }

  /** MD5STEP: `f` is the value of its function, and `x` and `t` are the summands of its data. */
  function Md5Step(f: Word, w: Word, y: Word, x: Word, t: Word, s: nat): Word
    requires s <= 32
  {
    Add(RotateLeft(MacroSum(w, f, x, t), s), y)
  }

  /** The rewritten functions are those of the standard. */
  lemma {:induction false} MixRewritten(x: Word, y: Word, z: Word)
    ensures F1(x, y, z) == F(x, y, z) && F2(x, y, z) == G(x, y, z)
    ensures F3(x, y, z) == H(x, y, z) && F4(x, y, z) == I(x, y, z)
  {
    hide F, G, H, I, F1, F2, F3, F4;
    F1Rewritten(x, y, z);
    F2Rewritten(x, y, z);
    F34Same(x, y, z);
  }

  lemma F1Rewritten(x: Word, y: Word, z: Word)
    ensures F1(x, y, z) == F(x, y, z)
  {
    var a, b := F1(x, y, z), F(x, y, z);
    assert a.bits == b.bits;
  }

  lemma F2Rewritten(x: Word, y: Word, z: Word)
    ensures F2(x, y, z) == G(x, y, z)
  {
    var a, b := F2(x, y, z), G(x, y, z);
    assert a.bits == b.bits;
  }

  lemma F34Same(x: Word, y: Word, z: Word)
    ensures F3(x, y, z) == H(x, y, z) && F4(x, y, z) == I(x, y, z)
  {
  }

  lemma SumReordered(w: Word, f: Word, x: Word, t: Word)
    ensures MacroSum(w, f, x, t) == Sum(w, f, x, t)
  {
    var a, b := MacroSum(w, f, x, t), Sum(w, f, x, t);
    assert a.bits == b.bits;
  }

  lemma AddSwapped(x: Word, y: Word)
    ensures Add(x, y) == Plus(y, x)
  {
    var a, b := Add(x, y), Plus(y, x);
    assert a.bits == b.bits;
  }

  lemma Rotates4(x: Word)
    ensures RotateLeft(x, 4) == Turned(x, 0x10, 0x1000_0000)
  {
    var a, b := RotateLeft(x, 4), Turned(x, 0x10, 0x1000_0000);
    assert a.bits == b.bits;
  }

  lemma Rotates5(x: Word)
    ensures RotateLeft(x, 5) == Turned(x, 0x20, 0x800_0000)
  {
    var a, b := RotateLeft(x, 5), Turned(x, 0x20, 0x800_0000);
    assert a.bits == b.bits;
  }

  lemma Rotates6(x: Word)
    ensures RotateLeft(x, 6) == Turned(x, 0x40, 0x400_0000)
  {
    var a, b := RotateLeft(x, 6), Turned(x, 0x40, 0x400_0000);
    assert a.bits == b.bits;
  }

  lemma Rotates7(x: Word)
    ensures RotateLeft(x, 7) == Turned(x, 0x80, 0x200_0000)
  {
    var a, b := RotateLeft(x, 7), Turned(x, 0x80, 0x200_0000);
    assert a.bits == b.bits;
  }

  lemma Rotates9(x: Word)
    ensures RotateLeft(x, 9) == Turned(x, 0x200, 0x80_0000)
  {
    var a, b := RotateLeft(x, 9), Turned(x, 0x200, 0x80_0000);
    assert a.bits == b.bits;
  }

  lemma Rotates10(x: Word)
    ensures RotateLeft(x, 10) == Turned(x, 0x400, 0x40_0000)
  {
    var a, b := RotateLeft(x, 10), Turned(x, 0x400, 0x40_0000);
    assert a.bits == b.bits;
  }

  lemma Rotates11(x: Word)
    ensures RotateLeft(x, 11) == Turned(x, 0x800, 0x20_0000)
  {
    var a, b := RotateLeft(x, 11), Turned(x, 0x800, 0x20_0000);
    assert a.bits == b.bits;
  }

  lemma Rotates12(x: Word)
    ensures RotateLeft(x, 12) == Turned(x, 0x1000, 0x10_0000)
  {
    var a, b := RotateLeft(x, 12), Turned(x, 0x1000, 0x10_0000);
    assert a.bits == b.bits;
  }

  lemma Rotates14(x: Word)
    ensures RotateLeft(x, 14) == Turned(x, 0x4000, 0x4_0000)
  {
    var a, b := RotateLeft(x, 14), Turned(x, 0x4000, 0x4_0000);
    assert a.bits == b.bits;
  }

  lemma Rotates15(x: Word)
    ensures RotateLeft(x, 15) == Turned(x, 0x8000, 0x2_0000)
  {
    var a, b := RotateLeft(x, 15), Turned(x, 0x8000, 0x2_0000);
    assert a.bits == b.bits;
  }

  lemma Rotates16(x: Word)
    ensures RotateLeft(x, 16) == Turned(x, 0x1_0000, 0x1_0000)
  {
    var a, b := RotateLeft(x, 16), Turned(x, 0x1_0000, 0x1_0000);
    assert a.bits == b.bits;
  }

  lemma Rotates17(x: Word)
    ensures RotateLeft(x, 17) == Turned(x, 0x2_0000, 0x8000)
  {
    var a, b := RotateLeft(x, 17), Turned(x, 0x2_0000, 0x8000);
    assert a.bits == b.bits;
  }

  lemma Rotates20(x: Word)
    ensures RotateLeft(x, 20) == Turned(x, 0x10_0000, 0x1000)
  {
    var a, b := RotateLeft(x, 20), Turned(x, 0x10_0000, 0x1000);
    assert a.bits == b.bits;
  }

  lemma Rotates21(x: Word)
    ensures RotateLeft(x, 21) == Turned(x, 0x20_0000, 0x800)
  {
    var a, b := RotateLeft(x, 21), Turned(x, 0x20_0000, 0x800);
    assert a.bits == b.bits;
  }

  lemma Rotates22(x: Word)
    ensures RotateLeft(x, 22) == Turned(x, 0x40_0000, 0x400)
  {
    var a, b := RotateLeft(x, 22), Turned(x, 0x40_0000, 0x400);
    assert a.bits == b.bits;
  }

  lemma Rotates23(x: Word)
    ensures RotateLeft(x, 23) == Turned(x, 0x80_0000, 0x200)
  {
    var a, b := RotateLeft(x, 23), Turned(x, 0x80_0000, 0x200);
    assert a.bits == b.bits;
  }

  /** The shifts of the macro rotate to the left, by as many places as they say. */
  lemma RotateIsCircular(x: Word, i: nat)
    requires i < 64
    ensures RotateLeft(x, Turn(i)) == Circular(x, Turn(i))
  {
    hide RotateLeft, Turned;
    if i < 16 {
      Rotates7(x); Rotates12(x); Rotates17(x); Rotates22(x);
    } else if i < 32 {
      Rotates5(x); Rotates9(x); Rotates14(x); Rotates20(x);
    } else if i < 48 {
      Rotates4(x); Rotates11(x); Rotates16(x); Rotates23(x);
    } else {
      Rotates6(x); Rotates10(x); Rotates15(x); Rotates21(x);
    }
  }

  /** One macro step assigns the register that one step of the standard computes. */
  lemma {:induction false} StepIsRfc(s: State, x: seq<Word>, i: nat)
    requires |x| == 16 && i < 64
    ensures RfcStep(s, x, i) ==
              State(s.d, Md5Step(Mix(i, s.b, s.c, s.d), s.a, s.b, x[Index(i)], T(i), Turn(i)), s.b, s.c)
  {
    hide Add, Plus, Sum, MacroSum, RotateLeft, Circular, Mix, Index, T;
    var f := Mix(i, s.b, s.c, s.d);
    SumReordered(s.a, f, x[Index(i)], T(i));
    RotateIsCircular(Sum(s.a, f, x[Index(i)], T(i)), i);
    AddSwapped(RotateLeft(Sum(s.a, f, x[Index(i)], T(i)), Turn(i)), s.b);
  }

  /** Four steps in a row assign a, d, c, b. */
  lemma {:induction false} FourSteps(s0: State, x: seq<Word>, i: nat)
    requires |x| == 16 && i + 4 <= 64
    ensures var s := RfcSteps(s0, x, 0, i);
            var a := Md5Step(Mix(i, s.b, s.c, s.d), s.a, s.b, x[Index(i)], T(i), Turn(i));
            var d := Md5Step(Mix(i + 1, a, s.b, s.c), s.d, a, x[Index(i + 1)], T(i + 1), Turn(i + 1));
            var c := Md5Step(Mix(i + 2, d, a, s.b), s.c, d, x[Index(i + 2)], T(i + 2), Turn(i + 2));
            var b := Md5Step(Mix(i + 3, c, d, a), s.b, c, x[Index(i + 3)], T(i + 3), Turn(i + 3));
            RfcSteps(s0, x, 0, i + 4) == State(a, b, c, d)
  {
    hide RfcStep, RfcSteps, Md5Step, Mix, Index, T, Turn;
    var s := RfcSteps(s0, x, 0, i);
    NextStep(s0, x, i);
    StepIsRfc(s, x, i);
    var s1 := RfcStep(s, x, i);
    NextStep(s0, x, i + 1);
    StepIsRfc(s1, x, i + 1);
    var s2 := RfcStep(s1, x, i + 1);
    NextStep(s0, x, i + 2);
    StepIsRfc(s2, x, i + 2);
    var s3 := RfcStep(s2, x, i + 2);
    NextStep(s0, x, i + 3);
    StepIsRfc(s3, x, i + 3);
  }

  lemma NextStep(s: State, x: seq<Word>, i: nat)
    requires |x| == 16 && i < 64
    ensures RfcSteps(s, x, 0, i + 1) == RfcStep(RfcSteps(s, x, 0, i), x, i)
  {
  }

  lemma Round1Table()
    ensures Index(0) == 0 && T(0) == Word(0xd76a_a478) && Turn(0) == 7
    ensures Index(1) == 1 && T(1) == Word(0xe8c7_b756) && Turn(1) == 12
    ensures Index(2) == 2 && T(2) == Word(0x2420_70db) && Turn(2) == 17
    ensures Index(3) == 3 && T(3) == Word(0xc1bd_ceee) && Turn(3) == 22
    ensures Index(4) == 4 && T(4) == Word(0xf57c_0faf) && Turn(4) == 7
    ensures Index(5) == 5 && T(5) == Word(0x4787_c62a) && Turn(5) == 12
    ensures Index(6) == 6 && T(6) == Word(0xa830_4613) && Turn(6) == 17
    ensures Index(7) == 7 && T(7) == Word(0xfd46_9501) && Turn(7) == 22
    ensures Index(8) == 8 && T(8) == Word(0x6980_98d8) && Turn(8) == 7
    ensures Index(9) == 9 && T(9) == Word(0x8b44_f7af) && Turn(9) == 12
    ensures Index(10) == 10 && T(10) == Word(0xffff_5bb1) && Turn(10) == 17
    ensures Index(11) == 11 && T(11) == Word(0x895c_d7be) && Turn(11) == 22
    ensures Index(12) == 12 && T(12) == Word(0x6b90_1122) && Turn(12) == 7
    ensures Index(13) == 13 && T(13) == Word(0xfd98_7193) && Turn(13) == 12
    ensures Index(14) == 14 && T(14) == Word(0xa679_438e) && Turn(14) == 17
    ensures Index(15) == 15 && T(15) == Word(0x49b4_0821) && Turn(15) == 22
  {
  }

  lemma Round2Table()
    ensures Index(16) == 1 && T(16) == Word(0xf61e_2562) && Turn(16) == 5
    ensures Index(17) == 6 && T(17) == Word(0xc040_b340) && Turn(17) == 9
    ensures Index(18) == 11 && T(18) == Word(0x265e_5a51) && Turn(18) == 14
    ensures Index(19) == 0 && T(19) == Word(0xe9b6_c7aa) && Turn(19) == 20
    ensures Index(20) == 5 && T(20) == Word(0xd62f_105d) && Turn(20) == 5
    ensures Index(21) == 10 && T(21) == Word(0x0244_1453) && Turn(21) == 9
    ensures Index(22) == 15 && T(22) == Word(0xd8a1_e681) && Turn(22) == 14
    ensures Index(23) == 4 && T(23) == Word(0xe7d3_fbc8) && Turn(23) == 20
    ensures Index(24) == 9 && T(24) == Word(0x21e1_cde6) && Turn(24) == 5
    ensures Index(25) == 14 && T(25) == Word(0xc337_07d6) && Turn(25) == 9
    ensures Index(26) == 3 && T(26) == Word(0xf4d5_0d87) && Turn(26) == 14
    ensures Index(27) == 8 && T(27) == Word(0x455a_14ed) && Turn(27) == 20
    ensures Index(28) == 13 && T(28) == Word(0xa9e3_e905) && Turn(28) == 5
    ensures Index(29) == 2 && T(29) == Word(0xfcef_a3f8) && Turn(29) == 9
    ensures Index(30) == 7 && T(30) == Word(0x676f_02d9) && Turn(30) == 14
    ensures Index(31) == 12 && T(31) == Word(0x8d2a_4c8a) && Turn(31) == 20
  {
  }

  lemma Round3Table()
    ensures Index(32) == 5 && T(32) == Word(0xfffa_3942) && Turn(32) == 4
    ensures Index(33) == 8 && T(33) == Word(0x8771_f681) && Turn(33) == 11
    ensures Index(34) == 11 && T(34) == Word(0x6d9d_6122) && Turn(34) == 16
    ensures Index(35) == 14 && T(35) == Word(0xfde5_380c) && Turn(35) == 23
    ensures Index(36) == 1 && T(36) == Word(0xa4be_ea44) && Turn(36) == 4
    ensures Index(37) == 4 && T(37) == Word(0x4bde_cfa9) && Turn(37) == 11
    ensures Index(38) == 7 && T(38) == Word(0xf6bb_4b60) && Turn(38) == 16
    ensures Index(39) == 10 && T(39) == Word(0xbebf_bc70) && Turn(39) == 23
    ensures Index(40) == 13 && T(40) == Word(0x289b_7ec6) && Turn(40) == 4
    ensures Index(41) == 0 && T(41) == Word(0xeaa1_27fa) && Turn(41) == 11
    ensures Index(42) == 3 && T(42) == Word(0xd4ef_3085) && Turn(42) == 16
    ensures Index(43) == 6 && T(43) == Word(0x0488_1d05) && Turn(43) == 23
    ensures Index(44) == 9 && T(44) == Word(0xd9d4_d039) && Turn(44) == 4
    ensures Index(45) == 12 && T(45) == Word(0xe6db_99e5) && Turn(45) == 11
    ensures Index(46) == 15 && T(46) == Word(0x1fa2_7cf8) && Turn(46) == 16
    ensures Index(47) == 2 && T(47) == Word(0xc4ac_5665) && Turn(47) == 23
  {
  }

  lemma Round4Table()
    ensures Index(48) == 0 && T(48) == Word(0xf429_2244) && Turn(48) == 6
    ensures Index(49) == 7 && T(49) == Word(0x432a_ff97) && Turn(49) == 10
    ensures Index(50) == 14 && T(50) == Word(0xab94_23a7) && Turn(50) == 15
    ensures Index(51) == 5 && T(51) == Word(0xfc93_a039) && Turn(51) == 21
    ensures Index(52) == 12 && T(52) == Word(0x655b_59c3) && Turn(52) == 6
    ensures Index(53) == 3 && T(53) == Word(0x8f0c_cc92) && Turn(53) == 10
    ensures Index(54) == 10 && T(54) == Word(0xffef_f47d) && Turn(54) == 15
    ensures Index(55) == 1 && T(55) == Word(0x8584_5dd1) && Turn(55) == 21
    ensures Index(56) == 8 && T(56) == Word(0x6fa8_7e4f) && Turn(56) == 6
    ensures Index(57) == 15 && T(57) == Word(0xfe2c_e6e0) && Turn(57) == 10
    ensures Index(58) == 6 && T(58) == Word(0xa301_4314) && Turn(58) == 15
    ensures Index(59) == 13 && T(59) == Word(0x4e08_11a1) && Turn(59) == 21
    ensures Index(60) == 4 && T(60) == Word(0xf753_7e82) && Turn(60) == 6
    ensures Index(61) == 11 && T(61) == Word(0xbd3a_f235) && Turn(61) == 10
    ensures Index(62) == 2 && T(62) == Word(0x2ad7_d2bb) && Turn(62) == 15
    ensures Index(63) == 9 && T(63) == Word(0xeb86_d391) && Turn(63) == 21
  {
  }

  method Round1(s: State, x: seq<Word>, ghost s0: State) returns (a: Word, b: Word, c: Word, d: Word)
    requires |x| == 16 && s == RfcSteps(s0, x, 0, 0)
    ensures State(a, b, c, d) == RfcSteps(s0, x, 0, 16)
  {
    hide Md5Step, RfcSteps, T, Turn, Index, F, G, H, I, F1, F2, F3, F4;
    a, b, c, d := s.a, s.b, s.c, s.d;
    FourSteps(s0, x, 0);
    Round1Table();
    MixRewritten(b, c, d);
    a := Md5Step(F1(b, c, d), a, b, x[0], Word(0xd76a_a478), 7);
    MixRewritten(a, b, c);
    d := Md5Step(F1(a, b, c), d, a, x[1], Word(0xe8c7_b756), 12);
    MixRewritten(d, a, b);
    c := Md5Step(F1(d, a, b), c, d, x[2], Word(0x2420_70db), 17);
    MixRewritten(c, d, a);
    b := Md5Step(F1(c, d, a), b, c, x[3], Word(0xc1bd_ceee), 22);
    FourSteps(s0, x, 4);
    MixRewritten(b, c, d);
    a := Md5Step(F1(b, c, d), a, b, x[4], Word(0xf57c_0faf), 7);
    MixRewritten(a, b, c);
    d := Md5Step(F1(a, b, c), d, a, x[5], Word(0x4787_c62a), 12);
    MixRewritten(d, a, b);
    c := Md5Step(F1(d, a, b), c, d, x[6], Word(0xa830_4613), 17);
    MixRewritten(c, d, a);
    b := Md5Step(F1(c, d, a), b, c, x[7], Word(0xfd46_9501), 22);
    FourSteps(s0, x, 8);
    MixRewritten(b, c, d);
    a := Md5Step(F1(b, c, d), a, b, x[8], Word(0x6980_98d8), 7);
    MixRewritten(a, b, c);
    d := Md5Step(F1(a, b, c), d, a, x[9], Word(0x8b44_f7af), 12);
    MixRewritten(d, a, b);
    c := Md5Step(F1(d, a, b), c, d, x[10], Word(0xffff_5bb1), 17);
    MixRewritten(c, d, a);
    b := Md5Step(F1(c, d, a), b, c, x[11], Word(0x895c_d7be), 22);
    FourSteps(s0, x, 12);
    MixRewritten(b, c, d);
    a := Md5Step(F1(b, c, d), a, b, x[12], Word(0x6b90_1122), 7);
    MixRewritten(a, b, c);
    d := Md5Step(F1(a, b, c), d, a, x[13], Word(0xfd98_7193), 12);
    MixRewritten(d, a, b);
    c := Md5Step(F1(d, a, b), c, d, x[14], Word(0xa679_438e), 17);
    MixRewritten(c, d, a);
    b := Md5Step(F1(c, d, a), b, c, x[15], Word(0x49b4_0821), 22);
  }

  method Round2(s: State, x: seq<Word>, ghost s0: State) returns (a: Word, b: Word, c: Word, d: Word)
    requires |x| == 16 && s == RfcSteps(s0, x, 0, 16)
    ensures State(a, b, c, d) == RfcSteps(s0, x, 0, 32)
  {
    hide Md5Step, RfcSteps, T, Turn, Index, F, G, H, I, F1, F2, F3, F4;
    a, b, c, d := s.a, s.b, s.c, s.d;
    FourSteps(s0, x, 16);
    Round2Table();
    MixRewritten(b, c, d);
    a := Md5Step(F2(b, c, d), a, b, x[1], Word(0xf61e_2562), 5);
    MixRewritten(a, b, c);
    d := Md5Step(F2(a, b, c), d, a, x[6], Word(0xc040_b340), 9);
    MixRewritten(d, a, b);
    c := Md5Step(F2(d, a, b), c, d, x[11], Word(0x265e_5a51), 14);
    MixRewritten(c, d, a);
    b := Md5Step(F2(c, d, a), b, c, x[0], Word(0xe9b6_c7aa), 20);
    FourSteps(s0, x, 20);
    MixRewritten(b, c, d);
    a := Md5Step(F2(b, c, d), a, b, x[5], Word(0xd62f_105d), 5);
    MixRewritten(a, b, c);
    d := Md5Step(F2(a, b, c), d, a, x[10], Word(0x0244_1453), 9);
    MixRewritten(d, a, b);
    c := Md5Step(F2(d, a, b), c, d, x[15], Word(0xd8a1_e681), 14);
    MixRewritten(c, d, a);
    b := Md5Step(F2(c, d, a), b, c, x[4], Word(0xe7d3_fbc8), 20);
    FourSteps(s0, x, 24);
    MixRewritten(b, c, d);
    a := Md5Step(F2(b, c, d), a, b, x[9], Word(0x21e1_cde6), 5);
    MixRewritten(a, b, c);
    d := Md5Step(F2(a, b, c), d, a, x[14], Word(0xc337_07d6), 9);
    MixRewritten(d, a, b);
    c := Md5Step(F2(d, a, b), c, d, x[3], Word(0xf4d5_0d87), 14);
    MixRewritten(c, d, a);
    b := Md5Step(F2(c, d, a), b, c, x[8], Word(0x455a_14ed), 20);
    FourSteps(s0, x, 28);
    MixRewritten(b, c, d);
    a := Md5Step(F2(b, c, d), a, b, x[13], Word(0xa9e3_e905), 5);
    MixRewritten(a, b, c);
    d := Md5Step(F2(a, b, c), d, a, x[2], Word(0xfcef_a3f8), 9);
    MixRewritten(d, a, b);
    c := Md5Step(F2(d, a, b), c, d, x[7], Word(0x676f_02d9), 14);
    MixRewritten(c, d, a);
    b := Md5Step(F2(c, d, a), b, c, x[12], Word(0x8d2a_4c8a), 20);
  }

  method Round3(s: State, x: seq<Word>, ghost s0: State) returns (a: Word, b: Word, c: Word, d: Word)
    requires |x| == 16 && s == RfcSteps(s0, x, 0, 32)
    ensures State(a, b, c, d) == RfcSteps(s0, x, 0, 48)
  {
    hide Md5Step, RfcSteps, T, Turn, Index, F, G, H, I, F1, F2, F3, F4;
    a, b, c, d := s.a, s.b, s.c, s.d;
    FourSteps(s0, x, 32);
    Round3Table();
    MixRewritten(b, c, d);
    a := Md5Step(F3(b, c, d), a, b, x[5], Word(0xfffa_3942), 4);
    MixRewritten(a, b, c);
    d := Md5Step(F3(a, b, c), d, a, x[8], Word(0x8771_f681), 11);
    MixRewritten(d, a, b);
    c := Md5Step(F3(d, a, b), c, d, x[11], Word(0x6d9d_6122), 16);
    MixRewritten(c, d, a);
    b := Md5Step(F3(c, d, a), b, c, x[14], Word(0xfde5_380c), 23);
    FourSteps(s0, x, 36);
    MixRewritten(b, c, d);
    a := Md5Step(F3(b, c, d), a, b, x[1], Word(0xa4be_ea44), 4);
    MixRewritten(a, b, c);
    d := Md5Step(F3(a, b, c), d, a, x[4], Word(0x4bde_cfa9), 11);
    MixRewritten(d, a, b);
    c := Md5Step(F3(d, a, b), c, d, x[7], Word(0xf6bb_4b60), 16);
    MixRewritten(c, d, a);
    b := Md5Step(F3(c, d, a), b, c, x[10], Word(0xbebf_bc70), 23);
    FourSteps(s0, x, 40);
    MixRewritten(b, c, d);
    a := Md5Step(F3(b, c, d), a, b, x[13], Word(0x289b_7ec6), 4);
    MixRewritten(a, b, c);
    d := Md5Step(F3(a, b, c), d, a, x[0], Word(0xeaa1_27fa), 11);
    MixRewritten(d, a, b);
    c := Md5Step(F3(d, a, b), c, d, x[3], Word(0xd4ef_3085), 16);
    MixRewritten(c, d, a);
    b := Md5Step(F3(c, d, a), b, c, x[6], Word(0x0488_1d05), 23);
    FourSteps(s0, x, 44);
    MixRewritten(b, c, d);
    a := Md5Step(F3(b, c, d), a, b, x[9], Word(0xd9d4_d039), 4);
    MixRewritten(a, b, c);
    d := Md5Step(F3(a, b, c), d, a, x[12], Word(0xe6db_99e5), 11);
    MixRewritten(d, a, b);
    c := Md5Step(F3(d, a, b), c, d, x[15], Word(0x1fa2_7cf8), 16);
    MixRewritten(c, d, a);
    b := Md5Step(F3(c, d, a), b, c, x[2], Word(0xc4ac_5665), 23);
  }

  method Round4(s: State, x: seq<Word>, ghost s0: State) returns (a: Word, b: Word, c: Word, d: Word)
    requires |x| == 16 && s == RfcSteps(s0, x, 0, 48)
    ensures State(a, b, c, d) == RfcSteps(s0, x, 0, 64)
  {
    hide Md5Step, RfcSteps, T, Turn, Index, F, G, H, I, F1, F2, F3, F4;
    a, b, c, d := s.a, s.b, s.c, s.d;
    FourSteps(s0, x, 48);
    Round4Table();
    MixRewritten(b, c, d);
    a := Md5Step(F4(b, c, d), a, b, x[0], Word(0xf429_2244), 6);
    MixRewritten(a, b, c);
    d := Md5Step(F4(a, b, c), d, a, x[7], Word(0x432a_ff97), 10);
    MixRewritten(d, a, b);
    c := Md5Step(F4(d, a, b), c, d, x[14], Word(0xab94_23a7), 15);
    MixRewritten(c, d, a);
    b := Md5Step(F4(c, d, a), b, c, x[5], Word(0xfc93_a039), 21);
    FourSteps(s0, x, 52);
    MixRewritten(b, c, d);
    a := Md5Step(F4(b, c, d), a, b, x[12], Word(0x655b_59c3), 6);
    MixRewritten(a, b, c);
    d := Md5Step(F4(a, b, c), d, a, x[3], Word(0x8f0c_cc92), 10);
    MixRewritten(d, a, b);
    c := Md5Step(F4(d, a, b), c, d, x[10], Word(0xffef_f47d), 15);
    MixRewritten(c, d, a);
    b := Md5Step(F4(c, d, a), b, c, x[1], Word(0x8584_5dd1), 21);
    FourSteps(s0, x, 56);
    MixRewritten(b, c, d);
    a := Md5Step(F4(b, c, d), a, b, x[8], Word(0x6fa8_7e4f), 6);
    MixRewritten(a, b, c);
    d := Md5Step(F4(a, b, c), d, a, x[15], Word(0xfe2c_e6e0), 10);
    MixRewritten(d, a, b);
    c := Md5Step(F4(d, a, b), c, d, x[6], Word(0xa301_4314), 15);
    MixRewritten(c, d, a);
    b := Md5Step(F4(c, d, a), b, c, x[13], Word(0x4e08_11a1), 21);
    FourSteps(s0, x, 60);
    MixRewritten(b, c, d);
    a := Md5Step(F4(b, c, d), a, b, x[4], Word(0xf753_7e82), 6);
    MixRewritten(a, b, c);
    d := Md5Step(F4(a, b, c), d, a, x[11], Word(0xbd3a_f235), 10);
    MixRewritten(d, a, b);
    c := Md5Step(F4(d, a, b), c, d, x[2], Word(0x2ad7_d2bb), 15);
    MixRewritten(c, d, a);
    b := Md5Step(F4(c, d, a), b, c, x[9], Word(0xeb86_d391), 21);
  }

  /** MD5Transform on the buffer of a context. */
  method Transform(buf: array<Word>, x: seq<Word>)
    requires buf.Length == 4 && |x| == 16
    modifies buf
    ensures State(buf[0], buf[1], buf[2], buf[3]) == RfcTransform(old(State(buf[0], buf[1], buf[2], buf[3])), x)
  {
    hide RfcSteps, Add, Plus;
    ghost var s0 := State(buf[0], buf[1], buf[2], buf[3]);
    NoSteps(s0, x);
    var a, b, c, d := Round1(State(buf[0], buf[1], buf[2], buf[3]), x, s0);
    a, b, c, d := Round2(State(a, b, c, d), x, s0);
    a, b, c, d := Round3(State(a, b, c, d), x, s0);
    a, b, c, d := Round4(State(a, b, c, d), x, s0);
    AddIsPlus(s0, State(a, b, c, d));
    buf[0] := Add(buf[0], a);
    buf[1] := Add(buf[1], b);
    buf[2] := Add(buf[2], c);
    buf[3] := Add(buf[3], d);
  }

  lemma AddIsPlus(s: State, r: State)
    ensures Add(s.a, r.a) == Plus(s.a, r.a) && Add(s.b, r.b) == Plus(s.b, r.b)
    ensures Add(s.c, r.c) == Plus(s.c, r.c) && Add(s.d, r.d) == Plus(s.d, r.d)
  {
  }

  lemma NoSteps(s: State, x: seq<Word>)
    requires |x| == 16
    ensures RfcSteps(s, x, 0, 0) == s
  {
  }
}
