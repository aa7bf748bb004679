/**
  base64_encode and base64_decode of elog/base64.cpp against section 4 of RFC 4648. Masks and shifts of bytes are
  written as remainders and quotients.
 */
module Base64 {
  import opened Arithmetic
  import opened Octets

  type digit = x: int | 0 <= x < 64

  const EQUALS: byte := 61

  // ---------------------------------------------------------------- the tables

  /** The table ch64. */
  function Ch64(v: digit): byte {
    if v < 26 then 65 + v
    else if v < 52 then 97 + (v - 26)
    else if v < 62 then 48 + (v - 52)
    else if v == 62 then 43
    else 47
  }

  /** The table b64_reverse_table. */
  function Reverse(c: byte): int {
    if 65 <= c <= 90 then c - 65
    else if 97 <= c <= 122 then c - 97 + 26
    else if 48 <= c <= 57 then c - 48 + 52
    else if c == 43 then 62
    else if c == 47 then 63
    else -1
  }

  /** The tables belong together, and everything outside the alphabet is marked. */
  lemma TablesInverse(v: digit, c: byte)
    ensures Reverse(Ch64(v)) == v && Ch64(v) != EQUALS
    ensures -1 <= Reverse(c) < 64 && (Reverse(c) >= 0 ==> Ch64(Reverse(c)) == c)
  {
  }

  // ---------------------------------------------------------------- section 4 of RFC 4648

  /** Table 1, in rows of sixteen values. */
  function Letter(v: digit): char {
    if v < 16 then "ABCDEFGHIJKLMNOP"[v]
    else if v < 32 then "QRSTUVWXYZabcdef"[v - 16]
    else if v < 48 then "ghijklmnopqrstuv"[v - 32]
    else "wxyz0123456789+/"[v - 48]
  }

  /** The table of the encoder is the alphabet. */
  lemma Alphabet(v: digit)
    ensures Ch64(v) == Letter(v) as int
  {
  }

  predicate InAlphabet(c: byte) { exists v: digit :: Letter(v) as int == c }

  /** The table of the decoder marks exactly the characters outside the alphabet. */
  lemma OutsideAlphabet(c: byte)
    ensures Reverse(c) < 0 <==> !InAlphabet(c)
  {
    hide Ch64, Reverse;
    if Reverse(c) >= 0 {
      TablesInverse(0, c);
      Alphabet(Reverse(c));
      assert Letter(Reverse(c)) as int == c;
    }
    if v: digit :| Letter(v) as int == c {
      Alphabet(v);
      TablesInverse(v, c);
    }
  }

  /** Three bytes as a group of 24 bits, the first byte in front. */
  function Bits(x: nat, y: nat, z: nat): nat { x * 0x1_0000 + y * 0x100 + z }

  /** Digit `i` of the four digits of 6 bits that a group holds. */
  function Sextet(v: nat, i: nat): digit
    requires i < 4
  {
    if i == 0 then v / 0x4_0000 % 64 else if i == 1 then v / 0x1000 % 64 else if i == 2 then v / 64 % 64 else v % 64
  }

  /** The first characters of a group, padded to four. */
  function Group(v: nat, chars: nat): (s: seq<byte>)
    requires 2 <= chars <= 4
    ensures |s| == 4
  {
    [Ch64(Sextet(v, 0)), Ch64(Sextet(v, 1)), if chars > 2 then Ch64(Sextet(v, 2)) else EQUALS,
     if chars > 3 then Ch64(Sextet(v, 3)) else EQUALS]
  }

  /** Whole groups of three bytes, then one or two bytes filled up with zero bits. */
  function Encode(s: seq<byte>): seq<byte>
    decreases |s|
  {
    if s == [] then []
    else if |s| == 1 then Group(Bits(s[0], 0, 0), 2)
    else if |s| == 2 then Group(Bits(s[0], s[1], 0), 3)
    else Group(Bits(s[0], s[1], s[2]), 4) + Encode(s[3..])
  }

  /** Four characters for every three bytes begun. */
  lemma {:induction false} EncodeLength(s: seq<byte>)
    ensures |Encode(s)| == (|s| + 2) / 3 * 4
    decreases |s|
  {
    hide Group;
    if |s| >= 3 {
      EncodeLength(s[3..]);
      GroupLength(Bits(s[0], s[1], s[2]), 4);
      assert (|s| + 2) / 3 == (|s[3..]| + 2) / 3 + 1;
    } else if |s| == 2 {
      GroupLength(Bits(s[0], s[1], 0), 3);
    } else if |s| == 1 {
      GroupLength(Bits(s[0], 0, 0), 2);
    }
  }

  lemma GroupLength(v: nat, chars: nat)
    requires 2 <= chars <= 4
    ensures |Group(v, chars)| == 4
  {
  }

  /** Whole groups are encoded apart from what follows. */
  lemma {:induction false} EncodeAppend(a: seq<byte>, b: seq<byte>)
    requires |a| % 3 == 0
    ensures Encode(a + b) == Encode(a) + Encode(b)
    decreases |a|
  {
    hide Group;
    if a == [] {
      assert a + b == b;
    } else {
      assert (a + b)[3..] == a[3..] + b;
      EncodeAppend(a[3..], b);
      assert (a + b)[0] == a[0] && (a + b)[1] == a[1] && (a + b)[2] == a[2];
      var group := Group(Bits(a[0], a[1], a[2]), 4);
      assert group + (Encode(a[3..]) + Encode(b)) == group + Encode(a[3..]) + Encode(b);
    }
  }

  // ---------------------------------------------------------------- the digits of the encoder

  function Digit0(x: byte): digit { x / 4 }

  function Digit1(x: byte, y: byte): digit { x % 4 * 16 + y / 16 }

  function Digit2(y: byte, z: byte): digit { y % 16 * 4 + z / 64 }

  function Digit3(z: byte): digit { z % 64 }

  /** They are those of the group. */
  lemma {:induction false} DigitsOfGroup(x: byte, y: byte, z: byte)
    ensures var v := Bits(x, y, z);
            Sextet(v, 0) == Digit0(x) && Sextet(v, 1) == Digit1(x, y) && Sextet(v, 2) == Digit2(y, z)
            && Sextet(v, 3) == Digit3(z)
  {
    var v: nat, d0: nat, d1: nat, d2: nat, d3: nat := Bits(x, y, z), Digit0(x), Digit1(x, y), Digit2(y, z), Digit3(z);
    assert v == d0 * 0x4_0000 + d1 * 0x1000 + d2 * 64 + d3;
    Places(v, d0, d1, d2, d3);
  }

  lemma {:induction false} Places(v: nat, d0: nat, d1: nat, d2: nat, d3: nat)
    requires d0 < 64 && d1 < 64 && d2 < 64 && d3 < 64 && v == d0 * 0x4_0000 + d1 * 0x1000 + d2 * 64 + d3
    ensures v / 0x4_0000 % 64 == d0 && v / 0x1000 % 64 == d1 && v / 64 % 64 == d2 && v % 64 == d3
  {
    Quotient(v, 64, d0 * 0x1000 + d1 * 64 + d2, d3);
    Quotient(v / 64, 64, d0 * 64 + d1, d2);
    Quotient(v, 0x1000, d0 * 64 + d1, d2 * 64 + d3);
    Quotient(v / 0x1000, 64, d0, d1);
    Quotient(v, 0x4_0000, d0, d1 * 0x1000 + d2 * 64 + d3);
    Quotient(d0, 64, 0, d0);
  }

  lemma {:induction false} EncodeThree(s: seq<byte>, x: byte, y: byte, z: byte)
    requires |s| % 3 == 0
    ensures Encode(s + [x, y, z])
         == Encode(s) + [Ch64(Digit0(x)), Ch64(Digit1(x, y)), Ch64(Digit2(y, z)), Ch64(Digit3(z))]
  {
    hide Ch64, Sextet, Bits, Digit0, Digit1, Digit2, Digit3;
    EncodeAppend(s, [x, y, z]);
    DigitsOfGroup(x, y, z);
    assert [x, y, z][3..] == [] && Encode([]) == [];
  }

  lemma {:induction false} EncodeRest(s: seq<byte>)
    requires 1 <= |s| <= 2
    ensures |s| == 1 ==> Encode(s) == [Ch64(Digit0(s[0])), Ch64(Digit1(s[0], 0)), EQUALS, EQUALS]
    ensures |s| == 2 ==> Encode(s) == [Ch64(Digit0(s[0])), Ch64(Digit1(s[0], s[1])), Ch64(Digit2(s[1], 0)), EQUALS]
  {
    hide Ch64, Sextet, Bits, Digit0, Digit1, Digit2, Digit3;
    DigitsOfGroup(s[0], if |s| == 1 then 0 else s[1], 0);
  }

  // ---------------------------------------------------------------- the encoder

  method Base64Encode(s: seq<byte>) returns (ret: array<byte>)
    ensures fresh(ret) && ret[..] == Encode(s)
  {
    hide Encode;
    var n := |s|;
    var buflen := n;
    if n % 3 != 0 {
      buflen := n + 3 - n % 3;
    }
    ghost var total := GroupsBegun(n, buflen);
    ret := new byte[buflen * 4 / 3](k => 0);
    var i, dst := 0, 0;
    ghost var groups := 0;
    EncodeNothing();
    assert s[..0] == [] && ret[..0] == [];
    while i <= n - 3
      invariant i == 3 * groups <= n && dst == 4 * groups && ret.Length == 4 * total
      invariant fresh(ret) && ret[..dst] == Encode(s[..i])
    {
      PutGroup(ret, dst, s, i);
      i, dst, groups := i + 3, dst + 4, groups + 1;
    }
    PutEnd(ret, dst, s, i);
  }

  /** The length of the result is four times the number of groups begun. */
  lemma GroupsBegun(n: nat, buflen: nat) returns (total: nat)
    requires buflen == if n % 3 != 0 then n + 3 - n % 3 else n
    ensures 3 * total - 3 < n <= 3 * total && buflen * 4 / 3 == 4 * total
  {
    total := buflen / 3;
    assert buflen == 3 * total;
    Quotient(buflen * 4, 3, 4 * total, 0);
  }

  /** Three bytes as four digits. */
  method PutGroup(ret: array<byte>, dst: nat, s: seq<byte>, i: nat)
    requires i % 3 == 0 && i + 3 <= |s| && dst + 4 <= ret.Length && ret[..dst] == Encode(s[..i])
    modifies ret
    ensures ret[..dst + 4] == Encode(s[..i + 3])
  {
    hide Encode, Ch64, Digit0, Digit1, Digit2, Digit3;
    var x, y, z := s[i], s[i + 1], s[i + 2];
    EncodeThree(s[..i], x, y, z);
    assert s[..i] + [x, y, z] == s[..i + 3];
    PutFour(ret, dst, Ch64(Digit0(x)), Ch64(Digit1(x, y)), Ch64(Digit2(y, z)), Ch64(Digit3(z)));
  }

  /** What the loop has left. */
  method PutEnd(ret: array<byte>, dst: nat, s: seq<byte>, i: nat)
    requires i % 3 == 0 && i <= |s| <= i + 2 && ret.Length == dst + (if i < |s| then 4 else 0)
    requires ret[..dst] == Encode(s[..i])
    modifies ret
    ensures ret[..] == Encode(s)
  {
    hide Encode;
    EncodeAppend(s[..i], s[i..]);
    assert s[..i] + s[i..] == s;
    if i < |s| {
      PutRest(ret, dst, s[i..]);
      assert ret[..dst + 4] == ret[..];
    } else {
      assert s[..i] == s && ret[..dst] == ret[..];
    }
  }

  /** The last one or two bytes. */
  method PutRest(ret: array<byte>, dst: nat, rest: seq<byte>)
    requires dst + 4 <= ret.Length && 1 <= |rest| <= 2
    modifies ret
    ensures ret[..dst + 4] == old(ret[..dst]) + Encode(rest)
  {
    hide Encode, Ch64, Digit0, Digit1, Digit2;
    EncodeRest(rest);
    if |rest| > 1 {
      PutFour(ret, dst, Ch64(Digit0(rest[0])), Ch64(Digit1(rest[0], rest[1])), Ch64(Digit2(rest[1], 0)), EQUALS);
    } else {
      PutFour(ret, dst, Ch64(Digit0(rest[0])), Ch64(Digit1(rest[0], 0)), EQUALS, EQUALS);
    }
  }

  method PutFour(ret: array<byte>, dst: nat, c0: byte, c1: byte, c2: byte, c3: byte)
    requires dst + 4 <= ret.Length
    modifies ret
    ensures ret[..dst + 4] == old(ret[..dst]) + [c0, c1, c2, c3]
  {
    ret[dst] := c0;
    ret[dst + 1] := c1;
    ret[dst + 2] := c2;
    ret[dst + 3] := c3;
  }

  lemma EncodeNothing()
    ensures Encode([]) == []
  {
  }

  // ---------------------------------------------------------------- the decoder

  /** How far the decoder has come: its output, the padding it has seen, and whether all was well. */
  datatype Decoded = Decoded(bytes: seq<byte>, pad: nat, ok: bool)

  /** The three bytes of four digits. */
  function Bytes(a: digit, b: digit, c: digit, d: digit): seq<byte> {
    [a * 4 + b / 16, b % 16 * 16 + c / 4, c % 4 * 64 + d]
  }

  /** The padding that is known after the third and the fourth character; it is never forgotten. */
  function Padding(pad: nat, p2: byte, p3: byte): nat {
    if p2 == EQUALS then 2 else if pad == 0 && p3 == EQUALS then 1 else pad
  }

  /** One turn of the loop. Once padding has been seen the fourth character no longer matters. */
  function Quad(r: Decoded, p0: byte, p1: byte, p2: byte, p3: byte): Decoded {
    var a, b := Reverse(p0), Reverse(p1);
    var c := if p2 != EQUALS then Reverse(p2) else 0;
    var pad := Padding(r.pad, p2, p3);
    var d := if pad == 0 then Reverse(p3) else 0;
    TablesInverse(0, p0);
    TablesInverse(0, p1);
    TablesInverse(0, p2);
    TablesInverse(0, p3);
    if a < 0 || b < 0 || c < 0 || d < 0 then Decoded(r.bytes, pad, false)
    else Decoded(r.bytes + Bytes(a, b, c, d), pad, true)
  }

  /** The first `k` groups of four characters; a broken group ends the work. */
  function Quads(s: seq<byte>, k: nat): Decoded
    requires 4 * k <= |s|
  {
    if k == 0 then Decoded([], 0, true)
    else
      var r := Quads(s, k - 1);
      if r.ok then Quad(r, s[4 * k - 4], s[4 * k - 3], s[4 * k - 2], s[4 * k - 1]) else r
  }

  /** Three bytes for every group, and padding only if there is a group. */
  lemma {:induction false} QuadsSize(s: seq<byte>, k: nat)
    requires 4 * k <= |s|
    ensures var r := Quads(s, k);
            r.pad <= 2 && (r.ok ==> |r.bytes| == 3 * k) && |r.bytes| <= 3 * k && (r.pad > 0 ==> k > 0)
  {
    hide Reverse;
    if k > 0 {
      QuadsSize(s, k - 1);
    }
  }

  /** What is decoded: everything before the first broken group, or all groups without the padding. */
  function Decode(s: seq<byte>): (r: seq<byte>)
    ensures |r| <= |s| / 4 * 3
  {
    var r := Quads(s, |s| / 4);
    QuadsSize(s, |s| / 4);
    if r.ok then r.bytes[..|r.bytes| - r.pad] else r.bytes
  }

  /** The result buffer has three bytes for every whole group; nothing is ever written outside it. */
  method Base64Decode(s: seq<byte>) returns (ret: seq<byte>)
    ensures ret == Decode(s)
  {
    hide Reverse, Bytes, Quad;
    var l, n, pandcnt := |s|, |s|, 0;
    if n % 4 != 0 {
      n := n - n % 4;
    }
    var dst := new byte[n / 4 * 3](k => 0);
    var i, j := 0, 0;
    ghost var k := 0;
    while i <= l - 4
      invariant i == 4 * k && j == 3 * k && k <= |s| / 4 && dst.Length == |s| / 4 * 3
      invariant Quads(s, k) == Decoded(dst[..j], pandcnt, true)
    {
      TablesInRange(s[i], s[i + 1], s[i + 2], s[i + 3]);
      QuadUnfolds(Quads(s, k), s[i], s[i + 1], s[i + 2], s[i + 3]);
      var a, b, c, d := Reverse(s[i]), Reverse(s[i + 1]), 0, 0;
      if s[i + 2] != EQUALS {
        c := Reverse(s[i + 2]);
      } else {
        pandcnt := 2;
      }
      if pandcnt == 0 {
        if s[i + 3] != EQUALS {
          d := Reverse(s[i + 3]);
        } else {
          pandcnt := 1;
        }
      }
      if a < 0 || b < 0 || c < 0 || d < 0 {
        BrokenStays(s, k + 1, |s| / 4);
        return dst[..j];
      }
      PutThree(dst, j, a, b, c, d);
      i, j, k := i + 4, j + 3, k + 1;
    }
    QuadsSize(s, k);
    assert k == |s| / 4;
    return dst[..j - pandcnt];
  }

  method PutThree(dst: array<byte>, j: nat, a: digit, b: digit, c: digit, d: digit)
    requires j + 3 <= dst.Length
    modifies dst
    ensures dst[..j + 3] == old(dst[..j]) + Bytes(a, b, c, d)
  {
    dst[j] := a * 4 + b / 16;
    dst[j + 1] := b % 16 * 16 + c / 4;
    dst[j + 2] := c % 4 * 64 + d;
  }

  lemma TablesInRange(p0: byte, p1: byte, p2: byte, p3: byte)
    ensures -1 <= Reverse(p0) < 64 && -1 <= Reverse(p1) < 64 && -1 <= Reverse(p2) < 64 && -1 <= Reverse(p3) < 64
  {
  }

  lemma QuadUnfolds(r: Decoded, p0: byte, p1: byte, p2: byte, p3: byte)
    ensures var a, b := Reverse(p0), Reverse(p1);
            var c := if p2 != EQUALS then Reverse(p2) else 0;
            var pad := Padding(r.pad, p2, p3);
            var d := if pad == 0 then Reverse(p3) else 0;
            && (a < 0 || b < 0 || c < 0 || d < 0 ==> Quad(r, p0, p1, p2, p3) == Decoded(r.bytes, pad, false))
            && (0 <= a < 64 && 0 <= b < 64 && 0 <= c < 64 && 0 <= d < 64 ==>
                  Quad(r, p0, p1, p2, p3) == Decoded(r.bytes + Bytes(a, b, c, d), pad, true))
  {
    hide Reverse;
  }

  lemma {:induction false} BrokenStays(s: seq<byte>, k: nat, m: nat)
    requires k <= m && 4 * m <= |s| && !Quads(s, k).ok
    ensures Quads(s, m) == Quads(s, k)
  {
    if k < m {
      BrokenStays(s, k, m - 1);
    }
  }

  // ---------------------------------------------------------------- round trip

  /** The decoder's bytes are the ones the digits were taken from. */
  lemma BytesBack(x: byte, y: byte, z: byte)
    ensures Bytes(Digit0(x), Digit1(x, y), Digit2(y, z), Digit3(z)) == [x, y, z]
  {
  }

  /** A whole group comes back. */
  lemma {:induction false} QuadOfThree(r: Decoded, x: byte, y: byte, z: byte)
    requires r.pad == 0
    ensures Quad(r, Ch64(Digit0(x)), Ch64(Digit1(x, y)), Ch64(Digit2(y, z)), Ch64(Digit3(z)))
         == Decoded(r.bytes + [x, y, z], 0, true)
  {
    hide Ch64, Reverse, Bytes, Digit0, Digit1, Digit2, Digit3;
    TablesInverse(Digit0(x), 0);
    TablesInverse(Digit1(x, y), 0);
    TablesInverse(Digit2(y, z), 0);
    TablesInverse(Digit3(z), 0);
    BytesBack(x, y, z);
  }

  /** So does a padded one, with zero bytes in place of the padding. */
  lemma QuadOfRest(r: Decoded, x: byte, y: byte)
    requires r.pad == 0
    ensures Quad(r, Ch64(Digit0(x)), Ch64(Digit1(x, y)), Ch64(Digit2(y, 0)), EQUALS)
         == Decoded(r.bytes + [x, y, 0], 1, true)
    ensures Quad(r, Ch64(Digit0(x)), Ch64(Digit1(x, 0)), EQUALS, EQUALS) == Decoded(r.bytes + [x, 0, 0], 2, true)
  {
    hide Ch64, Reverse, Bytes, Digit0, Digit1;
    TablesInverse(Digit0(x), 0);
    TablesInverse(Digit1(x, y), 0);
    TablesInverse(Digit1(x, 0), 0);
    TablesInverse(Digit2(y, 0), 0);
    BytesBack(x, y, 0);
    BytesBack(x, 0, 0);
  }

  /** The first groups do not depend on what follows. */
  lemma {:induction false} QuadsOfPrefix(s: seq<byte>, t: seq<byte>, k: nat)
    requires 4 * k <= |s|
    ensures Quads(s + t, k) == Quads(s, k)
  {
    hide Quad;
    if k > 0 {
      QuadsOfPrefix(s, t, k - 1);
    }
  }

  lemma QuadsSnoc(s: seq<byte>, quad: seq<byte>, k: nat)
    requires |s| == 4 * k && |quad| == 4 && Quads(s, k).ok
    ensures Quads(s + quad, k + 1) == Quad(Quads(s, k), quad[0], quad[1], quad[2], quad[3])
  {
    hide Quad;
    QuadsOfPrefix(s, quad, k);
  }

  /** Whole groups are decoded to the bytes they came from. */
  lemma {:induction false} QuadsOfWhole(s: seq<byte>, k: nat)
    requires |s| == 3 * k
    ensures |Encode(s)| == 4 * k && Quads(Encode(s), k) == Decoded(s, 0, true)
  {
    hide Quad, Encode, Ch64, Digit0, Digit1, Digit2, Digit3;
    EncodeLength(s);
    if k == 0 {
      assert s == [];
    } else {
      var front, x, y, z := s[..3 * k - 3], s[3 * k - 3], s[3 * k - 2], s[3 * k - 1];
      assert s == front + [x, y, z];
      QuadsOfWhole(front, k - 1);
      EncodeThree(front, x, y, z);
      QuadsSnoc(Encode(front), [Ch64(Digit0(x)), Ch64(Digit1(x, y)), Ch64(Digit2(y, z)), Ch64(Digit3(z))], k - 1);
      QuadOfThree(Decoded(front, 0, true), x, y, z);
    }
  }

  /** Decoding undoes encoding, for every byte string. */
  lemma {:induction false} RoundTrip(s: seq<byte>)
    ensures Decode(Encode(s)) == s
  {
    hide Quad, Encode, Ch64, Quads, Digit0, Digit1, Digit2;
    var k, rest := |s| / 3, s[|s| / 3 * 3..];
    var whole := s[..3 * k];
    assert s == whole + rest;
    EncodeLength(s);
    QuadsOfWhole(whole, k);
    EncodeAppend(whole, rest);
    if rest == [] {
      EncodeNothing();
      assert Encode(s) == Encode(whole) && s == whole;
    } else {
      EncodeRest(rest);
      QuadsSnoc(Encode(whole), Encode(rest), k);
      QuadOfRest(Decoded(whole, 0, true), rest[0], if |rest| == 2 then rest[1] else 0);
    }
  }

  // ---------------------------------------------------------------- broken input

  /** A group of four characters without a meaning: one that counts is neither in the alphabet nor padding. */
  predicate Broken(g: seq<byte>)
    requires |g| == 4
  {
    || !InAlphabet(g[0]) || !InAlphabet(g[1])
    || (g[2] != EQUALS && !InAlphabet(g[2]))
    || (g[2] != EQUALS && g[3] != EQUALS && !InAlphabet(g[3]))
  }

  lemma QuadBroken(bytes: seq<byte>, g: seq<byte>)
    requires |g| == 4
    ensures var r := Quad(Decoded(bytes, 0, true), g[0], g[1], g[2], g[3]);
            (r.ok <==> !Broken(g)) && (!r.ok ==> r.bytes == bytes)
  {
    hide Reverse, InAlphabet;
    OutsideAlphabet(g[0]);
    OutsideAlphabet(g[1]);
    OutsideAlphabet(g[2]);
    OutsideAlphabet(g[3]);
    EqualsOutside();
  }

  lemma EqualsOutside()
    ensures Reverse(EQUALS) < 0
  {
  }

  /** Behind whole groups, decoding stops at the first broken one and gives what came before it. */
  lemma {:induction false} DecodeStops(m: seq<byte>, g: seq<byte>, rest: seq<byte>)
    requires |m| % 3 == 0 && |g| == 4 && Broken(g)
    ensures Decode(Encode(m) + g + rest) == m
  {
    hide Quad, Encode, Quads, Broken;
    var k := |m| / 3;
    var s := Encode(m) + g;
    QuadsOfWhole(m, k);
    QuadsSnoc(Encode(m), g, k);
    QuadBroken(m, g);
    QuadsOfPrefix(s, rest, k + 1);
    BrokenStays(s + rest, k + 1, |s + rest| / 4);
  }

  /** Characters behind the last whole group do not matter. */
  lemma WholeGroupsOnly(s: seq<byte>, rest: seq<byte>)
    requires |s| % 4 == 0 && |rest| < 4
    ensures Decode(s + rest) == Decode(s)
  {
    hide Quads;
    var k := |s| / 4;
    assert |s + rest| / 4 == k;
    QuadsOfPrefix(s, rest, k);
  }
}
