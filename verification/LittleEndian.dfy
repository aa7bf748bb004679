/**
  Unsigned integers as bytes, least significant byte first: the memory of the machines the repository is written for.
 */
module LittleEndian {
  import opened Arithmetic
  import opened Octets

  /** How many values `k` bytes can hold. */
  function Span(k: nat): (n: nat)
    ensures n >= 1
  {
    if k == 0 then 1 else 256 * Span(k - 1)
  }

  lemma SpanValues()
    ensures Span(4) == 0x1_0000_0000 && Span(8) == 0x1_0000_0000_0000_0000
  {
    assert Span(3) == 256 * Span(2) == 256 * 256 * 256;
    assert Span(4) == 256 * Span(3);
    assert Span(6) == 256 * Span(5) == 256 * 256 * Span(4);
    assert Span(8) == 256 * Span(7) == 256 * 256 * Span(6);
  }

  function Digits(n: nat, k: nat): (s: seq<byte>)
    ensures |s| == k
  {
    if k == 0 then [] else [n % 256] + Digits(n / 256, k - 1)
  }

  function Number(s: seq<byte>): nat {
    if s == [] then 0 else s[0] + 256 * Number(s[1..])
  }

  lemma {:induction false} NumberOfDigits(n: nat, k: nat)
    requires n < Span(k)
    ensures Number(Digits(n, k)) == n
  {
    if k > 0 {
      NumberOfDigits(n / 256, k - 1);
      assert Digits(n, k)[1..] == Digits(n / 256, k - 1);
    }
  }

  lemma {:induction false} DigitsOfNumber(s: seq<byte>)
    ensures Number(s) < Span(|s|) && Digits(Number(s), |s|) == s
  {
    if s != [] {
      DigitsOfNumber(s[1..]);
      assert Number(s) % 256 == s[0] && Number(s) / 256 == Number(s[1..]);
    }
  }

  /** Byte `i` counts multiples of 256 to the power of `i`. */
  lemma {:induction false} DigitAt(n: nat, k: nat, i: nat)
    requires i < k
    ensures Digits(n, k)[i] == n / Span(i) % 256
  {
    if i > 0 {
      DigitAt(n / 256, k - 1, i - 1);
      DivideTwice(n, Span(i - 1));
    }
  }

  /** The digits of a number are those of its low part, then those of its high part. */
  lemma {:induction false} DigitsSplit(n: nat, a: nat, b: nat, span: nat)
    requires span == Span(a)
    ensures n % span >= 0 && n / span >= 0 && Digits(n, a + b) == Digits(n % span, a) + Digits(n / span, b)
  {
    if a > 0 {
      var smaller := Span(a - 1);
      DigitsSplit(n / 256, a - 1, b, smaller);
      DivideTwice(n, smaller);
    }
  }

  lemma {:induction false} DivideTwice(n: nat, s: nat)
    requires s >= 1
    ensures n / 256 / s == n / (256 * s)
    ensures n % (256 * s) % 256 == n % 256 && n % (256 * s) / 256 == n / 256 % s
  {
    var q, r := n / 256, n % 256;
    var p, t := q / s, q % s;
    assert n == 256 * (p * s + t) + r == p * (256 * s) + (256 * t + r);
    Quotient(n, 256 * s, p, 256 * t + r);
    Quotient(256 * t + r, 256, t, r);
  }
}
