/** Bytes, big-endian numbers and byte-wise exclusive or. */
module Bytes {

  type Byte = b: int | 0 <= b < 256

  function Power(width: nat): nat {
    if width == 0 then 1 else 256 * Power(width - 1)
  }

  /** n in big-endian order, cut to the given width. */
  function BigEndian(n: nat, width: nat): (s: seq<Byte>)
    ensures |s| == width
  {
    if width == 0 then [] else BigEndian(n / 256, width - 1) + [n % 256]
  }

  function Number(s: seq<Byte>): nat {
    if s == [] then 0 else 256 * Number(s[..|s| - 1]) + s[|s| - 1]
  }

  lemma {:induction false} NumberOfBigEndian(n: nat, width: nat)
    requires n < Power(width)
    ensures Number(BigEndian(n, width)) == n
  {
    if width != 0 {
      NumberOfBigEndian(n / 256, width - 1);
      assert BigEndian(n, width)[..width - 1] == BigEndian(n / 256, width - 1);
    }
  }

  lemma {:induction false} BigEndianOfNumber(s: seq<Byte>)
    ensures BigEndian(Number(s), |s|) == s && Number(s) < Power(|s|)
  {
    if s != [] {
      var init, last := s[..|s| - 1], s[|s| - 1];
      BigEndianOfNumber(init);
      assert Number(s) / 256 == Number(init) && Number(s) % 256 == last;
      assert s == init + [last];
    }
  }

  function PowerOfTwo(bits: nat): (p: nat)
    ensures 0 < p
  {
    if bits == 0 then 1 else 2 * PowerOfTwo(bits - 1)
  }

  lemma EightBits()
    ensures PowerOfTwo(8) == 256
  {
    assert PowerOfTwo(4) == 16;
  }

  /** Exclusive or of the lowest bits. */
  function XorBits(a: nat, b: nat, bits: nat): (c: nat)
    ensures c < PowerOfTwo(bits)
  {
    if bits == 0 then 0 else (if a % 2 == b % 2 then 0 else 1) + 2 * XorBits(a / 2, b / 2, bits - 1)
  }

  function Xor(a: Byte, b: Byte): Byte {
    EightBits();
    XorBits(a, b, 8)
  }

  lemma Halves(low: nat, high: nat)
    requires low < 2
    ensures (low + 2 * high) / 2 == high && (low + 2 * high) % 2 == low
  {
  }

  lemma {:induction false} XorBitsBack(a: nat, b: nat, bits: nat)
    requires a < PowerOfTwo(bits)
    ensures XorBits(XorBits(a, b, bits), b, bits) == a
  {
    if bits != 0 {
      var low, high := if a % 2 == b % 2 then 0 else 1, XorBits(a / 2, b / 2, bits - 1);
      assert XorBits(a, b, bits) == low + 2 * high;
      Halves(low, high);
      XorBitsBack(a / 2, b / 2, bits - 1);
    }
  }

  function Bit(n: nat, i: nat): nat {
    (n / PowerOfTwo(i)) % 2
  }

  lemma NextBit(n: nat, i: nat)
    requires i > 0
    ensures Bit(n, i) == Bit(n / 2, i - 1)
  {
    var p := PowerOfTwo(i - 1);
    assert PowerOfTwo(i) == 2 * p && n / (2 * p) == n / 2 / p by {
      DividesTwice(n, p);
    }
  }

  lemma DividesTwice(n: nat, p: nat)
    requires p > 0
    ensures n / (2 * p) == n / 2 / p
  {
    var q, r := n / (2 * p), n % (2 * p);
    assert n == 2 * p * q + r && n / 2 == p * q + r / 2 && r / 2 < p;
    Quotient(p, q, r / 2);
  }

  lemma Quotient(p: nat, q: nat, r: nat)
    requires r < p
    ensures (p * q + r) / p == q
  {
    var k := (p * q + r) / p;
    assert p * k <= p * q + r < p * k + p;
    assert k < q ==> p * (k + 1) <= p * q;
    assert k > q ==> p * (q + 1) <= p * k;
  }

  /** The law of exclusive or: a bit of the result is set exactly where the operands' bits differ. */
  lemma {:induction false} XorBitsDiffer(a: nat, b: nat, bits: nat, i: nat)
    requires i < bits
    ensures Bit(XorBits(a, b, bits), i) == 1 <==> Bit(a, i) != Bit(b, i)
  {
    var low, high := if a % 2 == b % 2 then 0 else 1, XorBits(a / 2, b / 2, bits - 1);
    assert XorBits(a, b, bits) == low + 2 * high;
    Halves(low, high);
    if i > 0 {
      NextBit(a, i);
      NextBit(b, i);
      NextBit(low + 2 * high, i);
      XorBitsDiffer(a / 2, b / 2, bits - 1, i - 1);
    }
  }

  lemma XorDiffers(a: Byte, b: Byte, i: nat)
    requires i < 8
    ensures Bit(Xor(a, b), i) == 1 <==> Bit(a, i) != Bit(b, i)
  {
    EightBits();
    XorBitsDiffer(a, b, 8, i);
  }

  lemma XorBack(a: Byte, b: Byte)
    ensures Xor(Xor(a, b), b) == a
  {
    EightBits();
    XorBitsBack(a, b, 8);
  }
}
