/**
 * Bit-level vocabulary shared by the dPMR decoder and the Viterbi codec:
 * bits and dibits as small integer subsets, powers of two, bit strings read
 * most significant bit first, and the bitwise operations the C++ code applies
 * to unsigned integers (&, |, population count), stated on natural numbers.
 */
module Bits {

  /** One binary digit, as stored in the decoder's unsigned char bit arrays. */
  type Bit = b: int | 0 <= b <= 1

  /** One 4-FSK symbol as delivered to the dPMR decoder: a value in 0..3. */
  type Dibit = d: int | 0 <= d <= 3

  /** An unsigned char. */
  type Byte = x: int | 0 <= x < 256

  function Pow2(e: nat): (r: nat)
    ensures r >= 1
  {
    if e == 0 then 1 else 2 * Pow2(e - 1)
  }

  /** The powers of two the decoders' field widths need. */
  lemma Pow2Values()
    ensures Pow2(6) == 64 && Pow2(8) == 256 && Pow2(12) == 0x1000 && Pow2(24) == 0x100_0000
  {
    assert Pow2(4) == 16;
    assert Pow2(8) == 256;
    assert Pow2(12) == 0x1000;
    assert Pow2(16) == 0x1_0000;
    assert Pow2(20) == 0x10_0000;
  }

  lemma {:induction false} Pow2Monotone(a: nat, b: nat)
    requires a <= b
    ensures Pow2(a) <= Pow2(b)
    decreases b - a
  {
    if a < b {
      Pow2Monotone(a, b - 1);
    }
  }

  /** Exclusive or of two bits. */
  function XorBit(a: Bit, b: Bit): (r: Bit)
    ensures r == 1 <==> a != b
  {
    if a == b then 0 else 1
  }

  /** The high bit of a dibit, as (dibit >> 1) & 1 computes it. */
  function HighBit(d: Dibit): (r: Bit)
    ensures d == 2 * r + LowBit(d)
  {
    d / 2
  }

  /** The low bit of a dibit, as dibit & 1 computes it. */
  function LowBit(d: Dibit): (r: Bit)
  {
    d % 2
  }

  /** Value of a bit string read most significant bit first. */
  function BitsToNat(bs: seq<Bit>): (r: nat)
    ensures r < Pow2(|bs|)
  {
    if bs == [] then 0 else 2 * BitsToNat(bs[..|bs| - 1]) + bs[|bs| - 1]
  }

  /** The w least significant bits of x, most significant first. */
  function NatToBits(x: nat, w: nat): (bs: seq<Bit>)
    ensures |bs| == w
  {
    if w == 0 then [] else NatToBits(x / 2, w - 1) + [x % 2]
  }

  lemma {:induction false} BitsToNatRoundTrip(bs: seq<Bit>)
    ensures NatToBits(BitsToNat(bs), |bs|) == bs
  {
    if bs != [] {
      var init := bs[..|bs| - 1];
      var v := BitsToNat(bs);
      assert v / 2 == BitsToNat(init) && v % 2 == bs[|bs| - 1];
      BitsToNatRoundTrip(init);
      assert NatToBits(v, |bs|) == NatToBits(v / 2, |bs| - 1) + [v % 2];
      assert init + [bs[|bs| - 1]] == bs;
    }
  }

  lemma {:induction false} NatToBitsRoundTrip(x: nat, w: nat)
    requires x < Pow2(w)
    ensures BitsToNat(NatToBits(x, w)) == x
  {
    if w > 0 {
      NatToBitsRoundTrip(x / 2, w - 1);
      var bs := NatToBits(x, w);
      assert bs[..|bs| - 1] == NatToBits(x / 2, w - 1);
    }
  }

  /** A bit put in front of a string is worth 2^|bs|: the value of a string read from its last bit upwards. */
  lemma {:induction false} BitsToNatCons(b: Bit, bs: seq<Bit>)
    ensures BitsToNat([b] + bs) == b * Pow2(|bs|) + BitsToNat(bs)
  {
    if bs != [] {
      var init := bs[..|bs| - 1];
      assert ([b] + bs)[..|bs|] == [b] + init;
      BitsToNatCons(b, init);
    }
  }

  /** Widening a field of bs by one bit on the left adds that bit at weight 2^(width). */
  lemma BitsToNatExtend(bs: seq<Bit>, lo: nat, hi: nat)
    requires 0 < lo <= hi <= |bs|
    ensures BitsToNat(bs[lo - 1..hi]) == bs[lo - 1] * Pow2(hi - lo) + BitsToNat(bs[lo..hi])
  {
    assert bs[lo - 1..hi] == [bs[lo - 1]] + bs[lo..hi];
    BitsToNatCons(bs[lo - 1], bs[lo..hi]);
  }

  /** The sum of the last i bits of bs[..hi], bit hi-1-k weighted 2^k: a field summed from its last bit upwards. */
  function SumFromEnd(bs: seq<Bit>, hi: nat, i: nat): nat
    requires i <= hi <= |bs|
  {
    if i == 0 then 0 else SumFromEnd(bs, hi, i - 1) + bs[hi - i] * Pow2(i - 1)
  }

  /** One more bit from the end: a set bit adds its weight 2^i, a clear one nothing. */
  lemma SumFromEndStep(bs: seq<Bit>, hi: nat, i: nat)
    requires i < hi <= |bs|
    ensures SumFromEnd(bs, hi, i + 1) == if bs[hi - 1 - i] == 1 then SumFromEnd(bs, hi, i) + Pow2(i) else SumFromEnd(bs, hi, i)
  {
  }

  /** Summing the last i bits from the end upwards gives the value of that field read most significant bit first. */
  lemma {:induction false} SumFromEndIsValue(bs: seq<Bit>, hi: nat, i: nat)
    requires i <= hi <= |bs|
    ensures SumFromEnd(bs, hi, i) == BitsToNat(bs[hi - i..hi])
  {
    if i > 0 {
      SumFromEndIsValue(bs, hi, i - 1);
      BitsToNatExtend(bs, hi - i + 1, hi);
    }
  }

  /** A three-bit field, most significant bit first, as the shifts (b0<<2)+(b1<<1)+b2 compute it. */
  lemma BitsToNat3(bs: seq<Bit>)
    requires |bs| == 3
    ensures BitsToNat(bs) == 4 * (bs[0] as int) + 2 * (bs[1] as int) + bs[2]
  {
    var b0 := bs[..2][..1];
    assert b0 == [bs[0]] && b0[..0] == [];
    assert BitsToNat(b0) == bs[0];
    assert BitsToNat(bs[..2]) == 2 * (bs[0] as int) + bs[1];
  }

  /** A four-bit field, most significant bit first, as (b0<<3)+(b1<<2)+(b2<<1)+b3. */
  lemma BitsToNat4(bs: seq<Bit>)
    requires |bs| == 4
    ensures BitsToNat(bs) == 8 * (bs[0] as int) + 4 * (bs[1] as int) + 2 * (bs[2] as int) + bs[3]
  {
    BitsToNat3(bs[..3]);
  }

  // ---------------------------------------------------------------------
  // Bitwise operations on unsigned values, least significant bit first.
  // ---------------------------------------------------------------------

  /** Bit i of x. */
  function BitAt(x: nat, i: nat): Bit
  {
    if i == 0 then x % 2 else BitAt(x / 2, i - 1)
  }

  /** Bitwise and, as C's & on unsigned values. */
  function And(a: nat, b: nat): nat
  {
    if a == 0 then 0
    else 2 * And(a / 2, b / 2) + (if a % 2 == 1 && b % 2 == 1 then 1 else 0)
  }

  /** Bitwise or, as C's | on unsigned values. */
  function Or(a: nat, b: nat): nat
  {
    if a == 0 then b
    else if b == 0 then a
    else 2 * Or(a / 2, b / 2) + (if a % 2 == 1 || b % 2 == 1 then 1 else 0)
  }

  /** Bitwise exclusive or, as C's ^ on unsigned values. */
  function Xor(a: nat, b: nat): nat
  {
    if a == 0 then b
    else if b == 0 then a
    else 2 * Xor(a / 2, b / 2) + (if a % 2 == b % 2 then 0 else 1)
  }

  /** Number of bits set in x. */
  function Popcount(x: nat): nat
  {
    if x == 0 then 0 else Popcount(x / 2) + x % 2
  }

  /** Parity of the number of bits set in x. */
  function Parity(x: nat): Bit
  {
    Popcount(x) % 2
  }

  lemma {:induction false} PopcountZero(x: nat)
    ensures Popcount(x) == 0 <==> x == 0
  {
    if x != 0 {
      if x % 2 == 0 {
        PopcountZero(x / 2);
      }
    }
  }

  lemma PopcountDouble(y: nat, lo: Bit)
    ensures Popcount(2 * y + lo) == Popcount(y) + lo
  {
    var x := 2 * y + lo;
    assert x / 2 == y && x % 2 == lo;
  }

  lemma {:induction false} AndBitsBelow(a: nat, b: nat, m: nat)
    requires a < Pow2(m)
    ensures And(a, b) < Pow2(m)
  {
    if a != 0 {
      AndBitsBelow(a / 2, b / 2, m - 1);
    }
  }

  /**
   * Or-ing a value below 2^m with a multiple of 2^m adds them: the shifted-in
   * register bit of the convolutional encoder lands in an empty position.
   */
  lemma {:induction false} OrDisjointIsAdd(a: nat, b: nat, m: nat)
    requires a < Pow2(m)
    ensures Or(a, b * Pow2(m)) == a + b * Pow2(m)
  {
    if m > 0 && a != 0 && b != 0 {
      assert b * Pow2(m) == 2 * (b * Pow2(m - 1));
      OrDisjointIsAdd(a / 2, b, m - 1);
    }
  }

  /** Or-ing two values below 2^m stays below 2^m: a byte or-ed into a byte is a byte. */
  lemma {:induction false} OrBelow(a: nat, b: nat, m: nat)
    requires a < Pow2(m) && b < Pow2(m)
    ensures Or(a, b) < Pow2(m)
  {
    if a != 0 && b != 0 {
      OrBelow(a / 2, b / 2, m - 1);
    }
  }

  lemma {:induction false} OrCommutes(a: nat, b: nat)
    ensures Or(a, b) == Or(b, a)
  {
    if a != 0 && b != 0 {
      OrCommutes(a / 2, b / 2);
    }
  }

  /** Population count of a & p from that of (a >> 1) & (p >> 1). */
  lemma PopcountAndStep(a: nat, p: nat)
    ensures Popcount(And(a, p)) == Popcount(And(a / 2, p / 2)) + (if a % 2 == 1 && p % 2 == 1 then 1 else 0)
  {
    var lo: Bit := if a % 2 == 1 && p % 2 == 1 then 1 else 0;
    if a != 0 {
      PopcountDouble(And(a / 2, p / 2), lo);
    }
  }

  /** Shifting s + 2k right by one gives (s >> 1) + k and keeps the low bit. */
  lemma HalveShifted(s: nat, k: nat)
    ensures (s + 2 * k) % 2 == s % 2 && (s + 2 * k) / 2 == s / 2 + k
    ensures s < 2 * k ==> s / 2 < k
  {
  }

  /**
   * Setting bit m (clear in s) of a register adds bit m of the mask to the
   * population count of the masked register.
   */
  lemma {:induction false} PopcountAndSetBit(s: nat, p: nat, m: nat)
    requires s < Pow2(m)
    ensures Popcount(And(s + Pow2(m), p)) == Popcount(And(s, p)) + BitAt(p, m)
  {
    if m == 0 {
      PopcountAndStep(1, p);
      assert And(1 / 2, p / 2) == 0;
    } else {
      var k := Pow2(m - 1);
      HalveShifted(s, k);
      PopcountAndSetBit(s / 2, p / 2, m - 1);
      PopcountAndShifted(s, p, k, BitAt(p / 2, m - 1));
    }
  }

  /** The step of PopcountAndSetBit: one more low bit on both sides. */
  lemma PopcountAndShifted(s: nat, p: nat, k: nat, bit: Bit)
    requires Popcount(And(s / 2 + k, p / 2)) == Popcount(And(s / 2, p / 2)) + bit
    ensures Popcount(And(s + 2 * k, p)) == Popcount(And(s, p)) + bit
  {
    HalveShifted(s, k);
    PopcountAndStep(s + 2 * k, p);
    PopcountAndStep(s, p);
  }

  lemma {:induction false} XorZero(a: nat, b: nat)
    ensures Xor(a, b) == 0 <==> a == b
  {
    if a != 0 && b != 0 {
      XorZero(a / 2, b / 2);
    }
  }

  lemma {:induction false} XorBelow(a: nat, b: nat, m: nat)
    requires a < Pow2(m) && b < Pow2(m)
    ensures Xor(a, b) < Pow2(m)
  {
    if a != 0 && b != 0 {
      XorBelow(a / 2, b / 2, m - 1);
    }
  }

  /** Adding 2^q to a value whose bit q is clear sets that bit and no other. */
  lemma {:induction false} SetClearBit(x: nat, q: nat, r: nat)
    requires BitAt(x, q) == 0
    ensures BitAt(x + Pow2(q), r) == if r == q then 1 else BitAt(x, r)
  {
    var y := x + Pow2(q);
    if q == 0 {
      if r > 0 {
        assert y / 2 == x / 2;
      }
    } else {
      assert y % 2 == x % 2 && y / 2 == x / 2 + Pow2(q - 1);
      if r > 0 {
        SetClearBit(x / 2, q - 1, r - 1);
      }
    }
  }

  lemma {:induction false} SetClearBitBelow(x: nat, q: nat, m: nat)
    requires x < Pow2(m) && q < m && BitAt(x, q) == 0
    ensures x + Pow2(q) < Pow2(m)
  {
    var k := Pow2(m - 1);
    assert Pow2(m) == 2 * k;
    if q == 0 {
      assert x % 2 == 0 && Pow2(q) == 1;
    } else {
      var y := Pow2(q - 1);
      assert Pow2(q) == 2 * y;
      assert BitAt(x / 2, q - 1) == 0;
      SetClearBitBelow(x / 2, q - 1, m - 1);
      assert x == 2 * (x / 2) + x % 2;
    }
  }

  lemma {:induction false} ZeroBits(r: nat)
    ensures BitAt(0, r) == 0
  {
    if r > 0 {
      ZeroBits(r - 1);
    }
  }
}
