/**
 * Forward-error-correction helpers of the dPMR decoder: the 10-bit
 * scrambling LFSR, the bit-serial CRC7 / CRC8 long division, and the
 * Hamming(12,8) syndrome decoder: the class and decode() as written, and
 * the corrected decoder that keeps the syndrome in the table's bit order.
 */
module DpmrFec {
  import opened Bits
  import opened DpmrTables

  // ---------------------------------------------------------------------
  // Scrambler: a 10-bit shift register seeded with all ones.
  // ---------------------------------------------------------------------

  /** The register value init() loads. */
  const LfsrSeed := 0x3FF

  /**
   * One call of next(): shift right, take the new bit 0 as output, and feed
   * back bit 4 xor that output into bit 9.
   */
  function LfsrNext(sr: nat): nat
  {
    var shifted := sr / 2;
    And(shifted, 0x1FF) + XorBit(BitAt(shifted, 4), shifted % 2) * 0x200
  }

  /** The value next() returns: bit 1 of the register before the call. */
  function LfsrOut(sr: nat): Bit
  {
    (sr / 2) % 2
  }

  /** The register after n calls of next(). */
  function LfsrState(sr: nat, n: nat): nat
    decreases n
  {
    if n == 0 then sr else LfsrState(LfsrNext(sr), n - 1)
  }

  /** The register after n + 1 calls is one call of next() after n calls. */
  lemma {:induction false} LfsrStateNext(sr: nat, n: nat)
    ensures LfsrState(sr, n + 1) == LfsrNext(LfsrState(sr, n))
    decreases n
  {
    if n > 0 {
      LfsrStateNext(LfsrNext(sr), n - 1);
    }
  }

  /** The first n values next() returns, starting from register sr. */
  function Keystream(sr: nat, n: nat): (bits: seq<Bit>)
    ensures |bits| == n
  {
    seq(n, k requires 0 <= k < n => LfsrOut(LfsrState(sr, k)))
  }

  /** One more call of next() appends the bit the register then holds at position 1. */
  lemma KeystreamSnoc(sr: nat, n: nat)
    ensures Keystream(sr, n + 1) == Keystream(sr, n) + [LfsrOut(LfsrState(sr, n))]
  {
    var longer, shorter := Keystream(sr, n + 1), Keystream(sr, n) + [LfsrOut(LfsrState(sr, n))];
    forall k | 0 <= k < n + 1
      ensures longer[k] == shorter[k]
    {
      if k < n {
        assert shorter[k] == Keystream(sr, n)[k];
      }
    }
  }

  /** The 120 scrambling bits initScrambling stores. */
  function ScrambleBits(): (bits: seq<Bit>)
    ensures |bits| == 120
  {
    Keystream(LfsrSeed, 120)
  }

  /** The scrambler's register. */
  class Lfsr {
    var sr: nat

    constructor()
      ensures sr == LfsrSeed
    {
      sr := LfsrSeed;
    }

    method Init()
      modifies this
      ensures sr == LfsrSeed
    {
      sr := LfsrSeed;
    }

    method Next() returns (res: Bit)
      modifies this
      ensures res == LfsrOut(old(sr)) && sr == LfsrNext(old(sr))
      ensures sr < 0x400
    {
      sr := sr / 2;
      res := sr % 2;
      var feedback := XorBit(BitAt(sr, 4), res) * Pow2(9);
      sr := Or(And(sr, 0x1FF), feedback);
      NextAddsFeedback(old(sr));
      LfsrNextBits(old(sr), 0);
    }
  }

  /**
   * The masked register and the feedback bit at bit 9 have no bit in common,
   * so or-ing them is adding them.
   */
  lemma NextAddsFeedback(sr: nat)
    ensures var shifted := sr / 2;
      Or(And(shifted, 0x1FF), XorBit(BitAt(shifted, 4), shifted % 2) * Pow2(9)) == LfsrNext(sr)
  {
    var shifted := sr / 2;
    assert Pow2(9) == 0x200;
    AndLowMaskBound(shifted, 9);
    OrDisjointIsAdd(And(shifted, 0x1FF), XorBit(BitAt(shifted, 4), shifted % 2), 9);
  }

  lemma AndLowMask(a: nat, m: nat, p: nat)
    ensures And(a, Pow2(m) - 1) < Pow2(m)
    ensures BitAt(And(a, Pow2(m) - 1), p) == if p < m then BitAt(a, p) else 0
  {
    AndLowMaskBound(a, m);
    AndLowMaskBit(a, m, p);
  }

  lemma {:induction false} AndLowMaskBound(a: nat, m: nat)
    ensures And(a, Pow2(m) - 1) < Pow2(m)
  {
    if m == 0 {
      AndZero(a);
    } else if a != 0 {
      var mask := Pow2(m) - 1;
      MaskHalves(m);
      AndLowMaskBound(a / 2, m - 1);
      var y := And(a / 2, Pow2(m - 1) - 1);
      assert And(a, mask) == 2 * y + a % 2;
    }
  }

  lemma {:induction false} AndLowMaskBit(a: nat, m: nat, p: nat)
    ensures BitAt(And(a, Pow2(m) - 1), p) == if p < m then BitAt(a, p) else 0
  {
    var mask := Pow2(m) - 1;
    if m == 0 {
      AndZero(a);
      ZeroBits(p);
    } else if a == 0 {
      ZeroBits(p);
    } else {
      MaskHalves(m);
      var y := And(a / 2, Pow2(m - 1) - 1);
      var r: Bit := a % 2;
      assert And(a, mask) == 2 * y + r;
      BitAtDouble(y, r, p);
      if p == 0 {
        assert BitAt(a, 0) == r;
      } else {
        AndLowMaskBit(a / 2, m - 1, p - 1);
        assert BitAt(a, p) == BitAt(a / 2, p - 1);
      }
    }
  }

  /** Halving the mask of m low ones gives the mask of m - 1 low ones. */
  lemma MaskHalves(m: nat)
    requires m > 0
    ensures (Pow2(m) - 1) / 2 == Pow2(m - 1) - 1 && (Pow2(m) - 1) % 2 == 1
  {
  }

  /** Bit p of 2y + r: r at the bottom, bit p - 1 of y above it. */
  lemma BitAtDouble(y: nat, r: Bit, p: nat)
    ensures BitAt(2 * y + r, p) == if p == 0 then r else BitAt(y, p - 1)
  {
    var x := 2 * y + r;
    assert x / 2 == y && x % 2 == r;
  }

  lemma {:induction false} AndZero(a: nat)
    ensures And(a, 0) == 0
  {
    if a != 0 {
      AndZero(a / 2);
    }
  }

  /** Bits of lo + hi * 2^m when lo < 2^m. */
  lemma {:induction false} BitAtStacked(lo: nat, hi: Bit, m: nat, p: nat)
    requires lo < Pow2(m)
    ensures BitAt(lo + hi * Pow2(m), p) == if p < m then BitAt(lo, p) else if p == m then hi else 0
  {
    var x := lo + hi * Pow2(m);
    if m == 0 {
      assert lo == 0;
      if p > 0 {
        assert x / 2 == 0;
        ZeroBits(p - 1);
      }
    } else if p > 0 {
      assert x / 2 == lo / 2 + hi * Pow2(m - 1);
      BitAtStacked(lo / 2, hi, m - 1, p - 1);
    }
  }

  /**
   * Bit by bit, next() moves bits 1..9 down by one and writes bit 5 xor
   * bit 1 of the old register into bit 9; the register stays below 2^10.
   */
  lemma LfsrNextBits(sr: nat, p: nat)
    ensures LfsrNext(sr) < 0x400
    ensures BitAt(LfsrNext(sr), p) ==
      if p < 9 then BitAt(sr, p + 1) else if p == 9 then XorBit(BitAt(sr, 5), BitAt(sr, 1)) else 0
  {
    var shifted := sr / 2;
    var fb := XorBit(BitAt(shifted, 4), shifted % 2);
    assert Pow2(9) == 0x200;
    AndLowMask(shifted, 9, p);
    var low := And(shifted, 0x1FF);
    assert LfsrNext(sr) == low + fb * Pow2(9);
    BitAtStacked(low, fb, 9, p);
  }

  /** After m more steps, bit p of the register holds what bit p + m held. */
  lemma {:induction false} LfsrShift(sr: nat, k: nat, m: nat, p: nat)
    requires p + m <= 9
    ensures BitAt(LfsrState(sr, k + m), p) == BitAt(LfsrState(sr, k), p + m)
  {
    if m > 0 {
      var j := k + m - 1;
      LfsrShift(sr, k, m - 1, p + 1);
      LfsrStepShift(sr, j, p);
    }
  }

  /** One step moves bit p + 1 of the register down to bit p. */
  lemma LfsrStepShift(sr: nat, k: nat, p: nat)
    requires p < 9
    ensures BitAt(LfsrState(sr, k + 1), p) == BitAt(LfsrState(sr, k), p + 1)
  {
    LfsrStateNext(sr, k);
    LfsrNextBits(LfsrState(sr, k), p);
  }

  /** What next() returns is bit 1 of the register. */
  lemma OutIsBitOne(sr: nat)
    ensures LfsrOut(sr) == BitAt(sr, 1)
  {
  }

  /**
   * The keystream obeys the recurrence of its feedback taps: output k is
   * output k - 5 xor output k - 9.
   */
  lemma {:induction false} LfsrRecurrence(sr: nat, k: nat)
    requires 9 <= k
    ensures LfsrOut(LfsrState(sr, k)) == XorBit(LfsrOut(LfsrState(sr, k - 5)), LfsrOut(LfsrState(sr, k - 9)))
  {
    var j := k - 9;
    OutIsBitOne(LfsrState(sr, j));
    OutIsBitOne(LfsrState(sr, k - 5));
    OutIsBitOne(LfsrState(sr, k));
    FeedbackReachesBitOne(sr, j);
    LfsrShift(sr, j, 4, 1);
  }

  /** The feedback bit written at step j + 1 is bit 1 eight steps later. */
  lemma FeedbackReachesBitOne(sr: nat, j: nat)
    ensures BitAt(LfsrState(sr, j + 9), 1) == XorBit(BitAt(LfsrState(sr, j), 5), BitAt(LfsrState(sr, j), 1))
  {
    LfsrShift(sr, j + 1, 8, 1);
    LfsrStateNext(sr, j);
    LfsrNextBits(LfsrState(sr, j), 9);
  }

  /** All bits below m of 2^m - 1 are set. */
  lemma {:induction false} LowOnes(m: nat, p: nat)
    requires p < m
    ensures BitAt(Pow2(m) - 1, p) == 1
  {
    var x := Pow2(m) - 1;
    assert x % 2 == 1 && x / 2 == Pow2(m - 1) - 1;
    if p > 0 {
      LowOnes(m - 1, p - 1);
    }
  }

  /**
   * The 120 scrambling bits: nine ones, then every bit is the xor of the
   * bits five and nine places before it.
   */
  lemma ScrambleBitsRecurrence(k: nat)
    requires k < 120
    ensures k < 9 ==> ScrambleBits()[k] == 1
    ensures k >= 9 ==> ScrambleBits()[k] == XorBit(ScrambleBits()[k - 5], ScrambleBits()[k - 9])
  {
    KeystreamRecurrence(LfsrSeed, 120, k);
  }

  lemma {:induction false} KeystreamRecurrence(sr: nat, n: nat, k: nat)
    requires k < n && sr == Pow2(10) - 1
    ensures k < 9 ==> Keystream(sr, n)[k] == 1
    ensures k >= 9 ==> Keystream(sr, n)[k] == XorBit(Keystream(sr, n)[k - 5], Keystream(sr, n)[k - 9])
  {
    if k < 9 {
      LowOnes(10, k + 1);
      KeystreamStart(sr, n, k);
    } else {
      KeystreamTail(sr, n, k);
    }
  }

  lemma {:induction false} KeystreamStart(sr: nat, n: nat, k: nat)
    requires k < n && k < 9 && BitAt(sr, k + 1) == 1
    ensures Keystream(sr, n)[k] == 1
  {
    LfsrShift(sr, 0, k, 1);
    OutIsBitOne(LfsrState(sr, k));
  }

  lemma {:induction false} KeystreamTail(sr: nat, n: nat, k: nat)
    requires 9 <= k < n
    ensures Keystream(sr, n)[k] == XorBit(Keystream(sr, n)[k - 5], Keystream(sr, n)[k - 9])
  {
    LfsrRecurrence(sr, k);
  }

  // ---------------------------------------------------------------------
  // CRC: bit-serial long division of the zero-augmented message by the
  // generator polynomial. A generator of degree w is written as the w
  // coefficients below its leading term, highest first.
  // ---------------------------------------------------------------------

  /** x^7 + x^3 + 1. */
  const Crc7Poly: seq<Bit> := [0, 0, 0, 1, 0, 0, 1]

  /** x^8 + x^2 + x + 1. */
  const Crc8Poly: seq<Bit> := [0, 0, 0, 0, 0, 1, 1, 1]

  /** Position k of the message followed by zeros. */
  function AugAt(data: seq<Bit>, k: nat): Bit
  {
    if k < |data| then data[k] else 0
  }

  function XorSeq(a: seq<Bit>, b: seq<Bit>): (r: seq<Bit>)
    requires |a| == |b|
    ensures |r| == |a|
  {
    seq(|a|, k requires 0 <= k < |a| => XorBit(a[k], b[k]))
  }

  function Zeros(n: nat): (r: seq<Bit>)
    ensures |r| == n
  {
    seq(n, k => 0)
  }

  /**
   * The |poly| positions i .. i + |poly| - 1 of the work buffer after the
   * division has cleared positions 0 .. i - 1: each step drops the leading
   * bit, shifts in the next message bit, and subtracts the generator when
   * the dropped bit was set.
   */
  function CrcWindow(data: seq<Bit>, poly: seq<Bit>, i: nat): (r: seq<Bit>)
    requires 0 < |poly| && i <= |data|
    ensures |r| == |poly|
  {
    if i == 0 then seq(|poly|, k requires 0 <= k < |poly| => AugAt(data, k))
    else ShiftIn(CrcWindow(data, poly, i - 1), AugAt(data, i - 1 + |poly|), poly)
  }

  /** One division step on the window: drop the top bit, shift in x, subtract on a one. */
  function ShiftIn(prev: seq<Bit>, x: Bit, poly: seq<Bit>): (r: seq<Bit>)
    requires 0 < |prev| == |poly|
    ensures |r| == |poly|
  {
    var shifted := prev[1..] + [x];
    if prev[0] == 1 then XorSeq(shifted, poly) else shifted
  }

  /** A division step is linear in the window and the incoming bit. */
  lemma ShiftInLinear(pa: seq<Bit>, pb: seq<Bit>, xa: Bit, xb: Bit, poly: seq<Bit>)
    requires 0 < |pa| == |pb| == |poly|
    ensures ShiftIn(XorSeq(pa, pb), XorBit(xa, xb), poly) == XorSeq(ShiftIn(pa, xa, poly), ShiftIn(pb, xb, poly))
  {
    var pc := XorSeq(pa, pb);
    var rc, ra, rb := ShiftIn(pc, XorBit(xa, xb), poly), ShiftIn(pa, xa, poly), ShiftIn(pb, xb, poly);
    forall k | 0 <= k < |poly|
      ensures rc[k] == XorBit(ra[k], rb[k])
    {
      if k + 1 < |poly| {
        assert pc[k + 1] == XorBit(pa[k + 1], pb[k + 1]);
      }
    }
  }

  /** Remainder of data * x^w divided by the generator. */
  function Crc(data: seq<Bit>, poly: seq<Bit>): (r: seq<Bit>)
    requires 0 < |poly|
    ensures |r| == |poly|
  {
    CrcWindow(data, poly, |data|)
  }

  /** The check bits following the first n bits match their remainder. */
  predicate CrcPasses(bits: seq<Bit>, n: nat, poly: seq<Bit>)
    requires 0 < |poly| && n + |poly| <= |bits|
  {
    bits[n..n + |poly|] == Crc(bits[..n], poly)
  }

  /**
   * One step of checkCRC7/checkCRC8 on the work buffer: a one at position
   * i is cleared and the generator's lower terms are flipped into the
   * positions after it.
   */
  function DivideStep(w: seq<Bit>, poly: seq<Bit>, i: nat): (r: seq<Bit>)
    requires i + |poly| < |w|
    ensures |r| == |w|
  {
    if w[i] == 1 then
      seq(|w|, k requires 0 <= k < |w| =>
        if k == i then 0 else if i < k <= i + |poly| then XorBit(w[k], poly[k - i - 1]) else w[k])
    else w
  }

  /** With CRC-8's generator a division step clears bit i and flips the three taps it names. */
  lemma Crc8Step(w: seq<Bit>, i: nat)
    requires i + 8 < |w|
    ensures DivideStep(w, Crc8Poly, i) ==
      if w[i] == 1 then w[i := 0][i + 6 := XorBit(w[i + 6], 1)][i + 7 := XorBit(w[i + 7], 1)][i + 8 := XorBit(w[i + 8], 1)]
      else w
  {
    if w[i] == 1 {
      var r := DivideStep(w, Crc8Poly, i);
      var t := w[i := 0][i + 6 := XorBit(w[i + 6], 1)][i + 7 := XorBit(w[i + 7], 1)][i + 8 := XorBit(w[i + 8], 1)];
      forall k | 0 <= k < |w|
        ensures r[k] == t[k]
      {
        if i < k <= i + 8 {
          assert Crc8Poly[k - i - 1] == if k >= i + 6 then 1 else 0;
        }
      }
    }
  }

  /** With CRC-7's generator a division step clears bit i and flips the two taps it names. */
  lemma Crc7Step(w: seq<Bit>, i: nat)
    requires i + 7 < |w|
    ensures DivideStep(w, Crc7Poly, i) ==
      if w[i] == 1 then w[i := 0][i + 4 := XorBit(w[i + 4], 1)][i + 7 := XorBit(w[i + 7], 1)]
      else w
  {
    if w[i] == 1 {
      var r := DivideStep(w, Crc7Poly, i);
      var t := w[i := 0][i + 4 := XorBit(w[i + 4], 1)][i + 7 := XorBit(w[i + 7], 1)];
      forall k | 0 <= k < |w|
        ensures r[k] == t[k]
      {
        if i < k <= i + 7 {
          assert Crc7Poly[k - i - 1] == if k == i + 4 || k == i + 7 then 1 else 0;
        }
      }
    }
  }

  /** The work buffer after the first i division steps. */
  function Divide(w: seq<Bit>, poly: seq<Bit>, i: nat): (r: seq<Bit>)
    requires i + |poly| <= |w|
    ensures |r| == |w|
  {
    if i == 0 then w else DivideStep(Divide(w, poly, i - 1), poly, i - 1)
  }

  /**
   * Dividing in place computes the remainder: after i steps over a buffer
   * holding the message and |poly| zeros, positions before i are clear,
   * the next |poly| positions hold the window, and nothing after it has
   * been touched.
   */
  lemma {:induction false} DivideComputesWindow(data: seq<Bit>, poly: seq<Bit>, w: seq<Bit>, i: nat)
    requires 0 < |poly| && i <= |data| && |data| + |poly| <= |w|
    requires forall k :: 0 <= k < |data| + |poly| ==> w[k] == AugAt(data, k)
    ensures Divide(w, poly, i)[..i] == Zeros(i)
    ensures Divide(w, poly, i)[i..i + |poly|] == CrcWindow(data, poly, i)
    ensures forall k :: i + |poly| <= k < |w| ==> Divide(w, poly, i)[k] == w[k]
  {
    if i > 0 {
      DivideComputesWindow(data, poly, w, i - 1);
      var prev := Divide(w, poly, i - 1);
      assert prev[i - 1 + |poly|] == w[i - 1 + |poly|] == AugAt(data, i - 1 + |poly|);
      DivideStepWindow(prev, poly, i - 1, CrcWindow(data, poly, i - 1), AugAt(data, i - 1 + |poly|));
    }
  }

  /** One in-place division step moves the window one position along, as ShiftIn does. */
  lemma DivideStepWindow(prev: seq<Bit>, poly: seq<Bit>, i: nat, win: seq<Bit>, x: Bit)
    requires 0 < |poly| && i + |poly| < |prev|
    requires prev[..i] == Zeros(i) && prev[i..i + |poly|] == win && prev[i + |poly|] == x
    ensures DivideStep(prev, poly, i)[..i + 1] == Zeros(i + 1)
    ensures DivideStep(prev, poly, i)[i + 1..i + 1 + |poly|] == ShiftIn(win, x, poly)
    ensures forall k :: i + |poly| < k < |prev| ==> DivideStep(prev, poly, i)[k] == prev[k]
  {
    var r := DivideStep(prev, poly, i);
    var win' := ShiftIn(win, x, poly);
    assert prev[i] == win[0];
    forall k | 0 <= k < |poly|
      ensures r[i + 1 + k] == win'[k]
    {
      if k + 1 < |poly| {
        assert prev[i + 1 + k] == win[k + 1];
      }
    }
    forall k | 0 <= k < i
      ensures r[k] == 0
    {
      assert prev[k] == Zeros(i)[k];
    }
    assert r[..i + 1] == Zeros(i + 1);
    assert r[i + 1..i + 1 + |poly|] == win';
  }

  function Flip(bits: seq<Bit>, p: nat): (r: seq<Bit>)
    requires p < |bits|
    ensures |r| == |bits|
  {
    bits[p := 1 - bits[p]]
  }

  /** The message with a single one at position e. */
  function Unit(n: nat, e: nat): (r: seq<Bit>)
    ensures |r| == n
  {
    seq(n, k => if k == e then 1 else 0)
  }

  /** Division is linear: the window of a xor b is the xor of the windows. */
  lemma {:induction false} CrcWindowLinear(a: seq<Bit>, b: seq<Bit>, poly: seq<Bit>, i: nat)
    requires |a| == |b| && 0 < |poly| && i <= |a|
    ensures CrcWindow(XorSeq(a, b), poly, i) == XorSeq(CrcWindow(a, poly, i), CrcWindow(b, poly, i))
  {
    var c := XorSeq(a, b);
    var w := |poly|;
    if i > 0 {
      CrcWindowLinear(a, b, poly, i - 1);
      var pa, pb, pc := CrcWindow(a, poly, i - 1), CrcWindow(b, poly, i - 1), CrcWindow(c, poly, i - 1);
      var ra, rb, rc := CrcWindow(a, poly, i), CrcWindow(b, poly, i), CrcWindow(c, poly, i);
      assert AugAt(c, i - 1 + w) == XorBit(AugAt(a, i - 1 + w), AugAt(b, i - 1 + w));
      ShiftInLinear(pa, pb, AugAt(a, i - 1 + w), AugAt(b, i - 1 + w), poly);
    } else {
      assert CrcWindow(c, poly, 0) == XorSeq(CrcWindow(a, poly, 0), CrcWindow(b, poly, 0));
    }
  }

  /** Until the single one of a unit message enters it, the window is zero. */
  lemma {:induction false} UnitWindowZero(n: nat, e: nat, poly: seq<Bit>, i: nat)
    requires 0 < |poly| && i <= n && i + |poly| <= e
    ensures CrcWindow(Unit(n, e), poly, i) == Zeros(|poly|)
  {
    if i > 0 {
      UnitWindowZero(n, e, poly, i - 1);
      var prev := CrcWindow(Unit(n, e), poly, i - 1);
      var r := CrcWindow(Unit(n, e), poly, i);
      assert prev[0] == 0 && AugAt(Unit(n, e), i - 1 + |poly|) == 0;
      forall k | 0 <= k < |poly|
        ensures r[k] == 0
      {
        if k + 1 < |poly| {
          assert prev[k + 1] == 0;
        }
      }
    }
  }

  /**
   * Once the one has entered the window, the window never becomes zero
   * again, because the generator has a constant term.
   */
  lemma {:induction false} UnitWindowNonZero(n: nat, e: nat, poly: seq<Bit>, i: nat)
    requires 0 < |poly| && poly[|poly| - 1] == 1 && e < n && i <= n && e < i + |poly|
    ensures CrcWindow(Unit(n, e), poly, i) != Zeros(|poly|)
  {
    var u := Unit(n, e);
    var w := |poly|;
    if i == 0 {
      assert CrcWindow(u, poly, 0)[e] == 1;
    } else if e == i - 1 + w {
      UnitWindowZero(n, e, poly, i - 1);
      assert CrcWindow(u, poly, i - 1)[0] == 0 && AugAt(u, e) == 1;
      assert CrcWindow(u, poly, i)[w - 1] == 1;
    } else {
      UnitWindowNonZero(n, e, poly, i - 1);
      var prev := CrcWindow(u, poly, i - 1);
      var r := CrcWindow(u, poly, i);
      assert AugAt(u, i - 1 + w) == 0;
      if prev[0] == 1 {
        assert r[w - 1] == 1;
      } else {
        var k :| 0 <= k < w && prev[k] != 0;
        assert r[k - 1] == 1;
      }
    }
  }

  /**
   * A block that passes the check fails it after any single bit flip in
   * its data or check bits.
   */
  lemma CrcDetectsSingleError(bits: seq<Bit>, n: nat, poly: seq<Bit>, p: nat)
    requires 0 < |poly| && poly[|poly| - 1] == 1 && n + |poly| <= |bits| && p < n + |poly|
    requires CrcPasses(bits, n, poly)
    ensures !CrcPasses(Flip(bits, p), n, poly)
  {
    var f := Flip(bits, p);
    if p < n {
      var data := bits[..n];
      assert f[..n] == XorSeq(data, Unit(n, p));
      assert f[n..n + |poly|] == bits[n..n + |poly|];
      CrcWindowLinear(data, Unit(n, p), poly, n);
      UnitWindowNonZero(n, p, poly, n);
      var u := Crc(Unit(n, p), poly);
      var k :| 0 <= k < |poly| && u[k] != 0;
      assert Crc(f[..n], poly)[k] != Crc(data, poly)[k];
    } else {
      assert f[..n] == bits[..n];
      assert f[p] != bits[p];
      assert f[n..n + |poly|][p - n] != bits[n..n + |poly|][p - n];
    }
  }

  // ---------------------------------------------------------------------
  // Hamming(12,8): syndromes of a 12-bit codeword.
  // ---------------------------------------------------------------------

  /** Sum of the first m products of codeword bits with parity-check row `row`. */
  function Dot(cw: seq<Bit>, row: nat, m: nat): nat
    requires |cw| == 12 && row < 4 && m <= 12
  {
    if m == 0 then 0 else Dot(cw, row, m - 1) + cw[m - 1] * H(row, m - 1)
  }

  /** Parity check `row` of the codeword. */
  function Check(cw: seq<Bit>, row: nat): Bit
    requires |cw| == 12 && row < 4
  {
    Dot(cw, row, 12) % 2
  }

  /**
   * The syndrome as decode() accumulates it over the first `rows` parity
   * checks: check i is added as bit i.
   */
  function PartialLsbFirst(cw: seq<Bit>, rows: nat): (s: nat)
    requires |cw| == 12 && rows <= 4
    ensures s < Pow2(rows)
  {
    if rows == 0 then 0 else PartialLsbFirst(cw, rows - 1) + Check(cw, rows - 1) * Pow2(rows - 1)
  }

  /** The same checks read with check 0 as the most significant bit. */
  function PartialMsbFirst(cw: seq<Bit>, rows: nat): (s: nat)
    requires |cw| == 12 && rows <= 4
    ensures s < Pow2(rows)
  {
    if rows == 0 then 0 else 2 * PartialMsbFirst(cw, rows - 1) + Check(cw, rows - 1)
  }

  /** The syndrome decode() computes: parity check i is bit i. */
  function SyndromeLsbFirst(cw: seq<Bit>): (s: nat)
    requires |cw| == 12
    ensures s < 16
  {
    PartialLsbFirst(cw, 4)
  }

  /** The syndrome in the order the correction table is keyed: parity check 0 is bit 3. */
  function SyndromeMsbFirst(cw: seq<Bit>): (s: nat)
    requires |cw| == 12
    ensures s < 16
  {
    PartialMsbFirst(cw, 4)
  }

  lemma SyndromesExpanded(cw: seq<Bit>)
    requires |cw| == 12
    ensures SyndromeLsbFirst(cw) == Check(cw, 0) + 2 * Check(cw, 1) + 4 * Check(cw, 2) + 8 * Check(cw, 3)
    ensures SyndromeMsbFirst(cw) == 8 * Check(cw, 0) + 4 * Check(cw, 1) + 2 * Check(cw, 2) + Check(cw, 3)
  {
    assert Pow2(1) == 2 && Pow2(2) == 4 && Pow2(3) == 8;
    assert PartialLsbFirst(cw, 1) == Check(cw, 0);
    assert PartialLsbFirst(cw, 2) == Check(cw, 0) + 2 * Check(cw, 1);
    assert PartialLsbFirst(cw, 3) == Check(cw, 0) + 2 * Check(cw, 1) + 4 * Check(cw, 2);
    assert PartialMsbFirst(cw, 1) == Check(cw, 0);
    assert PartialMsbFirst(cw, 2) == 2 * Check(cw, 0) + Check(cw, 1);
    assert PartialMsbFirst(cw, 3) == 4 * Check(cw, 0) + 2 * Check(cw, 1) + Check(cw, 2);
  }

  lemma {:induction false} DotZeros(row: nat, m: nat)
    requires row < 4 && m <= 12
    ensures Dot(Zeros(12), row, m) == 0
  {
    if m > 0 {
      DotZeros(row, m - 1);
    }
  }

  /** The all-zero codeword is valid. */
  lemma ZerosValid()
    ensures SyndromeMsbFirst(Zeros(12)) == 0 && SyndromeLsbFirst(Zeros(12)) == 0
  {
    DotZeros(0, 12);
    DotZeros(1, 12);
    DotZeros(2, 12);
    DotZeros(3, 12);
    SyndromesExpanded(Zeros(12));
  }

  /** Codeword ic of a buffer of consecutive 12-bit codewords. */
  function Codeword(rx: seq<Bit>, ic: nat): (cw: seq<Bit>)
    requires 12 * ic + 12 <= |rx|
    ensures |cw| == 12
  {
    rx[12 * ic .. 12 * ic + 12]
  }

  /** A buffer is its codeword ic put back between the bits before and after it. */
  lemma WordInPlace(rx: seq<Bit>, ic: nat)
    requires 12 * ic + 12 <= |rx|
    ensures rx == rx[..12 * ic] + Codeword(rx, ic) + rx[12 * ic + 12..]
  {
    assert rx == rx[..12 * ic] + rx[12 * ic..12 * ic + 12] + rx[12 * ic + 12..];
  }

  /** Flipping bit j of codeword ic in place flips bit j of that codeword and nothing else. */
  lemma FlipInWord(rx: seq<Bit>, ic: nat, j: nat)
    requires 12 * ic + 12 <= |rx| && j < 12
    ensures rx[12 * ic + j := 1 - rx[12 * ic + j]] == rx[..12 * ic] + Flip(Codeword(rx, ic), j) + rx[12 * ic + 12..]
  {
    var r := rx[12 * ic + j := 1 - rx[12 * ic + j]];
    var t := rx[..12 * ic] + Flip(Codeword(rx, ic), j) + rx[12 * ic + 12..];
    assert |r| == |t|;
    forall q | 0 <= q < |r|
      ensures r[q] == t[q]
    {
      if q < 12 * ic {
      } else if q < 12 * ic + 12 {
        assert t[q] == Flip(Codeword(rx, ic), j)[q - 12 * ic];
      } else {
        assert t[q] == rx[12 * ic + 12..][q - 12 * ic - 12];
      }
    }
  }

  /** Flipping bit j of a codeword flips parity check `row` exactly when column j takes part in it. */
  lemma {:induction false} DotFlip(cw: seq<Bit>, j: nat, row: nat, m: nat)
    requires |cw| == 12 && j < 12 && row < 4 && m <= 12
    ensures Dot(Flip(cw, j), row, m) == Dot(cw, row, m) + (if j < m then (1 - 2 * cw[j]) * H(row, j) else 0)
  {
    if m > 0 {
      DotFlip(cw, j, row, m - 1);
      if m - 1 == j {
        FlipProduct(cw[j], H(row, j));
      } else {
        assert Flip(cw, j)[m - 1] == cw[m - 1];
      }
    }
  }

  lemma FlipProduct(x: Bit, h: Bit)
    ensures (1 - x) * h == x * h + (1 - 2 * x) * h
  {
  }

  lemma CheckFlip(cw: seq<Bit>, j: nat, row: nat)
    requires |cw| == 12 && j < 12 && row < 4
    ensures Check(Flip(cw, j), row) == XorBit(Check(cw, row), H(row, j))
  {
    DotFlip(cw, j, row, 12);
  }

  /** The syndrome (most significant first) that a single error in column j produces. */
  function ColumnMsbFirst(j: nat): (s: nat)
    requires j < 12
  {
    8 * H(0, j) + 4 * H(1, j) + 2 * H(2, j) + H(3, j)
  }

  /** The syndrome (least significant first) that a single error in column j produces. */
  function ColumnLsbFirst(j: nat): (s: nat)
    requires j < 12
  {
    H(0, j) + 2 * H(1, j) + 4 * H(2, j) + 8 * H(3, j)
  }

  /** A single error in a valid codeword shows its column as syndrome, in either bit order. */
  lemma SingleErrorSyndrome(cw: seq<Bit>, j: nat)
    requires |cw| == 12 && j < 12 && SyndromeMsbFirst(cw) == 0
    ensures SyndromeLsbFirst(cw) == 0
    ensures SyndromeMsbFirst(Flip(cw, j)) == ColumnMsbFirst(j)
    ensures SyndromeLsbFirst(Flip(cw, j)) == ColumnLsbFirst(j)
  {
    var f := Flip(cw, j);
    SyndromesExpanded(cw);
    SyndromesExpanded(f);
    assert Check(cw, 0) == 0 && Check(cw, 1) == 0 && Check(cw, 2) == 0 && Check(cw, 3) == 0;
    CheckFlip(cw, j, 0);
    CheckFlip(cw, j, 1);
    CheckFlip(cw, j, 2);
    CheckFlip(cw, j, 3);
    assert Check(f, 0) == H(0, j) && Check(f, 1) == H(1, j) && Check(f, 2) == H(2, j) && Check(f, 3) == H(3, j);
  }

  predicate ColumnKeys(j: nat)
    requires j < 12
  {
    && (j < 8 ==> CorrTable[ColumnMsbFirst(j)] == j)
    && (j >= 8 ==> CorrTable[ColumnMsbFirst(j)] == Uncorrectable && CorrTable[ColumnLsbFirst(j)] == Uncorrectable)
    && ColumnMsbFirst(j) > 0
  }

  /**
   * The correction table names column j for the most-significant-first
   * syndrome of every data column, and has no entry for the check columns.
   */
  lemma CorrTableKeys(j: nat)
    requires j < 12
    ensures ColumnKeys(j)
  {
    if j == 0 { ColumnKeys0(); }
    else if j == 1 { ColumnKeys1(); }
    else if j == 2 { ColumnKeys2(); }
    else if j == 3 { ColumnKeys3(); }
    else if j == 4 { ColumnKeys4(); }
    else if j == 5 { ColumnKeys5(); }
    else if j == 6 { ColumnKeys6(); }
    else if j == 7 { ColumnKeys7(); }
    else if j == 8 { ColumnKeys8(); }
    else if j == 9 { ColumnKeys9(); }
    else if j == 10 { ColumnKeys10(); }
    else { ColumnKeys11(); }
  }

  lemma ColumnKeys0()
    ensures ColumnKeys(0)
  {
    assert H(0, 0) == 1 && H(1, 0) == 1 && H(2, 0) == 1 && H(3, 0) == 0;
    assert ColumnMsbFirst(0) == 14;
  }

  lemma ColumnKeys1()
    ensures ColumnKeys(1)
  {
    assert H(0, 1) == 0 && H(1, 1) == 1 && H(2, 1) == 1 && H(3, 1) == 1;
    assert ColumnMsbFirst(1) == 7;
  }

  lemma ColumnKeys2()
    ensures ColumnKeys(2)
  {
    assert H(0, 2) == 1 && H(1, 2) == 0 && H(2, 2) == 1 && H(3, 2) == 0;
    assert ColumnMsbFirst(2) == 10;
  }

  lemma ColumnKeys3()
    ensures ColumnKeys(3)
  {
    assert H(0, 3) == 0 && H(1, 3) == 1 && H(2, 3) == 0 && H(3, 3) == 1;
    assert ColumnMsbFirst(3) == 5;
  }

  lemma ColumnKeys4()
    ensures ColumnKeys(4)
  {
    assert H(0, 4) == 1 && H(1, 4) == 0 && H(2, 4) == 1 && H(3, 4) == 1;
    assert ColumnMsbFirst(4) == 11;
  }

  lemma ColumnKeys5()
    ensures ColumnKeys(5)
  {
    assert H(0, 5) == 1 && H(1, 5) == 1 && H(2, 5) == 0 && H(3, 5) == 0;
    assert ColumnMsbFirst(5) == 12;
  }

  lemma ColumnKeys6()
    ensures ColumnKeys(6)
  {
    assert H(0, 6) == 0 && H(1, 6) == 1 && H(2, 6) == 1 && H(3, 6) == 0;
    assert ColumnMsbFirst(6) == 6;
  }

  lemma ColumnKeys7()
    ensures ColumnKeys(7)
  {
    assert H(0, 7) == 0 && H(1, 7) == 0 && H(2, 7) == 1 && H(3, 7) == 1;
    assert ColumnMsbFirst(7) == 3;
  }

  /** The syndromes of a single check-bit error name no data position. */
  lemma UncorrectableKeys()
    ensures CorrTable[1] == CorrTable[2] == CorrTable[4] == CorrTable[8] == Uncorrectable
  {
    assert CorrTable[..9] == [0xFF, 0xFF, 0xFF, 7, 0xFF, 3, 6, 1, 0xFF];
  }

  lemma ColumnKeys8()
    ensures ColumnKeys(8)
  {
    assert H(0, 8) == 1 && H(1, 8) == 0 && H(2, 8) == 0 && H(3, 8) == 0;
    assert ColumnMsbFirst(8) == 8;
    assert ColumnLsbFirst(8) == 1;
    UncorrectableKeys();
  }

  lemma ColumnKeys9()
    ensures ColumnKeys(9)
  {
    assert H(0, 9) == 0 && H(1, 9) == 1 && H(2, 9) == 0 && H(3, 9) == 0;
    assert ColumnMsbFirst(9) == 4;
    assert ColumnLsbFirst(9) == 2;
    UncorrectableKeys();
  }

  lemma ColumnKeys10()
    ensures ColumnKeys(10)
  {
    assert H(0, 10) == 0 && H(1, 10) == 0 && H(2, 10) == 1 && H(3, 10) == 0;
    assert ColumnMsbFirst(10) == 2;
    assert ColumnLsbFirst(10) == 4;
    UncorrectableKeys();
  }

  lemma ColumnKeys11()
    ensures ColumnKeys(11)
  {
    assert H(0, 11) == 0 && H(1, 11) == 0 && H(2, 11) == 0 && H(3, 11) == 1;
    assert ColumnMsbFirst(11) == 1;
    assert ColumnLsbFirst(11) == 8;
    UncorrectableKeys();
  }

  // ---------------------------------------------------------------------
  // The decoder with its syndrome in the table's bit order and its flip
  // inside the codeword being decoded.
  // ---------------------------------------------------------------------

  /** Whether the table offers a correction for the codeword's syndrome (or none is needed). */
  predicate Correctable(cw: seq<Bit>)
    requires |cw| == 12
  {
    var s := SyndromeMsbFirst(cw);
    s == 0 || CorrTable[s] != Uncorrectable
  }

  /** The codeword after single-error correction. */
  function Corrected(cw: seq<Bit>): (r: seq<Bit>)
    requires |cw| == 12
    ensures |r| == 12
  {
    var s := SyndromeMsbFirst(cw);
    if s > 0 && CorrTable[s] != Uncorrectable then Flip(cw, CorrTable[s]) else cw
  }

  /** A valid codeword passes unchanged. */
  lemma CorrectedValid(cw: seq<Bit>)
    requires |cw| == 12 && SyndromeMsbFirst(cw) == 0
    ensures Correctable(cw) && Corrected(cw) == cw
  {
  }

  /**
   * A single error in a valid codeword is corrected when it hits a data
   * bit, and is reported uncorrectable (leaving the data intact) when it
   * hits a check bit.
   */
  lemma CorrectsSingleError(cw: seq<Bit>, j: nat)
    requires |cw| == 12 && j < 12 && SyndromeMsbFirst(cw) == 0
    ensures Correctable(Flip(cw, j)) <==> j < 8
    ensures j < 8 ==> Corrected(Flip(cw, j)) == cw
    ensures Corrected(Flip(cw, j))[..8] == cw[..8]
  {
    SingleErrorSyndrome(cw, j);
    CorrTableKeys(j);
    if j < 8 {
      assert Flip(Flip(cw, j), j) == cw;
    }
  }

  /** The 8 data bits of each of the first nb codewords, after correction. */
  function DecodedData(rx: seq<Bit>, nb: nat): (r: seq<Bit>)
    requires 12 * nb <= |rx|
    ensures |r| == 8 * nb
  {
    seq(8 * nb, p requires 0 <= p < 8 * nb => Corrected(Codeword(rx, p / 8))[p % 8])
  }

  /** The buffer with its first nb codewords corrected in place. */
  function CorrectedAll(rx: seq<Bit>, nb: nat): (r: seq<Bit>)
    requires 12 * nb <= |rx|
    ensures |r| == |rx|
  {
    seq(|rx|, q requires 0 <= q < |rx| => if q < 12 * nb then Corrected(Codeword(rx, q / 12))[q % 12] else rx[q])
  }

  predicate AllCorrectable(rx: seq<Bit>, nb: nat)
    requires 12 * nb <= |rx|
  {
    forall ic :: 0 <= ic < nb ==> Correctable(Codeword(rx, ic))
  }

  /** Correcting one more codeword replaces that codeword's 12 bits and nothing else. */
  lemma CorrectedAllStep(rx: seq<Bit>, ic: nat)
    requires 12 * ic + 12 <= |rx|
    ensures CorrectedAll(rx, ic + 1) == CorrectedAll(rx, ic)[..12 * ic] + Corrected(Codeword(rx, ic)) + rx[12 * ic + 12..]
    ensures CorrectedAll(rx, ic)[12 * ic..] == rx[12 * ic..]
  {
    var a := CorrectedAll(rx, ic + 1);
    var b := CorrectedAll(rx, ic)[..12 * ic] + Corrected(Codeword(rx, ic)) + rx[12 * ic + 12..];
    forall q | 0 <= q < |rx|
      ensures a[q] == b[q]
    {
      if 12 * ic <= q < 12 * ic + 12 {
        assert q / 12 == ic;
      }
    }
  }

  /** CorrectedAllStep restated over the buffer the first ic codewords' correction left. */
  lemma CorrectedAllSlide(rx: seq<Bit>, ic: nat)
    requires 12 * ic + 12 <= |rx|
    ensures var c := CorrectedAll(rx, ic);
      && Codeword(c, ic) == Codeword(rx, ic)
      && CorrectedAll(rx, ic + 1) == c[..12 * ic] + Corrected(Codeword(c, ic)) + c[12 * ic + 12..]
  {
    var c := CorrectedAll(rx, ic);
    CorrectedAllStep(rx, ic);
    assert c[12 * ic + 12..] == c[12 * ic..][12..];
    assert Codeword(c, ic) == c[12 * ic..][..12];
  }

  /** Decoding one more codeword appends its corrected data bits. */
  lemma DecodedDataStep(rx: seq<Bit>, ic: nat)
    requires 12 * ic + 12 <= |rx|
    ensures DecodedData(rx, ic + 1) == DecodedData(rx, ic) + Corrected(Codeword(rx, ic))[..8]
  {
    var a := DecodedData(rx, ic + 1);
    var b := DecodedData(rx, ic) + Corrected(Codeword(rx, ic))[..8];
    forall p | 0 <= p < 8 * ic + 8
      ensures a[p] == b[p]
    {
      if 8 * ic <= p {
        assert p / 8 == ic;
      }
    }
  }

  lemma AllCorrectableStep(rx: seq<Bit>, ic: nat)
    requires 12 * ic + 12 <= |rx|
    ensures AllCorrectable(rx, ic + 1) <==> AllCorrectable(rx, ic) && Correctable(Codeword(rx, ic))
  {
  }

  /** The received buffer after correction, the data bits copied out so far, and the status. */
  datatype HammingOutcome = HammingOutcome(rx: seq<Bit>, decoded: seq<Bit>, correctable: bool)

  /**
   * decode() on codeword ic with the syndrome in the table's bit order and
   * the flip inside the codeword, given the state the codewords before it
   * left.
   */
  function DecodeStep(o: HammingOutcome, ic: nat): (r: HammingOutcome)
    requires 12 * ic + 12 <= |o.rx|
    ensures |r.rx| == |o.rx| && |r.decoded| == |o.decoded| + 8
  {
    var cw := Codeword(o.rx, ic);
    var fixed := Corrected(cw);
    HammingOutcome(o.rx[..12 * ic] + fixed + o.rx[12 * ic + 12..], o.decoded + fixed[..8], o.correctable && Correctable(cw))
  }

  /** The corrected decode() over the first nb codewords, one codeword after another. */
  function DecodeCorrected(rx: seq<Bit>, nb: nat): (r: HammingOutcome)
    requires 12 * nb <= |rx|
    ensures |r.rx| == |rx| && |r.decoded| == 8 * nb
  {
    if nb == 0 then HammingOutcome(rx, [], true)
    else DecodeStep(DecodeCorrected(rx, nb - 1), nb - 1)
  }

  /** One corrected decode() step keeps the outcome equal to the blockwise definitions. */
  lemma DecodeStepMeaning(rx: seq<Bit>, ic: nat, o: HammingOutcome)
    requires 12 * ic + 12 <= |rx|
    requires o == HammingOutcome(CorrectedAll(rx, ic), DecodedData(rx, ic), AllCorrectable(rx, ic))
    ensures DecodeStep(o, ic) == HammingOutcome(CorrectedAll(rx, ic + 1), DecodedData(rx, ic + 1), AllCorrectable(rx, ic + 1))
  {
    CorrectedAllSlide(rx, ic);
    DecodedDataStep(rx, ic);
    AllCorrectableStep(rx, ic);
  }

  /**
   * Decoding codeword after codeword corrects every codeword on its own:
   * the buffer, the data and the status agree with the blockwise
   * definitions.
   */
  lemma {:induction false} DecodeCorrectedMeaning(rx: seq<Bit>, nb: nat)
    requires 12 * nb <= |rx|
    ensures DecodeCorrected(rx, nb) == HammingOutcome(CorrectedAll(rx, nb), DecodedData(rx, nb), AllCorrectable(rx, nb))
  {
    if nb > 0 {
      var ic := nb - 1;
      DecodeCorrectedMeaning(rx, ic);
      DecodeStepMeaning(rx, ic, DecodeCorrected(rx, ic));
    }
  }

  /**
   * Copying a codeword's 8 data bits into the output extends the decoded
   * prefix by them and leaves the rest of the output alone.
   */
  lemma SpliceData(prev: seq<Bit>, db0: seq<Bit>, ic: nat, word: seq<Bit>, before: seq<Bit>, after: seq<Bit>)
    requires |prev| == 8 * ic && 8 * ic + 8 <= |db0| && |word| == 8
    requires before == prev + db0[8 * ic..]
    requires after == before[..8 * ic] + word + before[8 * ic + 8..]
    ensures after == (prev + word) + db0[8 * (ic + 1)..]
  {
    assert before[..8 * ic] == prev;
    assert before[8 * ic + 8..] == db0[8 * (ic + 1)..];
  }

  /**
   * The Hamming(12,8) decoder as written: parity-check matrix H and the
   * correction table filled by init(); decode() reads the syndrome with
   * parity check 0 as its least significant bit and flips the buffer bit
   * the table names, without the codeword offset.
   */
  class Hamming {
    /** The correction table: the codeword bit to flip for each syndrome, or Uncorrectable. */
    const corr: seq<int>

    ghost predicate Valid()
    {
      corr == CorrTable
    }

    /** The table init() builds: every syndrome invalid, then the eight data columns. */
    constructor()
      ensures Valid()
    {
      var c := new int[16];
      var i := 0;
      while i < 16
        invariant 0 <= i <= 16
        invariant forall k :: 0 <= k < i ==> c[k] == Uncorrectable
      {
        c[i] := Uncorrectable;
        i := i + 1;
      }
      c[0xE] := 0;
      c[0x7] := 1;
      c[0xA] := 2;
      c[0x5] := 3;
      c[0xB] := 4;
      c[0xC] := 5;
      c[0x6] := 6;
      c[0x3] := 7;
      corr := c[..];
    }

    /**
     * Decodes nb consecutive codewords of rxBits, "correcting" each in place
     * and copying its 8 data bits to decodedBits; the result says whether
     * every syndrome was zero or had a table entry.
     */
    method Decode(rxBits: array<Bit>, decodedBits: array<Bit>, nb: nat) returns (correctable: bool)
      requires Valid()
      requires 12 * nb <= rxBits.Length && 8 * nb <= decodedBits.Length && rxBits != decodedBits
      modifies rxBits, decodedBits
      ensures rxBits[..] == DecodeAsWritten(old(rxBits[..]), nb).rx
      ensures decodedBits[..] == DecodeAsWritten(old(rxBits[..]), nb).decoded + old(decodedBits[8 * nb..])
      ensures correctable == DecodeAsWritten(old(rxBits[..]), nb).correctable
    {
      ghost var rx0 := rxBits[..];
      ghost var db0 := decodedBits[..];
      correctable := true;
      var ic := 0;
      while ic < nb
        invariant 0 <= ic <= nb
        invariant rxBits[..] == DecodeAsWritten(rx0, ic).rx
        invariant decodedBits[..] == DecodeAsWritten(rx0, ic).decoded + db0[8 * ic..]
        invariant correctable == DecodeAsWritten(rx0, ic).correctable
      {
        correctable := DecodeCodeword(rxBits, decodedBits, ic, correctable, rx0, db0);
        ic := ic + 1;
      }
      assert ic == nb;
    }

    /**
     * One pass of decode()'s loop: applies the table's flip, copies the
     * codeword's data bits behind the data already decoded and folds its
     * status into the running one.
     */
    method DecodeCodeword(rxBits: array<Bit>, decodedBits: array<Bit>, ic: nat, correctable: bool, ghost rx0: seq<Bit>, ghost db0: seq<Bit>)
      returns (correctable': bool)
      requires Valid() && rxBits != decodedBits
      requires 12 * ic + 12 <= |rx0| == rxBits.Length && 8 * ic + 8 <= |db0|
      requires rxBits[..] == DecodeAsWritten(rx0, ic).rx
      requires decodedBits[..] == DecodeAsWritten(rx0, ic).decoded + db0[8 * ic..]
      requires correctable == DecodeAsWritten(rx0, ic).correctable
      modifies rxBits, decodedBits
      ensures rxBits[..] == DecodeAsWritten(rx0, ic + 1).rx
      ensures decodedBits[..] == DecodeAsWritten(rx0, ic + 1).decoded + db0[8 * (ic + 1)..]
      ensures correctable' == DecodeAsWritten(rx0, ic + 1).correctable
    {
      ghost var o := DecodeAsWritten(rx0, ic);
      assert DecodeAsWritten(rx0, ic + 1) == AsWrittenStep(o, ic);
      var fixable := CorrectCodeword(rxBits, ic, o);
      correctable' := correctable && fixable;
      ghost var before := decodedBits[..];
      CopyData(rxBits, decodedBits, ic);
      SpliceData(o.decoded, db0, ic, rxBits[12 * ic .. 12 * ic + 8], before, decodedBits[..]);
    }

    /**
     * Computes codeword ic's syndrome and, when the table has an entry for
     * it, flips the buffer bit the entry names (counted from the start of
     * the buffer); says whether the syndrome was zero or had an entry.
     */
    method CorrectCodeword(rxBits: array<Bit>, ic: nat, ghost o: HammingOutcome) returns (fixable: bool)
      requires Valid()
      requires 12 * ic + 12 <= rxBits.Length && rxBits[..] == o.rx
      modifies rxBits
      ensures rxBits[..] == AsWrittenStep(o, ic).rx
      ensures fixable <==> AsWrittenFixable(Codeword(o.rx, ic))
    {
      var syndrome := Syndrome(rxBits, ic);
      fixable := true;
      if syndrome > 0 {
        if corr[syndrome] == Uncorrectable {
          fixable := false;
        } else {
          var p := corr[syndrome];
          rxBits[p] := 1 - rxBits[p];
          assert rxBits[..] == Flip(o.rx, p);
        }
      }
    }

    /** The syndrome of codeword ic as decode() builds it: parity check i is bit i. */
    method Syndrome(rxBits: array<Bit>, ic: nat) returns (syndrome: nat)
      requires 12 * ic + 12 <= rxBits.Length
      ensures syndrome == SyndromeLsbFirst(Codeword(rxBits[..], ic))
    {
      ghost var cw := Codeword(rxBits[..], ic);
      syndrome := 0;
      var row := 0;
      while row < 4
        invariant 0 <= row <= 4
        invariant syndrome == PartialLsbFirst(cw, row)
      {
        var dot := RowDot(rxBits, ic, row);
        syndrome := syndrome + (dot % 2) * Pow2(row);
        row := row + 1;
      }
    }
  }

  /** Parity check `row` of codeword ic, before reduction mod 2. */
  method RowDot(rxBits: array<Bit>, ic: nat, row: nat) returns (dot: nat)
    requires 12 * ic + 12 <= rxBits.Length && row < 4
    ensures dot == Dot(Codeword(rxBits[..], ic), row, 12)
  {
    ghost var cw := Codeword(rxBits[..], ic);
    dot := 0;
    var j := 0;
    while j < 12
      invariant 0 <= j <= 12
      invariant dot == Dot(cw, row, j)
    {
      dot := dot + rxBits[12 * ic + j] * H(row, j);
      j := j + 1;
    }
  }

  /** The memcpy of a codeword's 8 data bits to position 8 * ic of the output. */
  method CopyData(rxBits: array<Bit>, decodedBits: array<Bit>, ic: nat)
    requires 12 * ic + 12 <= rxBits.Length && 8 * ic + 8 <= decodedBits.Length && rxBits != decodedBits
    modifies decodedBits
    ensures decodedBits[..] == old(decodedBits[..8 * ic]) + rxBits[12 * ic .. 12 * ic + 8] + old(decodedBits[8 * ic + 8..])
  {
    forall k | 0 <= k < 8 {
      decodedBits[8 * ic + k] := rxBits[12 * ic + k];
    }
  }

  // ---------------------------------------------------------------------
  // The decoder as written: the syndrome puts parity check 0 in the least
  // significant bit, the table is keyed with it in the most significant
  // bit, and the flip indexes the buffer without the codeword offset.
  // ---------------------------------------------------------------------

  /** Codeword ic as decode() treats it, given the state left by codewords 0 .. ic - 1. */
  function AsWrittenStep(o: HammingOutcome, ic: nat): (r: HammingOutcome)
    requires 12 * ic + 12 <= |o.rx|
    ensures |r.rx| == |o.rx| && |r.decoded| == |o.decoded| + 8
    ensures r.rx[8..] == o.rx[8..]
  {
    var s := SyndromeLsbFirst(Codeword(o.rx, ic));
    var fixable := s == 0 || CorrTable[s] != Uncorrectable;
    var rx' := if s > 0 && CorrTable[s] != Uncorrectable then Flip(o.rx, CorrTable[s]) else o.rx;
    HammingOutcome(rx', o.decoded + rx'[12 * ic .. 12 * ic + 8], o.correctable && fixable)
  }

  /** decode() as written over the first nb codewords; only bits of codeword 0's data are ever flipped. */
  function DecodeAsWritten(rx: seq<Bit>, nb: nat): (r: HammingOutcome)
    requires 12 * nb <= |rx|
    ensures |r.rx| == |rx| && |r.decoded| == 8 * nb
    ensures nb > 0 ==> r.rx[8..] == rx[8..]
  {
    if nb == 0 then HammingOutcome(rx, [], true)
    else AsWrittenStep(DecodeAsWritten(rx, nb - 1), nb - 1)
  }

  /** Whether decode() as written accepts a codeword: its syndrome, read check 0 first, is zero or has a table entry. */
  predicate AsWrittenFixable(cw: seq<Bit>)
    requires |cw| == 12
  {
    var s := SyndromeLsbFirst(cw);
    s == 0 || CorrTable[s] != Uncorrectable
  }

  predicate AllAsWrittenFixable(rx: seq<Bit>, nb: nat)
    requires 12 * nb <= |rx|
  {
    forall ic :: 0 <= ic < nb ==> AsWrittenFixable(Codeword(rx, ic))
  }

  lemma AllAsWrittenFixableStep(rx: seq<Bit>, ic: nat)
    requires 12 * ic + 12 <= |rx|
    ensures AllAsWrittenFixable(rx, ic + 1) <==> AllAsWrittenFixable(rx, ic) && AsWrittenFixable(Codeword(rx, ic))
  {
  }

  /**
   * decode() as written returns true exactly when every codeword's
   * syndrome, read check 0 first, is zero or found in the table.
   */
  lemma {:induction false} DecodeAsWrittenAccepts(rx: seq<Bit>, nb: nat)
    requires 12 * nb <= |rx|
    ensures DecodeAsWritten(rx, nb).correctable <==> AllAsWrittenFixable(rx, nb)
  {
    if nb > 0 {
      var ic := nb - 1;
      DecodeAsWrittenAccepts(rx, ic);
      AsWrittenStepFacts(DecodeAsWritten(rx, ic), ic, rx);
      AllAsWrittenFixableStep(rx, ic);
    }
  }

  /**
   * The data of every codeword after the first are copied as received by
   * decode() as written: its misplaced flips only ever land in codeword 0.
   */
  lemma {:induction false} DecodeAsWrittenCopies(rx: seq<Bit>, nb: nat)
    requires 12 * nb <= |rx|
    ensures forall ic :: 1 <= ic < nb ==> DecodeAsWritten(rx, nb).decoded[8 * ic .. 8 * ic + 8] == Codeword(rx, ic)[..8]
  {
    if nb > 0 {
      DecodeAsWrittenCopies(rx, nb - 1);
      var o := DecodeAsWritten(rx, nb - 1);
      AsWrittenStepFacts(o, nb - 1, rx);
      CopiedWordsGrow(o.decoded, DecodeAsWritten(rx, nb).decoded, rx, nb - 1);
    }
  }

  /** Appending codeword n's copied data to n words copied as received gives n + 1 of them. */
  lemma CopiedWordsGrow(prev: seq<Bit>, next: seq<Bit>, rx: seq<Bit>, n: nat)
    requires 12 * n + 12 <= |rx| && |prev| == 8 * n && |next| == 8 * n + 8 && next[..8 * n] == prev
    requires n > 0 ==> next[8 * n .. 8 * n + 8] == Codeword(rx, n)[..8]
    requires forall ic :: 1 <= ic < n ==> prev[8 * ic .. 8 * ic + 8] == Codeword(rx, ic)[..8]
    ensures forall ic :: 1 <= ic < n + 1 ==> next[8 * ic .. 8 * ic + 8] == Codeword(rx, ic)[..8]
  {
    forall ic | 1 <= ic < n
      ensures next[8 * ic .. 8 * ic + 8] == Codeword(rx, ic)[..8]
    {
      SliceBefore(prev, next, 8 * ic, 8 * ic + 8);
    }
  }

  lemma SliceBefore(a: seq<Bit>, b: seq<Bit>, lo: nat, hi: nat)
    requires lo <= hi <= |a| <= |b| && b[..|a|] == a
    ensures b[lo..hi] == a[lo..hi]
  {
    forall k | lo <= k < hi
      ensures b[k] == a[k]
    {
      assert b[..|a|][k] == b[k];
    }
  }

  /**
   * decode() as written reports a single error in one of the check columns
   * 8 .. 11 of a valid codeword as uncorrectable: syndromes 1, 2, 4 and 8
   * have no table entry.
   */
  lemma AsWrittenRejectsCheckError(cw: seq<Bit>, j: nat)
    requires |cw| == 12 && 8 <= j < 12 && SyndromeMsbFirst(cw) == 0
    ensures AsWrittenFixable(cw) && !AsWrittenFixable(Flip(cw, j))
  {
    SingleErrorSyndrome(cw, j);
    CorrTableKeys(j);
  }

  /** One codeword as written, once the earlier ones have at most changed codeword 0's data. */
  lemma AsWrittenStepFacts(o: HammingOutcome, ic: nat, rx: seq<Bit>)
    requires 12 * ic + 12 <= |o.rx| == |rx| && |o.decoded| == 8 * ic
    requires if ic == 0 then o.rx == rx else o.rx[8..] == rx[8..]
    ensures var r := AsWrittenStep(o, ic);
      && r.correctable == (o.correctable && AsWrittenFixable(Codeword(rx, ic)))
      && r.decoded[..8 * ic] == o.decoded
      && (ic > 0 ==> r.decoded[8 * ic .. 8 * ic + 8] == Codeword(rx, ic)[..8])
  {
    var cw := Codeword(o.rx, ic);
    if ic > 0 {
      assert cw == o.rx[8..][12 * ic - 8 .. 12 * ic + 4];
      assert cw == Codeword(rx, ic);
      var r := AsWrittenStep(o, ic);
      var w := r.rx[12 * ic .. 12 * ic + 8];
      assert r.decoded == o.decoded + w;
      assert r.decoded[8 * ic .. 8 * ic + 8] == w;
      assert r.rx[8..] == o.rx[8..];
      assert w == r.rx[8..][12 * ic - 8 .. 12 * ic];
      assert w == cw[..8];
    }
  }

  /**
   * As written, a single error in data bit 0 of an all-zero codeword is
   * "corrected" by flipping bit 1, so the decoded data carry two errors and
   * the codeword is reported correctable; the corrected decoder restores
   * the zeros.
   */
  lemma AsWrittenMiscorrects()
    ensures var rx := [1, 0, 0, 0, 0, 0, 0, 0, 0, 0, 0, 0];
      && DecodeAsWritten(rx, 1).decoded == [1, 1, 0, 0, 0, 0, 0, 0]
      && DecodeAsWritten(rx, 1).correctable
      && DecodedData(rx, 1) == Zeros(8)
  {
    var rx: seq<Bit> := [1, 0, 0, 0, 0, 0, 0, 0, 0, 0, 0, 0];
    assert rx == Flip(Zeros(12), 0);
    FirstBitErrorSyndrome(rx);
    AsWrittenFlipsBitOne(rx);
    CorrectedOneWord(rx);
  }

  /** The as-written decode of the codeword with bit 0 set flips bit 1 as well. */
  lemma AsWrittenFlipsBitOne(rx: seq<Bit>)
    requires rx == [1, 0, 0, 0, 0, 0, 0, 0, 0, 0, 0, 0] && SyndromeLsbFirst(rx) == 7
    ensures DecodeAsWritten(rx, 1).decoded == [1, 1, 0, 0, 0, 0, 0, 0] && DecodeAsWritten(rx, 1).correctable
  {
    AsWrittenOneWord(rx);
    assert Flip(rx, 1)[..8] == [1, 1, 0, 0, 0, 0, 0, 0];
  }

  /** An error in bit 0 of the zero codeword has syndrome 7 least significant first. */
  lemma FirstBitErrorSyndrome(rx: seq<Bit>)
    requires rx == Flip(Zeros(12), 0)
    ensures |rx| == 12 && SyndromeLsbFirst(rx) == 7 && Corrected(rx) == Zeros(12)
  {
    ZerosValid();
    SingleErrorSyndrome(Zeros(12), 0);
    CorrectsSingleError(Zeros(12), 0);
    ColumnKeys0();
  }

  /** Decoding one codeword as written when its syndrome is 7: the table's entry 1 is flipped. */
  lemma AsWrittenOneWord(rx: seq<Bit>)
    requires |rx| == 12 && SyndromeLsbFirst(rx) == 7
    ensures DecodeAsWritten(rx, 1) == HammingOutcome(Flip(rx, 1), Flip(rx, 1)[..8], true)
  {
    var o := HammingOutcome(rx, [], true);
    assert DecodeAsWritten(rx, 0) == o;
    assert Codeword(o.rx, 0) == rx;
    assert CorrTable[7] == 1;
    var r := Flip(rx, 1);
    assert [] + r[0..8] == r[..8];
    assert AsWrittenStep(o, 0) == HammingOutcome(r, r[..8], true);
  }

  lemma CorrectedOneWord(rx: seq<Bit>)
    requires |rx| == 12 && Corrected(rx) == Zeros(12)
    ensures DecodedData(rx, 1) == Zeros(8)
  {
    assert Codeword(rx, 0) == rx;
    var d := DecodedData(rx, 1);
    forall p | 0 <= p < 8
      ensures d[p] == 0
    {
      assert p / 8 == 0 && p % 8 == p;
      assert Corrected(Codeword(rx, 0))[p] == Zeros(12)[p];
    }
  }
}
