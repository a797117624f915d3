/**
 * Properties of the convolutional code specification: where each encoder
 * output sits in a symbol, the shape of the trellis, and the round trip:
 * decoding the encoder's symbols from the encoder's start state gives back
 * the data bits whenever a generator taps the oldest register bit.
 */
module TrellisProofs {
  import opened Bits
  import opened ViterbiTables
  import opened Trellis

  /** Codes whose first-seen register bit reaches some output. */
  predicate Decodable(c: Code)
  {
    ValidCode(c) && exists m :: 0 <= m < c.n && BitAt(c.polys[m], c.k - 1) == 1
  }

  predicate IsBits(bits: seq<Byte>)
  {
    forall i :: 0 <= i < |bits| ==> bits[i] <= 1
  }

  // ---------------------------------------------------------------------
  // Symbols
  // ---------------------------------------------------------------------

  /**
   * Adding v << q to a value below 2^n whose bit q is clear, with n <= 8: the
   * unsigned char += does not wrap, and only bit q changes, to v.
   */
  lemma AddClearBit(x: nat, q: nat, n: nat, v: Bit, r: nat)
    requires x < Pow2(n) && q < n <= 8 && BitAt(x, q) == 0
    ensures (x + v * Pow2(q)) % 256 == x + v * Pow2(q) < Pow2(n)
    ensures BitAt(x + v * Pow2(q), r) == if r == q then v else BitAt(x, r)
  {
    Pow2Monotone(n, 8);
    assert Pow2(8) == 256;
    if v == 1 {
      SetClearBitBelow(x, q, n);
      SetClearBit(x, q, r);
    }
  }

  /** One output added to the symbol: bit q is set iff the output is 1. */
  lemma PackSymbolStep(c: Code, outs: seq<Bit>, j: nat, m: nat)
    requires ValidCode(c) && |outs| == c.n && 0 < j <= c.n && m < c.n
    requires PackSymbol(c, outs, j - 1) < Pow2(c.n)
    requires BitAt(PackSymbol(c, outs, j - 1), SymbolPosition(c, j - 1)) == 0
    ensures PackSymbol(c, outs, j) < Pow2(c.n)
    ensures BitAt(PackSymbol(c, outs, j), SymbolPosition(c, m))
            == if m == j - 1 then outs[m] else BitAt(PackSymbol(c, outs, j - 1), SymbolPosition(c, m))
  {
    var x := PackSymbol(c, outs, j - 1);
    var q, r := SymbolPosition(c, j - 1), SymbolPosition(c, m);
    var y := x + outs[j - 1] * Pow2(q);
    AddClearBit(x, q, c.n, outs[j - 1], r);
    assert PackSymbol(c, outs, j) == y % 256 == y;
    assert (r == q) == (m == j - 1);
  }

  lemma {:induction false} PackSymbolBit(c: Code, outs: seq<Bit>, j: nat, m: nat)
    requires ValidCode(c) && |outs| == c.n && j <= c.n && m < c.n
    ensures BitAt(PackSymbol(c, outs, j), SymbolPosition(c, m)) == (if m < j then outs[m] else 0)
    ensures PackSymbol(c, outs, j) < Pow2(c.n)
  {
    if j == 0 {
      ZeroBits(SymbolPosition(c, m));
    } else {
      PackSymbolBit(c, outs, j - 1, j - 1);
      PackSymbolBit(c, outs, j - 1, m);
      PackSymbolStep(c, outs, j, m);
    }
  }

  /** Output j of the encoder is bit SymbolPosition(j) of the symbol. */
  lemma SymbolBit(c: Code, reg: nat, m: nat)
    requires ValidCode(c) && m < c.n
    ensures BitAt(SymbolOf(c, reg), SymbolPosition(c, m)) == Outputs(c, reg)[m]
    ensures SymbolOf(c, reg) < Pow2(c.n)
  {
    PackSymbolBit(c, Outputs(c, reg), c.n, m);
  }

  /**
   * Two registers that differ only in the oldest bit give different symbols
   * when generator m taps that bit.
   */
  lemma TopBitChangesSymbol(c: Code, s: nat, m: nat)
    requires ValidCode(c) && s < NumStates(c) && m < c.n && BitAt(c.polys[m], c.k - 1) == 1
    ensures SymbolOf(c, s + NumStates(c)) != SymbolOf(c, s)
  {
    PopcountAndSetBit(s, c.polys[m], c.k - 1);
    assert Outputs(c, s + NumStates(c))[m] != Outputs(c, s)[m];
    SymbolBit(c, s, m);
    SymbolBit(c, s + NumStates(c), m);
  }

  // ---------------------------------------------------------------------
  // Encoder and trellis
  // ---------------------------------------------------------------------

  /** Symbol j of the encoding is the symbol of the register after bit j. */
  lemma {:induction false} EncodeAt(c: Code, bits: seq<Byte>, start: nat, j: nat)
    requires ValidCode(c) && j < |bits|
    ensures Encode(c, bits, start)[j] == SymbolOf(c, RegisterAfter(c, bits[..j + 1], start))
  {
    var init := bits[..|bits| - 1];
    if j < |bits| - 1 {
      EncodeAt(c, init, start, j);
      assert init[..j + 1] == bits[..j + 1];
    } else {
      assert bits[..j + 1] == bits;
    }
  }

  /** One encoder step from a register below 2^k: the state moves along the trellis. */
  lemma RegisterStep(c: Code, reg: nat, b: Byte)
    requires ValidCode(c) && reg < 2 * NumStates(c) && b <= 1
    ensures NextRegister(c, reg, b) == reg / 2 + b * NumStates(c)
    ensures NextRegister(c, reg, b) < 2 * NumStates(c)
    ensures NextRegister(c, reg, b) / 2 == NextState(c, reg / 2, b)
  {
    OrDisjointIsAdd(reg / 2, b, c.k - 1);
  }

  /**
   * The trellis tables list exactly the transitions of the state machine:
   * state s moves to t on bit b iff s is one of t's two predecessors and b is
   * t's branch bit.
   */
  lemma NextStateIff(c: Code, s: nat, b: Bit, t: nat)
    requires ValidCode(c) && s < NumStates(c) && t < NumStates(c)
    ensures t == NextState(c, s, b) <==> (s == PredA(c, t) || s == PredB(c, t)) && b == BranchBit(c, t)
  {
  }

  /** Every state has two distinct predecessors, both states. */
  lemma PredecessorsAreStates(c: Code, t: nat)
    requires ValidCode(c) && t < NumStates(c)
    ensures PredA(c, t) < PredB(c, t) < NumStates(c)
    ensures NextState(c, PredA(c, t), BranchBit(c, t)) == t
    ensures NextState(c, PredB(c, t), BranchBit(c, t)) == t
  {
  }

  /** Branch code 2p+b is the symbol emitted when bit b is shifted into state p. */
  lemma BranchCodeIsEdgeSymbol(c: Code, p: nat, b: Bit)
    requires ValidCode(c) && p < NumStates(c)
    ensures BranchCode(c, 2 * p + b) == SymbolOf(c, p + b * NumStates(c))
  {
    var i := 2 * p + b;
    assert i % 2 == b && (i / 2) * 2 == 2 * p;
    EncodeOne(c, b, 2 * p);
    RegisterStep(c, 2 * p, b);
  }

  /** Encoding a single bit emits the symbol of the register it is shifted into. */
  lemma EncodeOne(c: Code, b: Byte, start: nat)
    requires ValidCode(c)
    ensures Encode(c, [b], start) == [SymbolOf(c, NextRegister(c, start, b))]
  {
    var bits := [b];
    assert bits[..0] == [];
    assert RegisterAfter(c, bits, start) == NextRegister(c, start, b);
  }

  // ---------------------------------------------------------------------
  // Decoder
  // ---------------------------------------------------------------------

  /** Metrics in which exactly state s has metric 0 and every other is -1 or at least 1. */
  predicate UniqueZero(m: seq<int>, s: nat)
  {
    s < |m| && forall t :: 0 <= t < |m| ==> (m[t] == 0 <==> t == s) && m[t] >= -1
  }

  lemma {:induction false} ScanPrefix(m: seq<int>, s: nat, len: nat)
    requires UniqueZero(m, s) && len <= |m|
    ensures len <= s ==> Scan(m[..len]).0 >= 1
    ensures len > s ==> Scan(m[..len]) == (0, s)
  {
    if len > 0 {
      ScanPrefix(m, s, len - 1);
      assert m[..len][..len - 1] == m[..len - 1];
    }
  }

  /** The final scan picks the unique state with metric 0. */
  lemma ScanFindsUniqueZero(m: seq<int>, s: nat)
    requires UniqueZero(m, s)
    ensures Scan(m).1 == s
  {
    ScanPrefix(m, s, |m|);
    assert m[..|m|] == m;
  }

  /**
   * The scan returns the first of the states with the smallest non-negative
   * metric below INT_MAX, or its initial (INT_MAX, 0) when there is none.
   */
  lemma {:induction false} ScanIsFirstMinimum(m: seq<int>)
    ensures var r := Scan(m);
      && (r.0 < INT_MAX ==> r.1 < |m| && m[r.1] == r.0 && r.0 >= 0)
      && (forall t :: 0 <= t < |m| && 0 <= m[t] < INT_MAX ==> r.0 <= m[t])
      && (forall t :: 0 <= t < r.1 && r.1 < |m| ==> m[t] < 0 || m[t] > r.0)
      && (r.0 == INT_MAX ==> r.1 == 0)
  {
    if m != [] {
      var init := m[..|m| - 1];
      ScanIsFirstMinimum(init);
      var before := Scan(init);
      if !(m[|m| - 1] >= 0 && m[|m| - 1] < before.0) {
        assert Scan(m) == before;
        assert forall t :: 0 <= t < |init| ==> init[t] == m[t];
      }
    }
  }

  /** The registers and trellis states the encoder passes through. */
  function TrueState(c: Code, bits: seq<Byte>, reg: nat, j: nat): nat
    requires ValidCode(c) && j <= |bits|
  {
    RegisterAfter(c, bits[..j], reg) / 2
  }

  lemma {:induction false} TruePath(c: Code, bits: seq<Byte>, reg: nat, j: nat)
    requires ValidCode(c) && IsBits(bits) && reg < 2 * NumStates(c) && j <= |bits|
    ensures RegisterAfter(c, bits[..j], reg) < 2 * NumStates(c)
    ensures j < |bits| ==> RegisterAfter(c, bits[..j + 1], reg) == TrueState(c, bits, reg, j) + bits[j] * NumStates(c)
    ensures j < |bits| ==> TrueState(c, bits, reg, j + 1) == NextState(c, TrueState(c, bits, reg, j), bits[j])
  {
    if j > 0 {
      TruePath(c, bits, reg, j - 1);
      assert bits[..j][..j - 1] == bits[..j - 1];
      RegisterStep(c, RegisterAfter(c, bits[..j - 1], reg), bits[j - 1]);
    } else {
      assert bits[..0] == [];
    }
    if j < |bits| {
      assert bits[..j + 1][..j] == bits[..j];
      RegisterStep(c, RegisterAfter(c, bits[..j], reg), bits[j]);
    }
  }

  /** The symbol received at step j is the code on the true branch. */
  lemma TrueSymbol(c: Code, bits: seq<Byte>, reg: nat, j: nat)
    requires ValidCode(c) && IsBits(bits) && reg < 2 * NumStates(c) && j < |bits|
    ensures Encode(c, bits, reg)[j] == BranchCode(c, 2 * TrueState(c, bits, reg, j) + bits[j])
  {
    TruePath(c, bits, reg, j);
    EncodeAt(c, bits, reg, j);
    BranchCodeIsEdgeSymbol(c, TrueState(c, bits, reg, j), bits[j]);
  }

  /** The two branches leaving a state carry different codes. */
  lemma EdgeSymbolsDiffer(c: Code, s: nat)
    requires Decodable(c) && s < NumStates(c)
    ensures BranchCode(c, 2 * s) != BranchCode(c, 2 * s + 1)
  {
    var m :| 0 <= m < c.n && BitAt(c.polys[m], c.k - 1) == 1;
    TopBitChangesSymbol(c, s, m);
    var S := NumStates(c);
    assert BranchCode(c, 2 * s) == SymbolOf(c, s) by {
      BranchCodeIsEdgeSymbol(c, s, 0);
      assert s + 0 * S == s;
    }
    assert BranchCode(c, 2 * s + 1) == SymbolOf(c, s + S) by {
      BranchCodeIsEdgeSymbol(c, s, 1);
      assert s + 1 * S == s + S;
    }
  }

  /** Of the two branches leaving state s, only the one whose code is sym has metric 0. */
  lemma OnlyBranchMatches(c: Code, s: nat, b: Bit, tb: Bit, sym: Byte)
    requires Decodable(c) && s < NumStates(c) && sym == BranchCode(c, 2 * s + tb)
    ensures BranchMetric(c, s, b, sym) == 0 <==> b == tb
  {
    BranchMetricZero(c, s, b, sym);
    if b != tb {
      EdgeSymbolsDiffer(c, s);
    }
  }

  /**
   * Branch metric of a branch leaving the true state: 0 on the true bit,
   * at least 1 on the other.
   */
  lemma TrueBranchMetric(c: Code, bits: seq<Byte>, reg: nat, j: nat, b: Bit)
    requires Decodable(c) && IsBits(bits) && reg < 2 * NumStates(c) && j < |bits|
    ensures var s := TrueState(c, bits, reg, j);
      BranchMetric(c, s, b, Encode(c, bits, reg)[j]) == 0 <==> b == bits[j]
  {
    var s := TrueState(c, bits, reg, j);
    TruePath(c, bits, reg, j);
    TrueSymbol(c, bits, reg, j);
    OnlyBranchMatches(c, s, b, bits[j], Encode(c, bits, reg)[j]);
  }

  /**
   * One add-compare-select step along the encoded stream: the new metric is
   * 0 exactly at the next true state, where the survivor is the true branch.
   */
  lemma MetricStep(c: Code, bits: seq<Byte>, reg: nat, j: nat, t: nat)
    requires Decodable(c) && IsBits(bits) && reg < 2 * NumStates(c) && j < |bits| && t < NumStates(c)
    requires UniqueZero(Metrics(c, Encode(c, bits, reg), reg / 2, j), TrueState(c, bits, reg, j))
    ensures var prev := Metrics(c, Encode(c, bits, reg), reg / 2, j);
      var sym := Encode(c, bits, reg)[j];
      var m, d := NextMetrics(c, prev, sym)[t], NextDecisions(c, prev, sym)[t];
      && (m == 0 <==> t == TrueState(c, bits, reg, j + 1))
      && m >= -1
      && (t == TrueState(c, bits, reg, j + 1) ==> d == 2 * TrueState(c, bits, reg, j) + bits[j])
  {
    var syms := Encode(c, bits, reg);
    var prev := Metrics(c, syms, reg / 2, j);
    var sym := syms[j];
    var s := TrueState(c, bits, reg, j);
    NextAt(c, prev, sym, t);
    var pa, pb, b := PredA(c, t), PredB(c, t), BranchBit(c, t);
    TruePath(c, bits, reg, j);
    NextStateIff(c, s, bits[j], t);
    PredecessorsAreStates(c, t);
    SelectSurvives(c, prev, sym, t);
    TrueBranchMetric(c, bits, reg, j, b);
    var ca := PathMetric(prev[pa], BranchMetric(c, pa, b, sym));
    var cb := PathMetric(prev[pb], BranchMetric(c, pb, b, sym));
    assert ca == 0 <==> pa == s && b == bits[j];
    assert cb == 0 <==> pb == s && b == bits[j];
    assert ca == -1 || ca >= 0;
    assert cb == -1 || cb >= 0;
  }

  /** MetricStep read through the metrics row after symbol j. */
  lemma MetricAt(c: Code, bits: seq<Byte>, reg: nat, j: nat, t: nat)
    requires Decodable(c) && IsBits(bits) && reg < 2 * NumStates(c) && j < |bits| && t < NumStates(c)
    requires UniqueZero(Metrics(c, Encode(c, bits, reg), reg / 2, j), TrueState(c, bits, reg, j))
    ensures var m := Metrics(c, Encode(c, bits, reg), reg / 2, j + 1);
      (m[t] == 0 <==> t == TrueState(c, bits, reg, j + 1)) && m[t] >= -1
  {
    MetricStep(c, bits, reg, j, t);
  }

  /** One symbol later the metrics single out the next true state. */
  lemma MetricsTrackStep(c: Code, bits: seq<Byte>, reg: nat, j: nat)
    requires Decodable(c) && IsBits(bits) && reg < 2 * NumStates(c) && j < |bits|
    requires UniqueZero(Metrics(c, Encode(c, bits, reg), reg / 2, j), TrueState(c, bits, reg, j))
    ensures UniqueZero(Metrics(c, Encode(c, bits, reg), reg / 2, j + 1), TrueState(c, bits, reg, j + 1))
  {
    TruePath(c, bits, reg, j + 1);
    var m := Metrics(c, Encode(c, bits, reg), reg / 2, j + 1);
    forall t | 0 <= t < |m|
      ensures (m[t] == 0 <==> t == TrueState(c, bits, reg, j + 1)) && m[t] >= -1
    {
      MetricAt(c, bits, reg, j, t);
    }
  }

  /** Along the encoded stream, exactly the true state has path metric 0. */
  lemma {:induction false} MetricsTrackTrueState(c: Code, bits: seq<Byte>, reg: nat, i: nat)
    requires Decodable(c) && IsBits(bits) && reg < 2 * NumStates(c) && i <= |bits|
    ensures UniqueZero(Metrics(c, Encode(c, bits, reg), reg / 2, i), TrueState(c, bits, reg, i))
  {
    if i == 0 {
      TruePath(c, bits, reg, 0);
      assert bits[..0] == [];
    } else {
      MetricsTrackTrueState(c, bits, reg, i - 1);
      MetricsTrackStep(c, bits, reg, i - 1);
    }
  }

  lemma PrefixSnoc<T>(s: seq<T>, j: nat)
    requires j < |s|
    ensures s[..j] + [s[j]] == s[..j + 1]
  {
  }

  /** The survivor stored for the next true state is the true branch. */
  lemma TrueDecision(c: Code, bits: seq<Byte>, reg: nat, j: nat)
    requires Decodable(c) && IsBits(bits) && reg < 2 * NumStates(c) && j < |bits|
    ensures TrueState(c, bits, reg, j + 1) < NumStates(c)
    ensures Decision(c, Encode(c, bits, reg), reg / 2, j, TrueState(c, bits, reg, j + 1))
            == 2 * TrueState(c, bits, reg, j) + bits[j]
  {
    TruePath(c, bits, reg, j + 1);
    MetricsTrackTrueState(c, bits, reg, j);
    MetricStep(c, bits, reg, j, TrueState(c, bits, reg, j + 1));
  }

  /** One trace-back step: a decision (s << 1) + b moves to state s and emits b. */
  lemma TraceBackFollows(c: Code, syms: seq<Byte>, start: nat, j: nat, t: nat, s: nat, b: Bit)
    requires ValidCode(c) && j < |syms| && t < NumStates(c) && s < NumStates(c)
    requires Decision(c, syms, start, j, t) == 2 * s + b
    ensures TraceBack(c, syms, start, j + 1, t) == TraceBack(c, syms, start, j, s) + [b]
  {
    var table := DecisionTable(c, syms, start);
    assert table[j][t] == Decision(c, syms, start, j, t);
    var p := table[j][t];
    assert p / 2 == s && p % 2 == b;
  }

  lemma {:induction false} TraceBackTruePath(c: Code, bits: seq<Byte>, reg: nat, i: nat)
    requires Decodable(c) && IsBits(bits) && reg < 2 * NumStates(c) && i <= |bits|
    ensures TrueState(c, bits, reg, i) < NumStates(c)
    ensures TraceBack(c, Encode(c, bits, reg), reg / 2, i, TrueState(c, bits, reg, i)) == bits[..i]
  {
    if i == 0 {
      TruePath(c, bits, reg, i);
      assert bits[..0] == [];
    } else {
      TraceBackTruePath(c, bits, reg, i - 1);
      TraceBackTrueStep(c, bits, reg, i - 1);
    }
  }

  /** Tracing back from the true state one symbol further adds the true bit. */
  lemma TraceBackTrueStep(c: Code, bits: seq<Byte>, reg: nat, j: nat)
    requires Decodable(c) && IsBits(bits) && reg < 2 * NumStates(c) && j < |bits|
    requires TrueState(c, bits, reg, j) < NumStates(c)
    requires TraceBack(c, Encode(c, bits, reg), reg / 2, j, TrueState(c, bits, reg, j)) == bits[..j]
    ensures TrueState(c, bits, reg, j + 1) < NumStates(c)
    ensures TraceBack(c, Encode(c, bits, reg), reg / 2, j + 1, TrueState(c, bits, reg, j + 1)) == bits[..j + 1]
  {
    TrueDecision(c, bits, reg, j);
    TraceBackFollows(c, Encode(c, bits, reg), reg / 2, j, TrueState(c, bits, reg, j + 1),
                     TrueState(c, bits, reg, j), bits[j]);
    PrefixSnoc(bits, j);
  }

  /**
   * Round trip: decoding the encoder's symbols from the start state
   * (the encoder register shifted right by one) returns the data bits.
   */
  lemma RoundTrip(c: Code, bits: seq<Byte>, reg: nat)
    requires Decodable(c) && IsBits(bits) && reg < 2 * NumStates(c)
    ensures Decode(c, Encode(c, bits, reg), reg / 2) == bits
  {
    var n := |bits|;
    var syms := Encode(c, bits, reg);
    MetricsTrackTrueState(c, bits, reg, n);
    ScanFindsUniqueZero(Metrics(c, syms, reg / 2, n), TrueState(c, bits, reg, n));
    TraceBackTruePath(c, bits, reg, n);
    assert bits[..n] == bits;
  }
}
