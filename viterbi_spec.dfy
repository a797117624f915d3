/**
 * Specification of the convolutional code handled by the Viterbi class:
 * the encoder as a function of the data bits and the start register, the
 * trellis of the (k-1)-bit state machine, the add-compare-select recursion
 * over path metrics and the trace back of the survivor path.
 */
module Trellis {
  import opened Bits
  import opened ViterbiTables

  const INT_MAX: int := 0x7fff_ffff

  /**
   * Parameters of a codec instance: constraint length k, n output bits per
   * input bit, the n generator polynomials and the bit order of a symbol.
   */
  datatype Code = Code(k: nat, n: nat, polys: seq<nat>, msbFirst: bool)

  /** Codes whose states and packed branches fit the unsigned char arrays. */
  predicate ValidCode(c: Code)
  {
    2 <= c.k <= 8 && 1 <= c.n <= 8 && |c.polys| == c.n
  }

  /** The 2^(k-1) trellis states. */
  function NumStates(c: Code): nat
    requires ValidCode(c)
  {
    Pow2(c.k - 1)
  }

  /** 1 << (k-2): the state offset contributed by a 1 data bit. */
  function Half(c: Code): nat
    requires ValidCode(c)
  {
    Pow2(c.k - 2)
  }

  // ---------------------------------------------------------------------
  // Encoder
  // ---------------------------------------------------------------------

  /** The k-bit encoder register after shifting in one data byte at the top. */
  function NextRegister(c: Code, reg: nat, bit: Byte): nat
    requires ValidCode(c)
  {
    Or(reg / 2, bit * Pow2(c.k - 1))
  }

  /** Bit position of output j inside a symbol. */
  function SymbolPosition(c: Code, j: nat): nat
    requires ValidCode(c) && j < c.n
  {
    if c.msbFirst then c.n - 1 - j else j
  }

  /** The n encoder outputs for register reg: output j is the parity of reg & poly_j. */
  function Outputs(c: Code, reg: nat): (outs: seq<Bit>)
    requires ValidCode(c)
    ensures |outs| == c.n
  {
    seq(c.n, j requires 0 <= j < c.n => Parity(And(reg, c.polys[j])))
  }

  /** The symbol accumulated from outputs 0..j-1 with unsigned char +=. */
  function PackSymbol(c: Code, outs: seq<Bit>, j: nat): Byte
    requires ValidCode(c) && |outs| == c.n && j <= c.n
  {
    if j == 0 then 0
    else (PackSymbol(c, outs, j - 1) + outs[j - 1] * Pow2(SymbolPosition(c, j - 1))) % 256
  }

  /** The symbol the encoder emits for register reg. */
  function SymbolOf(c: Code, reg: nat): Byte
    requires ValidCode(c)
  {
    PackSymbol(c, Outputs(c, reg), c.n)
  }

  /** The encoder register after all of bits have been shifted in. */
  function RegisterAfter(c: Code, bits: seq<Byte>, start: nat): nat
    requires ValidCode(c)
  {
    if bits == [] then start
    else NextRegister(c, RegisterAfter(c, bits[..|bits| - 1], start), bits[|bits| - 1])
  }

  /** The symbols emitted for bits from start register start: one per bit. */
  function Encode(c: Code, bits: seq<Byte>, start: nat): (symbols: seq<Byte>)
    requires ValidCode(c)
    ensures |symbols| == |bits|
  {
    if bits == [] then []
    else Encode(c, bits[..|bits| - 1], start) + [SymbolOf(c, RegisterAfter(c, bits, start))]
  }

  /** Branch code table entry i: the symbol for data bit i%2 from register (i>>1)<<1. */
  function BranchCode(c: Code, i: nat): Byte
    requires ValidCode(c)
  {
    Encode(c, [i % 2], (i / 2) * 2)[0]
  }

  // ---------------------------------------------------------------------
  // Trellis
  // ---------------------------------------------------------------------

  /** The state a trellis state moves to on data bit b: (s >> 1) + (b << (k-2)). */
  function NextState(c: Code, s: nat, b: Bit): nat
    requires ValidCode(c)
  {
    if b == 0 then s / 2 else s / 2 + Half(c)
  }

  /** First predecessor of state t (the even one). */
  function PredA(c: Code, t: nat): nat
    requires ValidCode(c)
  {
    if t < Half(c) then 2 * t else 2 * (t - Half(c))
  }

  /** Second predecessor of state t (the odd one). */
  function PredB(c: Code, t: nat): nat
    requires ValidCode(c)
  {
    PredA(c, t) + 1
  }

  /** The data bit on both branches into state t. */
  function BranchBit(c: Code, t: nat): Bit
    requires ValidCode(c)
  {
    if t < Half(c) then 0 else 1
  }

  // ---------------------------------------------------------------------
  // Decoder
  // ---------------------------------------------------------------------

  /** Hamming distance between the code on branch (p, b) and a received symbol. */
  function BranchMetric(c: Code, p: nat, b: Bit, sym: Byte): nat
    requires ValidCode(c)
  {
    XorBelow(BranchCode(c, 2 * p + b), sym, 8);
    NbOnes[Xor(BranchCode(c, 2 * p + b), sym)]
  }

  /** A branch metric is zero exactly when the branch code is the received symbol. */
  lemma BranchMetricZero(c: Code, p: nat, b: Bit, sym: Byte)
    requires ValidCode(c)
    ensures BranchMetric(c, p, b, sym) <= 8
    ensures BranchMetric(c, p, b, sym) == 0 <==> BranchCode(c, 2 * p + b) == sym
  {
    XorBelow(BranchCode(c, 2 * p + b), sym, 8);
    NbOnesBounds(Xor(BranchCode(c, 2 * p + b), sym));
    XorZero(BranchCode(c, 2 * p + b), sym);
  }

  /** Path metric through a predecessor; -1 stands for an unreachable path. */
  function PathMetric(prev: int, bm: nat): int
  {
    if prev < 0 then -1 else prev + bm
  }

  /** Survivor of one state: its path metric and the packed (pred << 1) + bit. */
  datatype Survivor = Survivor(metric: int, packed: nat)

  /** Add-compare-select for state t from the previous metrics. */
  function Select(c: Code, prev: seq<int>, sym: Byte, t: nat): (r: Survivor)
    requires ValidCode(c) && |prev| == NumStates(c) && t < NumStates(c)
  {
    var pa, pb, b := PredA(c, t), PredB(c, t), BranchBit(c, t);
    var bmA, bmB := BranchMetric(c, pa, b, sym), BranchMetric(c, pb, b, sym);
    var pmA, pmB := PathMetric(prev[pa], bmA), PathMetric(prev[pb], bmB);
    var chooseA :=
      if pmA == pmB then (if bmA == bmB then true else bmA < bmB)
      else if pmA < 0 then false
      else if pmB < 0 then true
      else pmA < pmB;
    if chooseA then Survivor(pmA, 2 * pa + b) else Survivor(pmB, 2 * pb + b)
  }

  /**
   * The survivor is one of the two entering paths, unreachable only when both
   * are, no worse than either reachable one, and on equal path metrics the
   * one with the smaller branch metric (path A when those tie too).
   */
  lemma SelectSurvives(c: Code, prev: seq<int>, sym: Byte, t: nat)
    requires ValidCode(c) && |prev| == NumStates(c) && t < NumStates(c)
    ensures
      var r := Select(c, prev, sym, t);
      var pa, pb, b := PredA(c, t), PredB(c, t), BranchBit(c, t);
      var bmA, bmB := BranchMetric(c, pa, b, sym), BranchMetric(c, pb, b, sym);
      var a, z := PathMetric(prev[pa], bmA), PathMetric(prev[pb], bmB);
      && ((r.metric == a && r.packed == 2 * pa + b) || (r.metric == z && r.packed == 2 * pb + b))
      && (r.metric < 0 <==> prev[pa] < 0 && prev[pb] < 0)
      && (prev[pa] >= 0 ==> 0 <= r.metric <= a)
      && (prev[pb] >= 0 ==> 0 <= r.metric <= z)
      && (a == z ==> (r.packed == 2 * pb + b <==> bmB < bmA))
  {
  }

  /** Path metrics before the decoder has seen any symbol. */
  function InitialMetrics(c: Code, start: nat): (m: seq<int>)
    requires ValidCode(c)
    ensures |m| == NumStates(c)
  {
    seq(NumStates(c), t => if t == start then 0 else -1)
  }

  /** Survivors of states 0 .. n-1, built one state at a time like the decoder's inner loop. */
  function Survivors(c: Code, prev: seq<int>, sym: Byte, n: nat): (r: seq<Survivor>)
    requires ValidCode(c) && |prev| == NumStates(c) && n <= NumStates(c)
    ensures |r| == n
  {
    if n == 0 then [] else Survivors(c, prev, sym, n - 1) + [Select(c, prev, sym, n - 1)]
  }

  lemma {:induction false} SurvivorsAt(c: Code, prev: seq<int>, sym: Byte, n: nat, t: nat)
    requires ValidCode(c) && |prev| == NumStates(c) && t < n <= NumStates(c)
    ensures Survivors(c, prev, sym, n)[t] == Select(c, prev, sym, t)
  {
    var init := Survivors(c, prev, sym, n - 1);
    assert Survivors(c, prev, sym, n) == init + [Select(c, prev, sym, n - 1)];
    if t < n - 1 {
      SurvivorsAt(c, prev, sym, n - 1, t);
      assert (init + [Select(c, prev, sym, n - 1)])[t] == init[t];
    }
  }

  /** Path metrics of all states one symbol later. */
  function NextMetrics(c: Code, prev: seq<int>, sym: Byte): (m: seq<int>)
    requires ValidCode(c) && |prev| == NumStates(c)
    ensures |m| == NumStates(c)
  {
    var r := Survivors(c, prev, sym, NumStates(c));
    seq(NumStates(c), t requires 0 <= t < NumStates(c) => r[t].metric)
  }

  /** Survivor branch (packed predecessor and bit) of every state one symbol later. */
  function NextDecisions(c: Code, prev: seq<int>, sym: Byte): (d: seq<nat>)
    requires ValidCode(c) && |prev| == NumStates(c)
    ensures |d| == NumStates(c)
  {
    var r := Survivors(c, prev, sym, NumStates(c));
    seq(NumStates(c), t requires 0 <= t < NumStates(c) => r[t].packed)
  }

  /** The metric and packed branch of state t one symbol later are those Select picks. */
  lemma NextAt(c: Code, prev: seq<int>, sym: Byte, t: nat)
    requires ValidCode(c) && |prev| == NumStates(c) && t < NumStates(c)
    ensures NextMetrics(c, prev, sym)[t] == Select(c, prev, sym, t).metric
    ensures NextDecisions(c, prev, sym)[t] == Select(c, prev, sym, t).packed
  {
    SurvivorsAt(c, prev, sym, NumStates(c), t);
  }

  /** Path metrics of all states after the first i symbols. */
  function Metrics(c: Code, syms: seq<Byte>, start: nat, i: nat): (m: seq<int>)
    requires ValidCode(c) && i <= |syms|
    ensures |m| == NumStates(c)
  {
    if i == 0 then InitialMetrics(c, start)
    else NextMetrics(c, Metrics(c, syms, start, i - 1), syms[i - 1])
  }

  /** Packed survivor branch into state t at symbol i. */
  function Decision(c: Code, syms: seq<Byte>, start: nat, i: nat, t: nat): nat
    requires ValidCode(c) && i < |syms| && t < NumStates(c)
  {
    NextDecisions(c, Metrics(c, syms, start, i), syms[i])[t]
  }

  /** A decision names a predecessor state. */
  lemma DecisionBelow(c: Code, syms: seq<Byte>, start: nat, i: nat, t: nat)
    requires ValidCode(c) && i < |syms| && t < NumStates(c)
    ensures Decision(c, syms, start, i, t) / 2 < NumStates(c)
  {
    var prev := Metrics(c, syms, start, i);
    NextAt(c, prev, syms[i], t);
    SelectSurvives(c, prev, syms[i], t);
  }

  /**
   * Scan for the smallest non-negative metric, keeping the first on ties,
   * from (INT_MAX, 0); the C++ leaves the index uninitialised instead of 0.
   */
  function Scan(m: seq<int>): (r: (int, nat))
    ensures r.0 <= INT_MAX
    ensures r.1 < |m| || r.1 == 0
  {
    if m == [] then (INT_MAX, 0)
    else
      var before := Scan(m[..|m| - 1]);
      var pm := m[|m| - 1];
      if pm >= 0 && pm < before.0 then (pm, |m| - 1) else before
  }

  /** Row r holds the packed survivor branch of every state at symbol r. */
  function DecisionTable(c: Code, syms: seq<Byte>, start: nat): (table: seq<seq<nat>>)
    requires ValidCode(c)
    ensures |table| == |syms|
  {
    seq(|syms|, r requires 0 <= r < |syms| => NextDecisions(c, Metrics(c, syms, start, r), syms[r]))
  }

  /**
   * Walk a decision table back from state after i rows: entry (s << 1) + b
   * of the state gives the last bit b and the state s to continue from. A
   * state outside its row reads as entry 0.
   */
  function Walk(table: seq<seq<nat>>, i: nat, state: nat): (bits: seq<Byte>)
    requires i <= |table|
    ensures |bits| == i
    ensures forall k :: 0 <= k < |bits| ==> bits[k] <= 1
  {
    if i == 0 then []
    else
      var p := if state < |table[i - 1]| then table[i - 1][state] else 0;
      var bit: Byte := p % 2;
      Walk(table, i - 1, p / 2) + [bit]
  }

  /** Data bits of the first i symbols along the survivor path ending in state. */
  function TraceBack(c: Code, syms: seq<Byte>, start: nat, i: nat, state: nat): (bits: seq<Byte>)
    requires ValidCode(c) && i <= |syms| && state < NumStates(c)
    ensures |bits| == i
    ensures forall k :: 0 <= k < |bits| ==> bits[k] <= 1
  {
    Walk(DecisionTable(c, syms, start), i, state)
  }

  /** Data bits decoded from syms, starting in trellis state start. */
  function Decode(c: Code, syms: seq<Byte>, start: nat): (bits: seq<Byte>)
    requires ValidCode(c)
    ensures |bits| == |syms|
    ensures forall k :: 0 <= k < |bits| ==> bits[k] <= 1
  {
    var m := Metrics(c, syms, start, |syms|);
    TraceBack(c, syms, start, |syms|, Scan(m).1)
  }
}
