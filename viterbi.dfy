/**
 * The Viterbi codec object: trellis tables built once by the constructor,
 * an encoder, and a hard-decision decoder that keeps per-symbol path
 * metric and traceback buffers which grow with the longest input seen.
 */
module ViterbiCodec {
  import opened Bits
  import opened ViterbiTables
  import opened Trellis
  import opened TrellisProofs

  /** Position of entry (row, t) in a buffer holding one row of S entries per symbol. */
  function Ix(S: nat, row: nat, t: nat): nat
  {
    row * S + t
  }

  lemma IxBelow(S: nat, row: nat, t: nat, rows: nat)
    requires row < rows && t < S
    ensures Ix(S, row, t) < rows * S
  {
    assert (rows - row - 1) * S >= 0;
    assert rows * S == row * S + S + (rows - row - 1) * S;
  }

  lemma IxRowOrder(S: nat, r: nat, t: nat, row: nat, u: nat)
    requires r < row && t < S
    ensures Ix(S, r, t) < Ix(S, row, u)
  {
    IxBelow(S, r, t, row);
  }

  /** Keeps the first smallest non-negative metric seen so far, as Scan does. */
  method KeepBest(minMetric: int, minPathIndex: nat, pm: int, i: nat, ghost seen: seq<int>)
    returns (newMetric: int, newIndex: nat)
    requires |seen| == i
    requires minMetric == Scan(seen).0 && minPathIndex == Scan(seen).1
    ensures newMetric == Scan(seen + [pm]).0 && newIndex == Scan(seen + [pm]).1
  {
    assert (seen + [pm])[..|seen|] == seen;
    newMetric, newIndex := minMetric, minPathIndex;
    if pm >= 0 && pm < minMetric {
      newMetric, newIndex := pm, i;
    }
  }

  /** Row row ends where a later row begins, or before. */
  lemma {:induction false} IxRowEnd(S: nat, row: nat, rows: nat)
    requires row < rows
    ensures Ix(S, row, 0) + S <= Ix(S, rows, 0)
    decreases rows
  {
    assert Ix(S, rows, 0) == Ix(S, rows - 1, 0) + S;
    if row + 1 < rows {
      IxRowEnd(S, row, rows - 1);
    }
  }

  /** The first `upto` entries of row `row`, in a buffer made of rows of S entries, hold values. */
  ghost predicate RowPrefix(buf: seq<int>, S: nat, row: nat, values: seq<int>, upto: nat)
  {
    && |values| == S && upto <= S && Ix(S, row, 0) + S <= |buf|
    && forall t :: 0 <= t < upto ==> buf[Ix(S, row, t)] == values[t]
  }

  /** Row `row` of a buffer made of rows of S entries holds values. */
  ghost predicate RowHolds(buf: seq<int>, S: nat, row: nat, values: seq<int>)
  {
    RowPrefix(buf, S, row, values, S)
  }

  /** Writing the next entry of a row extends its filled prefix. */
  lemma RowPrefixWrite(buf: seq<int>, S: nat, row: nat, values: seq<int>, upto: nat, v: int)
    requires RowPrefix(buf, S, row, values, upto) && upto < S && v == values[upto]
    ensures Ix(S, row, upto) < |buf|
    ensures RowPrefix(buf[Ix(S, row, upto) := v], S, row, values, upto + 1)
  {
  }

  /** Writing outside a row keeps what it holds. */
  lemma RowPrefixKeep(buf: seq<int>, S: nat, row: nat, values: seq<int>, upto: nat, i: nat, v: int)
    requires RowPrefix(buf, S, row, values, upto) && i < |buf|
    requires i < Ix(S, row, 0) || Ix(S, row, 0) + S <= i
    ensures RowPrefix(buf[i := v], S, row, values, upto)
  {
  }

  /** A row is kept when a prefix covering it is kept. */
  lemma RowHoldsFramed(before: seq<int>, after: seq<int>, S: nat, row: nat, rows: nat, values: seq<int>)
    requires RowHolds(before, S, row, values) && row < rows
    requires Ix(S, rows, 0) <= |before| && Ix(S, rows, 0) <= |after|
    requires before[..Ix(S, rows, 0)] == after[..Ix(S, rows, 0)]
    ensures RowHolds(after, S, row, values)
  {
    IxRowEnd(S, row, rows);
    forall t | 0 <= t < S
      ensures after[Ix(S, row, t)] == values[t]
    {
      IxRowOrder(S, row, t, rows, 0);
      assert before[..Ix(S, rows, 0)][Ix(S, row, t)] == after[..Ix(S, rows, 0)][Ix(S, row, t)];
    }
  }

  /** Every stored decision in the first rows rows names a predecessor state. */
  ghost predicate EntriesInRange(buf: seq<int>, S: nat, rows: nat)
  {
    forall r, t :: 0 <= r < rows && 0 <= t < S ==>
      Ix(S, r, t) < |buf| && 0 <= buf[Ix(S, r, t)] && buf[Ix(S, r, t)] / 2 < S
  }

  /**
   * The data bits read back from a traceback buffer: from state `state` after
   * i symbols, the stored (pred << 1) + bit gives the last bit and the state
   * to continue from. An entry outside the buffer, or a negative one, reads
   * as 0; EntriesInRange rules both out wherever the decoder reads.
   */
  ghost function Follow(buf: seq<int>, S: nat, i: nat, state: nat): (bits: seq<Byte>)
    ensures |bits| == i
  {
    if i == 0 then []
    else
      var k := Ix(S, i - 1, state);
      var p: nat := if k < |buf| && buf[k] >= 0 then buf[k] else 0;
      var bit: Byte := p % 2;
      Follow(buf, S, i - 1, p / 2) + [bit]
  }

  /** Entry (r, t) of the buffer is the decoder's decision for state t at symbol r. */
  ghost predicate StoresDecisions(buf: seq<int>, c: Code, symbols: seq<Byte>, start: nat)
    requires ValidCode(c)
  {
    forall r, t :: 0 <= r < |symbols| && 0 <= t < NumStates(c) ==> StoredAt(buf, c, symbols, start, r, t)
  }

  ghost predicate StoredAt(buf: seq<int>, c: Code, symbols: seq<Byte>, start: nat, r: nat, t: nat)
    requires ValidCode(c) && r < |symbols| && t < NumStates(c)
  {
    Ix(NumStates(c), r, t) < |buf| && buf[Ix(NumStates(c), r, t)] == Decision(c, symbols, start, r, t)
  }

  /** A buffer holding the decoder's decision rows stores predecessor states only. */
  lemma DecisionRowsInRange(buf: seq<int>, c: Code, symbols: seq<Byte>, start: nat)
    requires DecisionRows(buf, c, symbols, start, |symbols|)
    ensures StoresDecisions(buf, c, symbols, start)
    ensures EntriesInRange(buf, NumStates(c), |symbols|)
  {
    var S := NumStates(c);
    forall r, t | 0 <= r < |symbols| && 0 <= t < S
      ensures StoredAt(buf, c, symbols, start, r, t)
      ensures 0 <= buf[Ix(S, r, t)] && buf[Ix(S, r, t)] / 2 < S
    {
      assert RowHolds(buf, S, r, DecisionRowOf(c, symbols, start)(r));
      DecisionBelow(c, symbols, start, r, t);
    }
  }

  /** Reading a buffer of the decoder's decisions back is the specification's traceback. */
  lemma FollowIsTraceBack(buf: seq<int>, c: Code, symbols: seq<Byte>, start: nat, i: nat, state: nat)
    requires ValidCode(c) && i <= |symbols| && state < NumStates(c)
    requires StoresDecisions(buf, c, symbols, start)
    ensures Follow(buf, NumStates(c), i, state) == TraceBack(c, symbols, start, i, state)
  {
    var S, table := NumStates(c), DecisionTable(c, symbols, start);
    forall r, t | 0 <= r < |symbols| && 0 <= t < S
      ensures Ix(S, r, t) < |buf| && t < |table[r]| && buf[Ix(S, r, t)] == table[r][t] && table[r][t] / 2 < S
    {
      assert StoredAt(buf, c, symbols, start, r, t);
      DecisionBelow(c, symbols, start, r, t);
    }
    FollowIsWalk(buf, S, table, i, state);
  }

  /** The decoder traces back from the state Scan picks; with no symbols any state gives no bits. */
  lemma DecodeEndsIn(c: Code, symbols: seq<Byte>, start: nat, final: nat)
    requires ValidCode(c) && final < NumStates(c)
    requires |symbols| > 0 ==> final == Scan(Metrics(c, symbols, start, |symbols|)).1
    ensures Decode(c, symbols, start) == TraceBack(c, symbols, start, |symbols|, final)
  {
  }

  /**
   * A buffer whose entry (r, t) is row r, state t of a table, with every
   * entry naming one of the S states, reads back as the walk through the table.
   */
  lemma {:induction false} FollowIsWalk(buf: seq<int>, S: nat, table: seq<seq<nat>>, i: nat, state: nat)
    requires i <= |table| && state < S
    requires forall r, t :: 0 <= r < |table| && 0 <= t < S ==>
      Ix(S, r, t) < |buf| && t < |table[r]| && buf[Ix(S, r, t)] == table[r][t] && table[r][t] / 2 < S
    ensures Follow(buf, S, i, state) == Walk(table, i, state)
  {
    if i > 0 {
      assert Ix(S, i - 1, state) < |buf| && state < |table[i - 1]| && buf[Ix(S, i - 1, state)] == table[i - 1][state]
        && table[i - 1][state] / 2 < S;
      var p := table[i - 1][state];
      FollowStep(buf, S, i, state, p / 2, p % 2);
      FollowIsWalk(buf, S, table, i - 1, p / 2);
    }
  }

  /** One step back in the buffer: entry (s << 1) + b gives bit b and moves to state s. */
  lemma FollowStep(buf: seq<int>, S: nat, i: nat, state: nat, s: nat, b: Bit)
    requires 0 < i && Ix(S, i - 1, state) < |buf| && buf[Ix(S, i - 1, state)] == 2 * s + b
    ensures Follow(buf, S, i, state) == Follow(buf, S, i - 1, s) + [b]
  {
    var p := 2 * s + b;
    assert p / 2 == s && p % 2 == b;
  }

  /** x << e for a weight w == 2^e. */
  function ShiftedUp(x: nat, w: nat): nat
  {
    x * w
  }

  /** Encoding one more data bit shifts it into the register and appends its symbol. */
  lemma EncodeSnoc(c: Code, bits: seq<Byte>, start: nat, i: nat)
    requires ValidCode(c) && i < |bits|
    ensures RegisterAfter(c, bits[..i + 1], start) == NextRegister(c, RegisterAfter(c, bits[..i], start), bits[i])
    ensures Encode(c, bits[..i + 1], start)
            == Encode(c, bits[..i], start) + [SymbolOf(c, RegisterAfter(c, bits[..i + 1], start))]
  {
    assert bits[..i + 1][..i] == bits[..i];
  }

  /**
   * Entries of the path-metric buffer once decodeFromSymbols has decided
   * whether to grow it, as the code is written: the constructor leaves the
   * buffer unallocated, and only an input longer than every earlier one
   * allocates it.
   */
  function MetricsCapacityAsWritten(S: nat, nbSymbolsMax: nat, nbSymbols: nat): (entries: nat)
  {
    if nbSymbols > nbSymbolsMax then S * (nbSymbols + 1)
    else if nbSymbolsMax == 0 then 0
    else S * (nbSymbolsMax + 1)
  }

  /**
   * As written, an empty input to a decoder that never decoded anything
   * resets S path metrics in a buffer with no entries.
   */
  lemma EmptyInputOverrunsAsWritten(S: nat)
    requires S > 0
    ensures MetricsCapacityAsWritten(S, 0, 0) < S
  {
  }

  /** Entries of the path-metric buffer when the constructor allocates one row. */
  function MetricsCapacity(S: nat, nbSymbolsMax: nat, nbSymbols: nat): (entries: nat)
  {
    if nbSymbols > nbSymbolsMax then S * (nbSymbols + 1) else S * (nbSymbolsMax + 1)
  }

  /** With one row allocated up front, every input finds room for the reset row and all later rows. */
  lemma MetricsCapacityCoversReset(S: nat, nbSymbolsMax: nat, nbSymbols: nat)
    ensures S <= MetricsCapacity(S, nbSymbolsMax, nbSymbols)
    ensures Ix(S, nbSymbols + 1, 0) <= MetricsCapacity(S, nbSymbolsMax, nbSymbols)
  {
    if nbSymbols > nbSymbolsMax {
      assert S * (nbSymbols + 1) == S * nbSymbols + S;
    } else {
      CapacityCovers(S, nbSymbols, nbSymbolsMax);
      assert S * (nbSymbolsMax + 1) == S * nbSymbolsMax + S;
    }
  }

  /** Buffers sized for the longest input seen also fit a shorter one. */
  lemma CapacityCovers(S: nat, rows: nat, capacity: nat)
    requires rows <= capacity
    ensures Ix(S, rows + 1, 0) <= S * (capacity + 1) && Ix(S, rows, 0) <= S * capacity
  {
    assert S * (capacity - rows) >= 0;
    assert S * capacity == S * rows + S * (capacity - rows);
  }

  /** Survivor decisions of every state at symbol r. */
  ghost function DecisionRow(c: Code, symbols: seq<Byte>, start: nat, r: nat): seq<int>
    requires ValidCode(c) && r < |symbols|
  {
    NextDecisions(c, Metrics(c, symbols, start, r), symbols[r])
  }

  /** The first `rows` rows of a traceback buffer hold the survivor decisions. */
  ghost predicate DecisionRows(buf: seq<int>, c: Code, symbols: seq<Byte>, start: nat, rows: nat)
  {
    ValidCode(c) && rows <= |symbols| && RowsHold(buf, NumStates(c), rows, DecisionRowOf(c, symbols, start))
  }

  /** The decision rows of a run as a function of the row number (empty past the end). */
  ghost function DecisionRowOf(c: Code, symbols: seq<Byte>, start: nat): nat -> seq<int>
  {
    (r: nat) => if ValidCode(c) && r < |symbols| then DecisionRow(c, symbols, start, r) else []
  }

  /** Rows 0 .. rows - 1 of the buffer hold f(0) .. f(rows - 1). */
  ghost predicate RowsHold(buf: seq<int>, S: nat, rows: nat, f: nat -> seq<int>)
  {
    forall r :: 0 <= r < rows ==> RowHolds(buf, S, r, f(r))
  }

  /** Writing row `rows` of the decisions, and nothing before it, extends them by one row. */
  lemma DecisionRowsExtend(before: seq<int>, after: seq<int>, c: Code, symbols: seq<Byte>, start: nat, rows: nat)
    requires DecisionRows(before, c, symbols, start, rows) && rows < |symbols|
    requires Ix(NumStates(c), rows, 0) <= |before| && Ix(NumStates(c), rows, 0) <= |after|
    requires before[..Ix(NumStates(c), rows, 0)] == after[..Ix(NumStates(c), rows, 0)]
    requires RowHolds(after, NumStates(c), rows, DecisionRow(c, symbols, start, rows))
    ensures DecisionRows(after, c, symbols, start, rows + 1)
  {
    var f := DecisionRowOf(c, symbols, start);
    assert f(rows) == DecisionRow(c, symbols, start, rows);
    RowsExtend(before, after, NumStates(c), rows, f);
  }

  /** Writing row `rows`, and nothing before it, extends the rows that hold. */
  lemma RowsExtend(before: seq<int>, after: seq<int>, S: nat, rows: nat, f: nat -> seq<int>)
    requires RowsHold(before, S, rows, f) && RowHolds(after, S, rows, f(rows))
    requires Ix(S, rows, 0) <= |before| && Ix(S, rows, 0) <= |after|
    requires before[..Ix(S, rows, 0)] == after[..Ix(S, rows, 0)]
    ensures RowsHold(after, S, rows + 1, f)
  {
    RowsFramed(before, after, S, rows, f);
  }

  /** Rows below `rows` survive a write that keeps the buffer's prefix up to row `rows`. */
  lemma RowsFramed(before: seq<int>, after: seq<int>, S: nat, rows: nat, rowOf: nat -> seq<int>)
    requires forall r :: 0 <= r < rows ==> RowHolds(before, S, r, rowOf(r))
    requires Ix(S, rows, 0) <= |before| && Ix(S, rows, 0) <= |after|
    requires before[..Ix(S, rows, 0)] == after[..Ix(S, rows, 0)]
    ensures forall r :: 0 <= r < rows ==> RowHolds(after, S, r, rowOf(r))
  {
    forall r | 0 <= r < rows
      ensures RowHolds(after, S, r, rowOf(r))
    {
      RowHoldsFramed(before, after, S, r, rows, rowOf(r));
    }
  }

  class Viterbi {
    const k: nat
    const n: nat
    const polys: seq<nat>
    const msbFirst: bool

    /** Symbol of every (state << 1) + bit branch. */
    const branchCodes: array<Byte>
    /** The two predecessors of every state and the data bit on their branches. */
    const predA: array<Byte>
    const bitA: array<Byte>
    const predB: array<Byte>
    const bitB: array<Byte>

    /** Path metrics: one row of NumStates entries per symbol boundary. */
    var pathMetrics: array<int>
    /** Packed survivor branches: one row of NumStates entries per symbol. */
    var traceback: array<Byte>
    /** Longest input the buffers have been sized for. */
    var nbSymbolsMax: nat

    function Params(): Code
    {
      Code(k, n, polys, msbFirst)
    }

    ghost predicate Valid()
      reads this, branchCodes, predA, bitA, predB, bitB
    {
      && Ready()
      && pathMetrics.Length == NumStates(Params()) * (nbSymbolsMax + 1)
      && traceback.Length == NumStates(Params()) * nbSymbolsMax
    }

    /** The tables are built and the traceback buffer is none of them. */
    ghost predicate Ready()
      reads this, branchCodes, predA, bitA, predB, bitB
    {
      && ValidCode(Params())
      && TablesReady()
      && traceback != branchCodes && traceback != predA && traceback != bitA
      && traceback != predB && traceback != bitB
    }

    /** The trellis tables hold what the code parameters determine. */
    ghost predicate TablesReady()
      reads branchCodes, predA, bitA, predB, bitB
      requires ValidCode(Params())
    {
      var S := NumStates(Params());
      && branchCodes.Length == 2 * S
      && predA.Length == S && bitA.Length == S && predB.Length == S && bitB.Length == S
      && (forall i :: 0 <= i < 2 * S ==> branchCodes[i] == BranchCode(Params(), i))
      && (forall t :: 0 <= t < S ==>
            predA[t] == PredA(Params(), t) && bitA[t] == BranchBit(Params(), t)
            && predB[t] == PredB(Params(), t) && bitB[t] == BranchBit(Params(), t))
    }

    constructor (k: nat, n: nat, polys: seq<nat>, msbFirst: bool)
      requires ValidCode(Code(k, n, polys, msbFirst))
      ensures Valid()
      ensures this.k == k && this.n == n && this.polys == polys && this.msbFirst == msbFirst
      ensures nbSymbolsMax == 0
    {
      this.k, this.n, this.polys, this.msbFirst := k, n, polys, msbFirst;
      var S := Pow2(k - 1);
      branchCodes := new Byte[2 * S];
      predA := new Byte[S];
      bitA := new Byte[S];
      predB := new Byte[S];
      bitB := new Byte[S];
      pathMetrics := new int[S];
      traceback := new Byte[0];
      nbSymbolsMax := 0;
      new;
      InitCodes();
      InitTreillis();
    }

    /** Fills the branch code table by encoding one bit from every even register. */
    method InitCodes()
      requires ValidCode(Params()) && branchCodes.Length == 2 * NumStates(Params())
      modifies branchCodes
      ensures forall i :: 0 <= i < 2 * NumStates(Params()) ==> branchCodes[i] == BranchCode(Params(), i)
    {
      var i := 0;
      while i < branchCodes.Length
        invariant 0 <= i <= branchCodes.Length
        invariant forall j :: 0 <= j < i ==> branchCodes[j] == BranchCode(Params(), j)
      {
        var dataBit: Byte := i % 2;
        var symbol := EncodeToSymbols([dataBit], (i / 2) * 2);
        branchCodes[i] := symbol[0];
        i := i + 1;
      }
    }

    /**
     * Fills the predecessor tables: every state s is entered, for bit 0 and
     * then bit 1, into the first free slot (A, then B) of its successor.
     */
    method InitTreillis()
      requires ValidCode(Params())
      requires predA.Length == NumStates(Params()) && bitA.Length == NumStates(Params())
      requires predB.Length == NumStates(Params()) && bitB.Length == NumStates(Params())
      requires predA != bitA && predA != predB && predA != bitB
      requires bitA != predB && bitA != bitB && predB != bitB
      modifies predA, bitA, predB, bitB
      ensures forall t :: 0 <= t < NumStates(Params()) ==>
        predA[t] == PredA(Params(), t) && bitA[t] == BranchBit(Params(), t)
        && predB[t] == PredB(Params(), t) && bitB[t] == BranchBit(Params(), t)
    {
      var S := NumStates(Params());
      var H := Pow2(k - 2);
      var t := 0;
      while t < S
        invariant 0 <= t <= S
        invariant forall u :: 0 <= u < t ==> bitA[u] == 0xFF && bitB[u] == 0xFF
      {
        bitA[t] := 0xFF;
        bitB[t] := 0xFF;
        t := t + 1;
      }
      var s := 0;
      while s < S
        invariant 0 <= s <= S
        invariant TreillisFilled(2 * s)
      {
        var nextS := s / 2;
        AddBranch(s, nextS, 0);
        nextS := nextS + H;
        AddBranch(s, nextS, 1);
        s := s + 1;
      }
    }

    /** Order in which the branch of state t's slot A (resp. B) is entered. */
    function EntryA(t: nat): nat
      requires ValidCode(Params())
    {
      2 * PredA(Params(), t) + BranchBit(Params(), t)
    }

    function EntryB(t: nat): nat
      requires ValidCode(Params())
    {
      2 * PredB(Params(), t) + BranchBit(Params(), t)
    }

    /** The predecessor tables after the first e branches have been entered. */
    ghost predicate TreillisFilled(e: nat)
      reads this, predA, bitA, predB, bitB
      requires ValidCode(Params())
    {
      var c, S := Params(), NumStates(Params());
      && predA.Length == S && bitA.Length == S && predB.Length == S && bitB.Length == S
      && (forall u :: 0 <= u < S ==>
            if EntryA(u) < e then predA[u] == PredA(c, u) && bitA[u] == BranchBit(c, u) else bitA[u] == 0xFF)
      && (forall u :: 0 <= u < S ==>
            if EntryB(u) < e then predB[u] == PredB(c, u) && bitB[u] == BranchBit(c, u) else bitB[u] == 0xFF)
    }

    /** Enters branch (s, bit) into the first free slot of its successor nextS. */
    method AddBranch(s: nat, nextS: nat, bit: Bit)
      requires ValidCode(Params()) && s < NumStates(Params())
      requires nextS == NextState(Params(), s, bit)
      requires predA != bitA && predA != predB && predA != bitB
      requires bitA != predB && bitA != bitB && predB != bitB
      requires TreillisFilled(2 * s + bit)
      modifies predA, bitA, predB, bitB
      ensures TreillisFilled(2 * s + bit + 1)
    {
      var c := Params();
      Pow2Monotone(k - 1, 7);
      assert Pow2(7) == 128;
      NextStateIff(c, s, bit, nextS);
      assert s % 2 == 0 ==> EntryA(nextS) == 2 * s + bit;
      assert s % 2 == 1 ==> EntryB(nextS) == 2 * s + bit && EntryA(nextS) < 2 * s + bit;
      // branch A
      if bitA[nextS] == 0xFF {
        predA[nextS] := s;
        bitA[nextS] := bit;
      }
      // branch B
      else if bitB[nextS] == 0xFF {
        predB[nextS] := s;
        bitB[nextS] := bit;
      } else {
        assert false;
      }
      forall u | 0 <= u < NumStates(c) && u != nextS
        ensures EntryA(u) != 2 * s + bit && EntryB(u) != 2 * s + bit
      {
        NextStateIff(c, s, bit, u);
      }
    }

    /** Encodes dataBits from encoder register startstate, one symbol per bit. */
    method EncodeToSymbols(dataBits: seq<Byte>, startstate: nat) returns (symbols: seq<Byte>)
      requires ValidCode(Params())
      ensures symbols == Encode(Params(), dataBits, startstate)
    {
      var c := Params();
      var encstate := startstate;
      symbols := [];
      var i := 0;
      while i < |dataBits|
        invariant 0 <= i <= |dataBits|
        invariant encstate == RegisterAfter(c, dataBits[..i], startstate)
        invariant symbols == Encode(c, dataBits[..i], startstate)
      {
        EncodeSnoc(c, dataBits, startstate, i);
        var top: nat := ShiftedUp(dataBits[i], Pow2(k - 1));
        encstate := Or(encstate / 2, top);
        var symbol := SymbolFor(encstate);
        symbols := symbols + [symbol];
        i := i + 1;
      }
      assert dataBits[..i] == dataBits;
    }

    /** The symbol emitted for register encstate, one output bit per generator. */
    method SymbolFor(encstate: nat) returns (symbol: Byte)
      requires ValidCode(Params())
      ensures symbol == SymbolOf(Params(), encstate)
    {
      var c := Params();
      symbol := 0;
      var j := 0;
      while j < n
        invariant 0 <= j <= n
        invariant symbol == PackSymbol(c, Outputs(c, encstate), j)
      {
        var pos := if msbFirst then (n - 1) - j else j;
        symbol := (symbol + Parity(And(encstate, polys[j])) * Pow2(pos)) % 256;
        j := j + 1;
      }
    }
  
    /** Branch and path metric of the branch (p, b) entering a state at symbol row. */
    method PathThrough(sym: Byte, row: nat, p: nat, b: Bit, ghost prev: seq<int>) returns (bm: nat, pm: int)
      requires Ready() && p < NumStates(Params())
      requires (row + 1) * NumStates(Params()) <= pathMetrics.Length
      requires |prev| == NumStates(Params())
      requires pathMetrics[Ix(NumStates(Params()), row, p)] == prev[p]
      ensures bm == BranchMetric(Params(), p, b, sym)
      ensures pm == PathMetric(prev[p], bm)
    {
      var S := NumStates(Params());
      IxBelow(S, row, p, row + 1);
      var code := branchCodes[p * 2 + b];
      XorBelow(code, sym, 8);
      bm := NbOnes[Xor(code, sym)];
      pm := if pathMetrics[Ix(S, row, p)] < 0 then -1 else pathMetrics[Ix(S, row, p)] + bm;
    }

    /**
     * Add-compare-select for state t at symbol row: the survivor's path
     * metric and packed branch, read from the tables and metrics row.
     */
    method AddCompareSelect(sym: Byte, row: nat, t: nat, ghost prev: seq<int>) returns (pm: int, packed: Byte)
      requires Ready() && t < NumStates(Params())
      requires (row + 1) * NumStates(Params()) <= pathMetrics.Length
      requires |prev| == NumStates(Params())
      requires forall u :: 0 <= u < NumStates(Params()) ==> pathMetrics[Ix(NumStates(Params()), row, u)] == prev[u]
      ensures pm == Select(Params(), prev, sym, t).metric && packed == Select(Params(), prev, sym, t).packed
    {
      PredecessorsAreStates(Params(), t);
      Pow2Monotone(k - 1, 7);
      var pA, pB, bit := predA[t], predB[t], bitA[t];
      var bmA, pmA := PathThrough(sym, row, pA, bit, prev);
      var bmB, pmB := PathThrough(sym, row, pB, bit, prev);
      // the smaller path metric survives; equal metrics go to the smaller branch metric, then to A
      var chooseA;
      if pmA == pmB {
        if bmA == bmB {
          chooseA := true;
        } else {
          chooseA := bmA < bmB;
        }
      } else if pmA < 0 {
        chooseA := false;
      } else if pmB < 0 {
        chooseA := true;
      } else {
        chooseA := pmA < pmB;
      }
      if chooseA {
        pm, packed := pmA, pA * 2 + bit;
      } else {
        pm, packed := pmB, pB * 2 + bit;
      }
    }

    /** Marks every state unreachable except the start state, which gets metric 0. */
    method ResetMetrics(start: nat)
      requires Valid() && start < NumStates(Params())
      modifies pathMetrics
      ensures RowHolds(pathMetrics[..], NumStates(Params()), 0, InitialMetrics(Params(), start))
    {
      var S := NumStates(Params());
      assert S <= pathMetrics.Length by {
        assert S * (nbSymbolsMax + 1) == S + S * nbSymbolsMax;
      }
      var t := 0;
      while t < S
        invariant 0 <= t <= S
        invariant forall u :: 0 <= u < t ==> pathMetrics[u] == -1
      {
        pathMetrics[t] := -1;
        t := t + 1;
      }
      pathMetrics[start] := 0;
    }

    /**
     * Add-compare-select for state ib at symbol si, storing the survivor's
     * metric in row si + 1 and its packed branch in traceback row si.
     */
    method Survive(sym: Byte, si: nat, ib: nat, ghost prev: seq<int>) returns (pm: int)
      requires Ready() && |prev| == NumStates(Params()) && ib < NumStates(Params())
      requires Ix(NumStates(Params()), si + 1, 0) + NumStates(Params()) <= pathMetrics.Length
      requires Ix(NumStates(Params()), si, 0) + NumStates(Params()) <= Ix(NumStates(Params()), si + 1, 0)
      requires Ix(NumStates(Params()), si, 0) + NumStates(Params()) <= traceback.Length
      requires RowHolds(pathMetrics[..], NumStates(Params()), si, prev)
      requires RowPrefix(pathMetrics[..], NumStates(Params()), si + 1, NextMetrics(Params(), prev, sym), ib)
      requires RowPrefix(traceback[..], NumStates(Params()), si, NextDecisions(Params(), prev, sym), ib)
      modifies pathMetrics, traceback
      ensures RowHolds(pathMetrics[..], NumStates(Params()), si, prev)
      ensures RowPrefix(pathMetrics[..], NumStates(Params()), si + 1, NextMetrics(Params(), prev, sym), ib + 1)
      ensures RowPrefix(traceback[..], NumStates(Params()), si, NextDecisions(Params(), prev, sym), ib + 1)
      ensures traceback[..Ix(NumStates(Params()), si, 0)] == old(traceback[..Ix(NumStates(Params()), si, 0)])
      ensures pm == NextMetrics(Params(), prev, sym)[ib]
    {
      var S := NumStates(Params());
      var packed;
      pm, packed := AddCompareSelect(sym, si, ib, prev);
      NextAt(Params(), prev, sym, ib);
      ghost var metrics, decisions := pathMetrics[..], traceback[..];
      RowPrefixWrite(metrics, S, si + 1, NextMetrics(Params(), prev, sym), ib, pm);
      RowPrefixKeep(metrics, S, si, prev, S, Ix(S, si + 1, ib), pm);
      RowPrefixWrite(decisions, S, si, NextDecisions(Params(), prev, sym), ib, packed);
      pathMetrics[Ix(S, si + 1, ib)] := pm;
      traceback[Ix(S, si, ib)] := packed;
      assert pathMetrics[..] == metrics[Ix(S, si + 1, ib) := pm];
      assert traceback[..] == decisions[Ix(S, si, ib) := packed];
      assert traceback[..Ix(S, si, 0)] == decisions[..Ix(S, si, 0)];
    }

    /**
     * One forward step of the decoder: from the metrics prev in row si, fills
     * metric row si + 1 and traceback row si for the received symbol sym, and
     * returns the best (first smallest) reachable metric and its state.
     */
    method ForwardRow(sym: Byte, si: nat, ghost prev: seq<int>) returns (minMetric: int, minPathIndex: nat)
      requires Ready() && |prev| == NumStates(Params())
      requires Ix(NumStates(Params()), si + 1, 0) + NumStates(Params()) <= pathMetrics.Length
      requires Ix(NumStates(Params()), si, 0) + NumStates(Params()) <= traceback.Length
      requires RowHolds(pathMetrics[..], NumStates(Params()), si, prev)
      modifies pathMetrics, traceback
      ensures RowHolds(pathMetrics[..], NumStates(Params()), si + 1, NextMetrics(Params(), prev, sym))
      ensures RowHolds(traceback[..], NumStates(Params()), si, NextDecisions(Params(), prev, sym))
      ensures traceback[..Ix(NumStates(Params()), si, 0)] == old(traceback[..Ix(NumStates(Params()), si, 0)])
      ensures (minMetric, minPathIndex) == Scan(NextMetrics(Params(), prev, sym))
    {
      var c := Params();
      var S := NumStates(c);
      ghost var next := NextMetrics(c, prev, sym);
      ghost var decisions := NextDecisions(c, prev, sym);
      ghost var older := traceback[..Ix(S, si, 0)];
      IxRowEnd(S, si, si + 1);
      minMetric := INT_MAX;
      minPathIndex := 0;
      ghost var seen: seq<int> := [];
      var ib := 0;
      while ib < S
        invariant 0 <= ib <= S
        invariant RowHolds(pathMetrics[..], S, si, prev)
        invariant RowPrefix(pathMetrics[..], S, si + 1, next, ib)
        invariant RowPrefix(traceback[..], S, si, decisions, ib)
        invariant traceback[..Ix(S, si, 0)] == older
        invariant seen == next[..ib]
        invariant minMetric == Scan(seen).0 && minPathIndex == Scan(seen).1
      {
        var pm := Survive(sym, si, ib, prev);
        minMetric, minPathIndex := KeepBest(minMetric, minPathIndex, pm, ib, seen);
        PrefixSnoc(next, ib);
        seen := seen + [pm];
        ib := ib + 1;
      }
      assert seen == next;
    }

    /** Follows the survivor decisions back from state final, writing one data bit per symbol. */
    method TraceBackInto(dataBits: array<Byte>, nbSymbols: nat, final: nat)
      requires ValidCode(Params()) && EntriesInRange(traceback[..], NumStates(Params()), nbSymbols)
      requires final < NumStates(Params()) && dataBits.Length >= nbSymbols && dataBits != traceback
      modifies dataBits
      ensures dataBits[..nbSymbols] == Follow(traceback[..], NumStates(Params()), nbSymbols, final)
      ensures dataBits[nbSymbols..] == old(dataBits[nbSymbols..])
    {
      var S := NumStates(Params());
      var bIx: nat := final;
      ghost var full := Follow(traceback[..], S, nbSymbols, final);
      var si := nbSymbols - 1;
      while si >= 0
        invariant -1 <= si < nbSymbols
        invariant bIx < S
        invariant Follow(traceback[..], S, si + 1, bIx) == full[..si + 1]
        invariant forall j :: si < j < nbSymbols ==> dataBits[j] == full[j]
        invariant dataBits[nbSymbols..] == old(dataBits[nbSymbols..])
      {
        var packed := traceback[Ix(S, si, bIx)];
        assert full[..si + 1] == full[..si] + [full[si]];
        dataBits[si] := packed % 2;
        bIx := packed / 2;
        si := si - 1;
      }
      assert dataBits[..nbSymbols] == full;
    }

    /**
     * Runs add-compare-select over all symbols, filling one traceback row per
     * symbol, and returns the state where the traceback starts.
     */
    method Forward(symbols: seq<Byte>, start: nat) returns (minPathIndex: nat)
      requires Valid() && |symbols| <= nbSymbolsMax && start < NumStates(Params())
      modifies pathMetrics, traceback
      ensures DecisionRows(traceback[..], Params(), symbols, start, |symbols|)
      ensures |symbols| > 0 ==> minPathIndex == Scan(Metrics(Params(), symbols, start, |symbols|)).1
      ensures minPathIndex < NumStates(Params())
    {
      var c := Params();
      var S := NumStates(c);
      var nbSymbols := |symbols|;
      CapacityCovers(S, nbSymbols, nbSymbolsMax);
      ResetMetrics(start);
      minPathIndex := 0;
      var si := 0;
      while si < nbSymbols
        invariant 0 <= si <= nbSymbols
        invariant RowHolds(pathMetrics[..], S, si, Metrics(c, symbols, start, si))
        invariant DecisionRows(traceback[..], c, symbols, start, si)
        invariant si > 0 ==> minPathIndex == Scan(Metrics(c, symbols, start, si)).1
        invariant minPathIndex < S
      {
        ghost var before := traceback[..];
        IxRowEnd(S, si + 1, nbSymbols + 1);
        IxRowEnd(S, si, nbSymbols);
        var minMetric;
        minMetric, minPathIndex := ForwardRow(symbols[si], si, Metrics(c, symbols, start, si));
        DecisionRowsExtend(before, traceback[..], c, symbols, start, si);
        si := si + 1;
      }
    }

    /**
     * Decodes symbols into dataBits[..|symbols|], starting in trellis state
     * startstate; the buffers are reallocated when the input is longer than
     * any before.
     */
    method DecodeFromSymbols(dataBits: array<Byte>, symbols: seq<Byte>, startstate: nat)
      requires Valid()
      requires dataBits.Length >= |symbols| && startstate < NumStates(Params())
      requires dataBits != traceback && dataBits != branchCodes
      requires dataBits != predA && dataBits != bitA && dataBits != predB && dataBits != bitB
      modifies this, pathMetrics, traceback, dataBits
      ensures Valid()
      ensures dataBits[..|symbols|] == Decode(Params(), symbols, startstate)
      ensures forall k :: 0 <= k < |symbols| ==> dataBits[k] <= 1
      ensures dataBits[|symbols|..] == old(dataBits[|symbols|..])
      ensures nbSymbolsMax == if |symbols| > old(nbSymbolsMax) then |symbols| else old(nbSymbolsMax)
      ensures |symbols| > old(nbSymbolsMax) ==> fresh(pathMetrics) && fresh(traceback)
      ensures |symbols| <= old(nbSymbolsMax) ==> pathMetrics == old(pathMetrics) && traceback == old(traceback)
    {
      if |symbols| > nbSymbolsMax {
        Reserve(|symbols|);
      }
      DecodeInto(dataBits, symbols, startstate);
      forall k | 0 <= k < |symbols| ensures dataBits[k] <= 1 {
        assert dataBits[k] == dataBits[..|symbols|][k];
      }
    }

    /** Reallocates the path-metric and traceback buffers for nbSymbols symbols. */
    method Reserve(nbSymbols: nat)
      requires Valid()
      modifies this
      ensures Valid() && nbSymbolsMax == nbSymbols && fresh(pathMetrics) && fresh(traceback)
    {
      var S := NumStates(Params());
      traceback := new Byte[S * nbSymbols];
      pathMetrics := new int[S * (nbSymbols + 1)];
      nbSymbolsMax := nbSymbols;
    }

    /** Forward pass then traceback, in buffers already large enough for symbols. */
    method DecodeInto(dataBits: array<Byte>, symbols: seq<Byte>, startstate: nat)
      requires Valid() && |symbols| <= nbSymbolsMax
      requires dataBits.Length >= |symbols| && startstate < NumStates(Params())
      requires dataBits != traceback && dataBits != branchCodes
      requires dataBits != predA && dataBits != bitA && dataBits != predB && dataBits != bitB
      modifies pathMetrics, traceback, dataBits
      ensures dataBits[..|symbols|] == Decode(Params(), symbols, startstate)
      ensures dataBits[|symbols|..] == old(dataBits[|symbols|..])
    {
      var minPathIndex := Forward(symbols, startstate);
      DecisionRowsInRange(traceback[..], Params(), symbols, startstate);
      TraceBackInto(dataBits, |symbols|, minPathIndex);
      FollowIsTraceBack(traceback[..], Params(), symbols, startstate, |symbols|, minPathIndex);
      DecodeEndsIn(Params(), symbols, startstate, minPathIndex);
    }
  }
}
