/**
 * Constant tables of the dPMR decoder: the voice-bit schedule that places
 * each 36-dibit voice block into the 4 x 24 AMBE frame, the three 12-symbol
 * sync patterns, the Hamming(12,8) parity-check matrix and its correction
 * table, and the two block de-interleavers.
 */
module DpmrTables {
  import opened Bits

  // ---------------------------------------------------------------------
  // Voice-bit schedule: dibit j of a voice block sends its high bit to
  // AMBE cell (RW[j], RX[j]) and its low bit to cell (RY[j], RZ[j]).
  // ---------------------------------------------------------------------

  const RW: seq<int> := [0, 1, 0, 1, 0, 1, 0, 1, 0, 1, 0, 1, 0, 1, 0, 1, 0, 1, 0, 1, 0, 1, 0, 2, 0, 2, 0, 2, 0, 2, 0, 2, 0, 2, 0, 2]
  const RX: seq<int> := [23, 10, 22, 9, 21, 8, 20, 7, 19, 6, 18, 5, 17, 4, 16, 3, 15, 2, 14, 1, 13, 0, 12, 10, 11, 9, 10, 8, 9, 7, 8, 6, 7, 5, 6, 4]
  const RY: seq<int> := [0, 2, 0, 2, 0, 2, 0, 2, 0, 3, 0, 3, 1, 3, 1, 3, 1, 3, 1, 3, 1, 3, 1, 3, 1, 3, 1, 3, 1, 3, 1, 3, 1, 3, 1, 3]
  const RZ: seq<int> := [5, 3, 4, 2, 3, 1, 2, 0, 1, 13, 0, 12, 22, 11, 21, 10, 20, 9, 19, 8, 18, 7, 17, 6, 16, 5, 15, 4, 14, 3, 13, 2, 12, 1, 11, 0]

  /** Rows and columns of the AMBE frame ambe_fr[4][24]. */
  const AmbeRows := 4
  const AmbeCols := 24

  /** The AMBE frame is kept row-major in 96 cells. */
  function AmbeCell(row: int, col: int): int
  {
    AmbeCols * row + col
  }

  /** Cell that receives the high bit of dibit j of a voice block. */
  function HighTarget(j: nat): (cell: int)
    requires j < 36
    ensures 0 <= cell < AmbeRows * AmbeCols
  {
    VoiceTargetsInFrame(j);
    AmbeCell(RW[j], RX[j])
  }

  /** Cell that receives the low bit of dibit j of a voice block. */
  function LowTarget(j: nat): (cell: int)
    requires j < 36
    ensures 0 <= cell < AmbeRows * AmbeCols
  {
    VoiceTargetsInFrame(j);
    AmbeCell(RY[j], RZ[j])
  }

  // Closed forms of the four schedule columns, used to reason about all 36
  // entries at once.
  function HighRow(j: nat): int { if j % 2 == 0 then 0 else if j < 23 then 1 else 2 }
  function HighCol(j: nat): int { if j % 2 == 0 then 23 - j / 2 else if j < 23 then 10 - (j - 1) / 2 else 10 - (j - 23) / 2 }
  function LowRow(j: nat): int { if j % 2 == 0 then (if j < 12 then 0 else 1) else if j < 9 then 2 else 3 }
  function LowCol(j: nat): int { if j % 2 == 0 then (if j < 12 then 5 - j / 2 else 22 - (j - 12) / 2) else if j < 9 then 3 - (j - 1) / 2 else 13 - (j - 9) / 2 }

  predicate HighMatches(j: nat)
    requires j < 36
  {
    RW[j] == HighRow(j) && RX[j] == HighCol(j)
  }

  predicate LowMatches(j: nat)
    requires j < 36
  {
    RY[j] == LowRow(j) && RZ[j] == LowCol(j)
  }

  lemma HighClosedForm(j: nat)
    requires j < 36
    ensures HighMatches(j)
  {
    if j == 0 {
      assert HighMatches(0);
    } else if j == 1 {
      assert HighMatches(1);
    } else if j == 2 {
      assert HighMatches(2);
    } else if j == 3 {
      assert HighMatches(3);
    } else if j == 4 {
      assert HighMatches(4);
    } else if j == 5 {
      assert HighMatches(5);
    } else if j == 6 {
      assert HighMatches(6);
    } else if j == 7 {
      assert HighMatches(7);
    } else if j == 8 {
      assert HighMatches(8);
    } else if j == 9 {
      assert HighMatches(9);
    } else if j == 10 {
      assert HighMatches(10);
    } else if j == 11 {
      assert HighMatches(11);
    } else if j == 12 {
      assert HighMatches(12);
    } else if j == 13 {
      assert HighMatches(13);
    } else if j == 14 {
      assert HighMatches(14);
    } else if j == 15 {
      assert HighMatches(15);
    } else if j == 16 {
      assert HighMatches(16);
    } else if j == 17 {
      assert HighMatches(17);
    } else if j == 18 {
      assert HighMatches(18);
    } else if j == 19 {
      assert HighMatches(19);
    } else if j == 20 {
      assert HighMatches(20);
    } else if j == 21 {
      assert HighMatches(21);
    } else if j == 22 {
      assert HighMatches(22);
    } else if j == 23 {
      assert HighMatches(23);
    } else if j == 24 {
      assert HighMatches(24);
    } else if j == 25 {
      assert HighMatches(25);
    } else if j == 26 {
      assert HighMatches(26);
    } else if j == 27 {
      assert HighMatches(27);
    } else if j == 28 {
      assert HighMatches(28);
    } else if j == 29 {
      assert HighMatches(29);
    } else if j == 30 {
      assert HighMatches(30);
    } else if j == 31 {
      assert HighMatches(31);
    } else if j == 32 {
      assert HighMatches(32);
    } else if j == 33 {
      assert HighMatches(33);
    } else if j == 34 {
      assert HighMatches(34);
    } else if j == 35 {
      assert HighMatches(35);
    }
  }

  lemma LowClosedForm(j: nat)
    requires j < 36
    ensures LowMatches(j)
  {
    if j == 0 {
      assert LowMatches(0);
    } else if j == 1 {
      assert LowMatches(1);
    } else if j == 2 {
      assert LowMatches(2);
    } else if j == 3 {
      assert LowMatches(3);
    } else if j == 4 {
      assert LowMatches(4);
    } else if j == 5 {
      assert LowMatches(5);
    } else if j == 6 {
      assert LowMatches(6);
    } else if j == 7 {
      assert LowMatches(7);
    } else if j == 8 {
      assert LowMatches(8);
    } else if j == 9 {
      assert LowMatches(9);
    } else if j == 10 {
      assert LowMatches(10);
    } else if j == 11 {
      assert LowMatches(11);
    } else if j == 12 {
      assert LowMatches(12);
    } else if j == 13 {
      assert LowMatches(13);
    } else if j == 14 {
      assert LowMatches(14);
    } else if j == 15 {
      assert LowMatches(15);
    } else if j == 16 {
      assert LowMatches(16);
    } else if j == 17 {
      assert LowMatches(17);
    } else if j == 18 {
      assert LowMatches(18);
    } else if j == 19 {
      assert LowMatches(19);
    } else if j == 20 {
      assert LowMatches(20);
    } else if j == 21 {
      assert LowMatches(21);
    } else if j == 22 {
      assert LowMatches(22);
    } else if j == 23 {
      assert LowMatches(23);
    } else if j == 24 {
      assert LowMatches(24);
    } else if j == 25 {
      assert LowMatches(25);
    } else if j == 26 {
      assert LowMatches(26);
    } else if j == 27 {
      assert LowMatches(27);
    } else if j == 28 {
      assert LowMatches(28);
    } else if j == 29 {
      assert LowMatches(29);
    } else if j == 30 {
      assert LowMatches(30);
    } else if j == 31 {
      assert LowMatches(31);
    } else if j == 32 {
      assert LowMatches(32);
    } else if j == 33 {
      assert LowMatches(33);
    } else if j == 34 {
      assert LowMatches(34);
    } else if j == 35 {
      assert LowMatches(35);
    }
  }

  /** Every schedule entry addresses a cell of the 4 x 24 frame. */
  lemma VoiceTargetsInFrame(j: nat)
    requires j < 36
    ensures 0 <= RW[j] < AmbeRows && 0 <= RX[j] < AmbeCols
    ensures 0 <= RY[j] < AmbeRows && 0 <= RZ[j] < AmbeCols
  {
    HighClosedForm(j);
    LowClosedForm(j);
  }

  /**
   * The 72 cells written by one voice block are pairwise distinct, so no
   * bit of a block overwrites another.
   */
  lemma VoiceTargetsDistinct(a: nat, b: nat)
    requires a < 36 && b < 36
    ensures a != b ==> HighTarget(a) != HighTarget(b) && LowTarget(a) != LowTarget(b)
    ensures HighTarget(a) != LowTarget(b)
  {
    HighClosedForm(a);
    HighClosedForm(b);
    LowClosedForm(a);
    LowClosedForm(b);
    if a != b {
      HighCellsDistinct(a, b);
      LowCellsDistinct(a, b);
    }
    HighLowCellsDistinct(a, b);
  }

  lemma HighCellsDistinct(a: nat, b: nat)
    requires a < 36 && b < 36 && a != b
    ensures AmbeCell(HighRow(a), HighCol(a)) != AmbeCell(HighRow(b), HighCol(b))
  {
  }

  lemma LowCellsDistinct(a: nat, b: nat)
    requires a < 36 && b < 36 && a != b
    ensures AmbeCell(LowRow(a), LowCol(a)) != AmbeCell(LowRow(b), LowCol(b))
  {
  }

  lemma HighLowCellsDistinct(a: nat, b: nat)
    requires a < 36 && b < 36
    ensures AmbeCell(HighRow(a), HighCol(a)) != AmbeCell(LowRow(b), LowCol(b))
  {
  }

  // ---------------------------------------------------------------------
  // Sync patterns, as sign symbols: 1 stands for +3, 3 for -3.
  // ---------------------------------------------------------------------

  const FS2: seq<int> := [1, 1, 3, 3, 3, 3, 1, 3, 1, 3, 3, 1]
  const FS3: seq<int> := [1, 3, 3, 1, 3, 1, 3, 3, 3, 3, 1, 1]
  const Preamble: seq<int> := [1, 1, 3, 3, 1, 1, 3, 3, 1, 1, 3, 3]

  // ---------------------------------------------------------------------
  // Hamming(12,8): parity-check matrix, one row of 12 columns per syndrome
  // bit; columns 0-7 are the data bits, 8-11 the check bits.
  // ---------------------------------------------------------------------

  function H(row: nat, col: nat): Bit
    requires row < 4 && col < 12
  {
    if row == 0 then [1, 0, 1, 0, 1, 1, 0, 0, 1, 0, 0, 0][col]
    else if row == 1 then [1, 1, 0, 1, 0, 1, 1, 0, 0, 1, 0, 0][col]
    else if row == 2 then [1, 1, 1, 0, 1, 0, 1, 1, 0, 0, 1, 0][col]
    else [0, 1, 0, 1, 1, 0, 0, 1, 0, 0, 0, 1][col]
  }

  /** Marks a syndrome that names no correctable position. */
  const Uncorrectable := 0xFF

  /**
   * The correction table as the decoder fills it: indexed by a syndrome
   * whose first parity-check row is the most significant of four bits, it
   * names the data position to flip.
   */
  const CorrTable: seq<int> := [0xFF, 0xFF, 0xFF, 7, 0xFF, 3, 6, 1, 0xFF, 0xFF, 2, 4, 5, 0xFF, 0, 0xFF]

  // ---------------------------------------------------------------------
  // Block de-interleavers: bit i of the channel goes to dI[i].
  // ---------------------------------------------------------------------

  /** De-interleave position of the 72 control-channel bits. */
  function DI72(i: nat): (j: nat)
    requires i < 72
    ensures j < 72
  {
    12 * (i % 6) + i / 6
  }

  /** De-interleave position of the 120 header bits. */
  function DI120(i: nat): (j: nat)
    requires i < 120
    ensures j < 120
  {
    12 * (i % 10) + i / 10
  }

  /** Channel position that DI72 sends to j. */
  function UnDI72(j: nat): (i: nat)
    requires j < 72
    ensures i < 72
  {
    6 * (j % 12) + j / 12
  }

  /** Channel position that DI120 sends to j. */
  function UnDI120(j: nat): (i: nat)
    requires j < 120
    ensures i < 120
  {
    10 * (j % 12) + j / 12
  }

  /** Quotient and remainder of a number written as m * q + r. */
  lemma DivMod(m: nat, q: nat, r: nat)
    requires r < m
    ensures (m * q + r) / m == q && (m * q + r) % m == r
  {
    var x := m * q + r;
    var q' := x / m;
    var r' := x % m;
    assert m * q' + r' == m * q + r;
    MulGrows(m, q', q);
    MulGrows(m, q, q');
  }

  /** A larger factor adds at least one more m. */
  lemma MulGrows(m: nat, a: nat, b: nat)
    ensures a < b ==> m * a + m <= m * b
  {
    if a < b {
      MulMonotone(m, a + 1, b);
    }
  }

  /** Multiplication by a natural number is monotone. */
  lemma MulMonotone(m: nat, a: nat, b: nat)
    requires a <= b
    ensures m * a <= m * b
  {
  }

  /** UnDI72 undoes DI72. */
  lemma DI72Inverse(i: nat)
    requires i < 72
    ensures UnDI72(DI72(i)) == i
  {
    var row := i / 6;
    var col := i % 6;
    DivMod(12, col, row);
  }

  /** DI72 undoes UnDI72. */
  lemma UnDI72Inverse(j: nat)
    requires j < 72
    ensures DI72(UnDI72(j)) == j
  {
    var row := j / 12;
    var col := j % 12;
    DivMod(6, col, row);
  }

  /** DI72 is a bijection of [0, 72) with inverse UnDI72. */
  lemma DI72Bijective(i: nat, j: nat)
    requires i < 72 && j < 72
    ensures UnDI72(DI72(i)) == i && DI72(UnDI72(j)) == j
    ensures DI72(i) == j <==> i == UnDI72(j)
  {
    DI72Inverse(i);
    UnDI72Inverse(j);
  }

  /** UnDI120 undoes DI120. */
  lemma DI120Inverse(i: nat)
    requires i < 120
    ensures UnDI120(DI120(i)) == i
  {
    var row := i / 10;
    var col := i % 10;
    DivMod(12, col, row);
  }

  /** DI120 undoes UnDI120. */
  lemma UnDI120Inverse(j: nat)
    requires j < 120
    ensures DI120(UnDI120(j)) == j
  {
    var row := j / 12;
    var col := j % 12;
    DivMod(10, col, row);
  }

  /** DI120 is a bijection of [0, 120) with inverse UnDI120. */
  lemma DI120Bijective(i: nat, j: nat)
    requires i < 120 && j < 120
    ensures UnDI120(DI120(i)) == i && DI120(UnDI120(j)) == j
    ensures DI120(i) == j <==> i == UnDI120(j)
  {
    DI120Inverse(i);
    UnDI120Inverse(j);
  }
}
