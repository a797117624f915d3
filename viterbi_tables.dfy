/**
 * Constant tables of the Viterbi codec: the parity and bit-count lookup
 * tables and the generator polynomial sets offered to users of the codec.
 */
module ViterbiTables {
  import opened Bits

  /** Parity of every byte value (Partab). */
  const Partab: seq<Bit> := ParityTable()

  /** Number of bits set in every byte value (NbOnes). */
  const NbOnes: seq<nat> := CountTable()

  function ParityTable(): (t: seq<Bit>)
    ensures |t| == 256
  {
    seq(256, i requires 0 <= i => Parity(i))
  }

  function CountTable(): (t: seq<nat>)
    ensures |t| == 256
  {
    seq(256, i requires 0 <= i => Popcount(i))
  }

  /** Generator polynomial pairs for rate 1/2 codes, k = 3, 3, 4, 5, 5, 5. */
  const Poly23: seq<nat> := [0x7, 0x6]
  const Poly23a: seq<nat> := [0x7, 0x5]
  const Poly24: seq<nat> := [0xf, 0xb]
  const Poly25: seq<nat> := [0x17, 0x19]
  const Poly25a: seq<nat> := [0x13, 0x1b]
  const Poly25y: seq<nat> := [0x13, 0x1d]

  lemma {:induction false} PopcountBelow(x: nat, m: nat)
    requires x < Pow2(m)
    ensures Popcount(x) <= m
  {
    if x != 0 {
      PopcountBelow(x / 2, m - 1);
    }
  }

  /** A branch metric read from NbOnes is a Hamming distance between two bytes. */
  lemma NbOnesBounds(x: nat)
    requires x < 256
    ensures NbOnes[x] <= 8
    ensures NbOnes[x] == 0 <==> x == 0
  {
    assert Pow2(8) == 256;
    PopcountBelow(x, 8);
    PopcountZero(x);
  }

  /** Partab agrees with the parity of NbOnes. */
  lemma PartabIsNbOnesParity(x: nat)
    requires x < 256
    ensures Partab[x] == NbOnes[x] % 2
  {
  }

  /**
   * In every published polynomial set the first generator uses the oldest
   * register bit (bit k-1), which makes the code decodable from its start state.
   */
  lemma PolySetsUseTopBit()
    ensures BitAt(Poly23[0], 2) == 1 && BitAt(Poly23a[0], 2) == 1
    ensures BitAt(Poly24[0], 3) == 1
    ensures BitAt(Poly25[0], 4) == 1 && BitAt(Poly25a[0], 4) == 1 && BitAt(Poly25y[0], 4) == 1
  {
  }
}
