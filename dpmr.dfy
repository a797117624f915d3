/**
 * The dPMR frame decoder object: one process() call per received dibit,
 * updating its fields and buffers in place. Every method is proved to do
 * to the decoder's snapshot exactly what the matching function of
 * DpmrSpec does.
 */
module Dpmr {
  import opened Bits
  import opened DpmrTables
  import opened DpmrFec
  import opened DpmrSpec

  /** initScrambling: reset the generator and collect its first 120 outputs. */
  method BuildScrambling() returns (scrambleBits: seq<Bit>)
    ensures scrambleBits == ScrambleBits()
  {
    var generator := new Lfsr();
    generator.Init();
    scrambleBits := [];
    var i := 0;
    while i < 120
      invariant 0 <= i <= 120
      invariant generator.sr == LfsrState(LfsrSeed, i)
      invariant scrambleBits == Keystream(LfsrSeed, i)
    {
      // next() & 1: the output already is a single bit
      var b := generator.Next();
      LfsrStateNext(LfsrSeed, i);
      KeystreamSnoc(LfsrSeed, i);
      scrambleBits := scrambleBits + [b];
      i := i + 1;
    }
  }

  /** initInterleaveIndexes: the closed forms of the two de-interleavers. */
  method BuildInterleaveIndexes() returns (dI72: seq<nat>, dI120: seq<nat>)
    ensures dI72 == DI72Table() && dI120 == DI120Table()
  {
    var a72 := new nat[72];
    for i := 0 to 72
      invariant forall k :: 0 <= k < i ==> a72[k] == DI72(k)
    {
      a72[i] := 12 * (i % 6) + i / 6;
    }
    assert forall k | 0 <= k < 72 :: a72[..][k] == DI72Table()[k];
    dI72 := a72[..];
    var a120 := new nat[120];
    for i := 0 to 120
      invariant forall k :: 0 <= k < i ==> a120[k] == DI120(k)
    {
      a120[i] := 12 * (i % 10) + i / 10;
    }
    assert forall k | 0 <= k < 120 :: a120[..][k] == DI120Table()[k];
    dI120 := a120[..];
  }

  /** The decoder's zero-initialised work buffers and host frames, each a separate array. */
  method NewBuffers() returns (rx: array<Bit>, decoded: array<Bit>, colour: array<Bit>, work: array<Bit>,
                               frame: array<Bit>, sync: array<int>, dv: array<Byte>)
    ensures fresh(rx) && fresh(decoded) && fresh(colour) && fresh(work) && fresh(frame) && fresh(sync) && fresh(dv)
    ensures rx != decoded && rx != colour && rx != work && rx != frame
    ensures decoded != colour && decoded != work && decoded != frame
    ensures colour != work && colour != frame && work != frame
    ensures rx[..] == Zeros(120) && decoded[..] == Zeros(80) && colour[..] == Zeros(12) && work.Length == 88
    ensures frame[..] == Zeros(AmbeRows * AmbeCols) && sync[..] == Zeros(24) && dv[..] == Zeros(9)
  {
    rx := new Bit[120](_ => 0);
    decoded := new Bit[80](_ => 0);
    colour := new Bit[12](_ => 0);
    work := new Bit[88](_ => 0);
    frame := new Bit[AmbeRows * AmbeCols](_ => 0);
    sync := new int[24](_ => 0);
    dv := new Byte[9](_ => 0);
  }

  /**
   * The numbers processHIn reads from a decoded header, each most
   * significant bit first: type (bits 0-3), called and own identifiers
   * (4-27 and 28-51, accumulated from their last bit upwards), mode
   * (52-54) and format (55-58).
   */
  method ReadHeaderWords(b: array<Bit>) returns (ht: nat, called: nat, own: nat, mode: nat, format: nat)
    requires b.Length >= 59
    ensures ht == BitsToNat(b[..][0..4]) && mode == BitsToNat(b[..][52..55]) && format == BitsToNat(b[..][55..59])
    ensures called == BitsToNat(b[..][4..28]) && own == BitsToNat(b[..][28..52])
  {
    ghost var bs := b[..];
    ht := 8 * (b[0] as int) + 4 * (b[1] as int) + 2 * (b[2] as int) + b[3];
    mode := 4 * (b[52] as int) + 2 * (b[53] as int) + b[54];
    format := 8 * (b[55] as int) + 4 * (b[56] as int) + 2 * (b[57] as int) + b[58];
    BitsToNat4(bs[0..4]);
    BitsToNat3(bs[52..55]);
    BitsToNat4(bs[55..59]);
    called, own := ReadIds(b);
  }

  /** The called and own identifiers (bits 4-27 and 28-51), both summed in one loop from their last bit upwards. */
  method ReadIds(b: array<Bit>) returns (called: nat, own: nat)
    requires b.Length >= 52
    ensures called == BitsToNat(b[..][4..28]) && own == BitsToNat(b[..][28..52])
  {
    ghost var bs := b[..];
    called, own := 0, 0;
    for i := 0 to 24
      invariant called == SumFromEnd(bs, 28, i) && own == SumFromEnd(bs, 52, i)
    {
      called := called + (b[4 + 23 - i] as int) * Pow2(i);
      own := own + (b[28 + 23 - i] as int) * Pow2(i);
    }
    SumFromEndIsValue(bs, 28, 24);
    SumFromEndIsValue(bs, 52, 24);
  }

  /**
   * The header fields after a block whose CRC8 passed: a non-zero
   * identifier replaces the stored one, and codes past the defined ones
   * become the reserved value.
   */
  method TakeHeaderFields(b: array<Bit>, v: Received) returns (r: Received)
    requires b.Length >= 59 && ReceivedOk(v)
    ensures r == HeaderFields(v, b[..])
  {
    var ht, called, own, mode, format := ReadHeaderWords(b);
    HeaderFieldsFromWords(v, b[..], ht, called, own, mode, format);
    r := v;
    if called != 0 {
      r := r.(calledId := called);
    }
    if own != 0 {
      r := r.(ownId := own);
    }
    r := r.(headerType := if ht < 9 then Code(ht) else Reserved);
    r := r.(commMode := if mode < 6 then Code(mode) else Reserved);
    r := r.(commFormat := if format < 2 then Code(format) else Reserved);
  }

  /** The colour code in a 12-slot sign buffer, slot 0 as its most significant bit, summed from slot 11 up. */
  method ReadColourCode(cb: array<Bit>) returns (code: nat)
    requires cb.Length == 12
    ensures code == BitsToNat(cb[..]) && code < 0x1000
  {
    ghost var bs := cb[..];
    code := 0;
    var i: int := 11;
    var n: nat := 0;
    while i >= 0
      invariant -1 <= i <= 11 && n == 11 - i
      invariant code == SumFromEnd(bs, 12, n)
    {
      SumFromEndStep(bs, 12, n);
      if cb[i] == 1 {
        code := code + Pow2(n);
      }
      i, n := i - 1, n + 1;
    }
    SumFromEndIsValue(bs, 12, 12);
    assert bs[0..12] == bs;
    Pow2Values();
  }

  class DsdDpmr {
    /**
     * The control registers m_state, m_frameType, m_syncCycle,
     * m_symbolIndex and m_frameIndex, and the offset the schedule cursors
     * w, x, y, z have advanced from rW, rX, rY, rZ.
     */
    var ctl: Control

    /** m_colourCode, m_calledId, m_ownId and the three header codes. */
    var rcv: Received

    // Work buffers.
    const bitBufferRx: array<Bit>
    const bitBuffer: array<Bit>
    const syncDoubleBuffer: array<int>
    const colourBuffer: array<Bit>
    const bitWork: array<Bit>

    // The host's frames, flag and counters.
    const ambe: array<Bit>
    const dvFrame: array<Byte>
    const mbelib: bool
    var resyncs: nat
    var voiceFrames: nat

    // Tables built by the constructor.
    const scrambleBits: seq<Bit>
    const dI72: seq<nat>
    const dI120: seq<nat>
    const hamming: Hamming

    ghost function View(): Snapshot
      reads this, bitBufferRx, bitBuffer, syncDoubleBuffer, colourBuffer, ambe, dvFrame
    {
      Snapshot(ctl, rcv, BufferView(), Host(AmbeView(), DvView(), mbelib, resyncs, voiceFrames),
               Tables(scrambleBits, dI72, dI120))
    }

    /** The contents of the four work buffers. */
    ghost function BufferView(): Buffers
      reads bitBufferRx, bitBuffer, syncDoubleBuffer, colourBuffer
    {
      Buffers(bitBufferRx[..], bitBuffer[..], syncDoubleBuffer[..], colourBuffer[..])
    }

    /** The contents of the AMBE frame. */
    ghost function AmbeView(): seq<Bit>
      reads ambe
    {
      ambe[..]
    }

    /** The contents of the DVSI frame. */
    ghost function DvView(): seq<Byte>
      reads dvFrame
    {
      dvFrame[..]
    }

    /** The bit buffers are five separate arrays, and the CRC work area holds 80 bits and a check. */
    ghost predicate Distinct()
    {
      bitBufferRx != bitBuffer && bitBufferRx != colourBuffer && bitBufferRx != bitWork && bitBufferRx != ambe
      && bitBuffer != colourBuffer && bitBuffer != bitWork && bitBuffer != ambe
      && colourBuffer != bitWork && colourBuffer != ambe && bitWork != ambe
      && bitWork.Length == 88
    }

    /** What a field handler needs: separate buffers, the correction table, a bounded snapshot. */
    ghost predicate Ready()
      reads this, bitBufferRx, bitBuffer, syncDoubleBuffer, colourBuffer, ambe, dvFrame
    {
      Distinct() && hamming.Valid() && Bounded(View())
    }

    ghost predicate Valid()
      reads this, bitBufferRx, bitBuffer, syncDoubleBuffer, colourBuffer, ambe, dvFrame
    {
      Ready() && Inv(View())
    }

    /** DSDdPMR(): header state, frame index -1, zeroed buffers, tables built. */
    constructor(mbelibEnable: bool)
      ensures View() == Initial(mbelibEnable) && Valid()
    {
      var scramble := BuildScrambling();
      var d72, d120 := BuildInterleaveIndexes();
      hamming := new Hamming();
      var rx, decoded, colour, work, frame, sync, dv := NewBuffers();
      ghost var bufs := Buffers(rx[..], decoded[..], sync[..], colour[..]);
      assert bufs == Buffers(Zeros(120), Zeros(80), Zeros(24), Zeros(12));
      ghost var ambe0, dv0 := frame[..], dv[..];
      bitBufferRx, bitBuffer, colourBuffer, bitWork, ambe := rx, decoded, colour, work, frame;
      syncDoubleBuffer, dvFrame := sync, dv;
      ctl := Control(Header, NoFrame, 0, 0, -1, 0);
      rcv := Received(0, 0, 0, Unset, Unset, Unset);
      mbelib, resyncs, voiceFrames := mbelibEnable, 0, 0;
      scrambleBits, dI72, dI120 := scramble, d72, d120;
      new;
      ghost var init := Initial(mbelibEnable);
      assert BufferView() == bufs;
      assert AmbeView() == ambe0 && DvView() == dv0;
      assert View().bufs == init.bufs;
      assert View().host == init.host && View().tables == init.tables;
    }

    /** init(): restart at the first header symbol. */
    method Init()
      requires Valid()
      modifies this
      ensures View() == DpmrSpec.Init(old(View())) && Valid()
    {
      ctl := ctl.(symbolIndex := 0);
      ctl := ctl.(state := Header);
    }

    /** resetFrameSync() on the host: drop the frame type and count the request. */
    method Resync()
      requires Ready()
      modifies this
      ensures Ready() && View() == DpmrSpec.Resync(old(View()))
    {
      ctl := ctl.(frameType := NoFrame);
      resyncs := resyncs + 1;
    }

    // -------------------------------------------------------------------
    // State handlers.
    // -------------------------------------------------------------------

    /** process(): one dibit (the host's getDibit()), dispatched on the state. */
    method Process(d: Dibit)
      requires Valid()
      modifies this, bitBufferRx, bitBuffer, syncDoubleBuffer, colourBuffer, bitWork, ambe, dvFrame
      ensures View() == Step(old(View()), d) && Valid()
    {
      match ctl.state
      case Header => ProcessHeader(d);
      case PostFrame => ProcessPostFrame(d);
      case ExtSearch => ProcessExtSearch(d);
      case SuperFrame => ProcessSuperFrame(d);
      case End => ProcessEndFrame();
    }

    /** processHeader: HI0 (60 symbols), colour code (12), HI1 (60), then PostFrame. */
    method ProcessHeader(d: Dibit)
      requires Valid() && ctl.state == Header
      modifies this, bitBufferRx, bitBuffer, colourBuffer, bitWork
      ensures View() == HeaderStep(old(View()), d) && Valid()
    {
      ghost var s0 := View();
      if ctl.symbolIndex == 0 {
        ctl := ctl.(frameType := HeaderFrame);
      }
      assert View() == if s0.ctl.symbolIndex == 0 then s0.(ctl := s0.ctl.(frameType := HeaderFrame)) else s0;
      HeaderSymbol(d);
    }

    /** The HI0, colour code and HI1 dispatch of processHeader, after the frame type is set. */
    method HeaderSymbol(d: Dibit)
      requires Valid() && ctl.state == Header
      modifies this, bitBufferRx, bitBuffer, colourBuffer, bitWork
      ensures View() == HeaderField(old(View()), d) && Valid()
    {
      var si := ctl.symbolIndex;
      if si < 60 {
        ProcessHIn(si, d);
        ghost var s2 := View();
        ctl := ctl.(symbolIndex := si + 1);
        assert View() == WithCursor(s2, si + 1);
      } else if si < 60 + 12 {
        ProcessColourCode(si - 60, d);
        ghost var s2 := View();
        ctl := ctl.(symbolIndex := si + 1);
        assert View() == WithCursor(s2, si + 1);
      } else if si < 60 + 12 + 60 {
        ProcessHIn(si - (60 + 12), d);
        ghost var s2 := View();
        ctl := ctl.(symbolIndex := si + 1);
        if ctl.symbolIndex == 60 + 12 + 60 {
          ctl := ctl.(state := PostFrame, symbolIndex := 0, frameIndex := 0);
          assert View() == s2.(ctl := s2.ctl.(state := PostFrame, symbolIndex := 0, frameIndex := 0));
        } else {
          assert View() == WithCursor(s2, si + 1);
        }
      } else {
        Resync();
      }
    }

    /** processPostFrame: 12 sync signs and the decision, then a 180-symbol payload skip. */
    method ProcessPostFrame(d: Dibit)
      requires Valid() && ctl.state == PostFrame
      modifies this, syncDoubleBuffer
      ensures View() == PostFrameStep(old(View()), d) && Valid()
    {
      var si := ctl.symbolIndex;
      if si < 12 {
        syncDoubleBuffer[si] := if d > 1 then 3 else 1;
        ctl := ctl.(symbolIndex := si + 1);
        if ctl.symbolIndex == 12 {
          DecidePostFrame();
        }
      } else if si < 12 + 5 * 36 {
        ctl := ctl.(symbolIndex := si + 1);
      } else {
        ctl := ctl.(symbolIndex := 0);
      }
    }

    /** The end of the PostFrame sync: superframe, end frame, resync, or the extensive search. */
    method DecidePostFrame()
      requires Valid() && ctl.state == PostFrame
      modifies this
      ensures View() == PostFrameDecide(old(View())) && Valid()
    {
      if syncDoubleBuffer[..12] == FS2 {
        ctl := ctl.(state := SuperFrame, symbolIndex := 0);
      } else if syncDoubleBuffer[..12] == FS3 {
        ctl := ctl.(state := End, symbolIndex := 0);
      } else if syncDoubleBuffer[0..8] == Preamble[..8] || syncDoubleBuffer[1..9] == Preamble[..8]
             || syncDoubleBuffer[2..10] == Preamble[..8] || syncDoubleBuffer[3..11] == Preamble[..8] {
        Resync();
      } else {
        ctl := ctl.(frameType := ExtSearchFrame, state := ExtSearch, symbolIndex := 0, syncCycle := 0);
      }
    }

    /**
     * processExtSearch: every 12 symbols the sync cycle advances; in cycles
     * 15 and 0 the window at the cursor is matched against FS2 and the
     * preamble; otherwise the sign goes to both halves of the buffer.
     */
    method ProcessExtSearch(d: Dibit)
      requires Valid() && ctl.state == ExtSearch
      modifies this, bitBufferRx, syncDoubleBuffer, colourBuffer, ambe, dvFrame
      ensures View() == ExtSearchStep(old(View()), d) && Valid()
    {
      ghost var s0 := View();
      if ctl.symbolIndex >= 12 {
        ctl := ctl.(symbolIndex := 0, syncCycle := if ctl.syncCycle < 15 then ctl.syncCycle + 1 else 0);
      }
      ghost var s1 := View();
      assert s1.ctl.symbolIndex <= 12 && s1.ctl.syncCycle <= 15;
      var i := ctl.symbolIndex;
      if ctl.syncCycle < 1 || ctl.syncCycle > 14 {
        if syncDoubleBuffer[i..i + 12] == FS2 {
          ctl := ctl.(state := SuperFrame, symbolIndex := 0);
          ProcessSuperFrame(d);
          return;
        } else if syncDoubleBuffer[i..i + 12] == Preamble {
          Resync();
          return;
        }
      }
      StoreSyncSign(i, d);
      ghost var s2 := View();
      ctl := ctl.(symbolIndex := i + 1);
      assert View() == WithCursor(s2, i + 1);
    }

    /** The extensive search stores a sign at cursor i and 12 past it. */
    method StoreSyncSign(i: nat, d: Dibit)
      requires Ready() && i < 12
      modifies syncDoubleBuffer
      ensures Ready() && View() == old(View()).(bufs := old(View()).bufs.(sync := old(syncDoubleBuffer[..])[i := Sign(d)][i + 12 := Sign(d)]))
    {
      syncDoubleBuffer[i] := if d > 1 then 3 else 1;
      syncDoubleBuffer[i + 12] := if d > 1 then 3 else 1;
    }

    /** processSuperFrame: the eleven fields of a superframe, then PostFrame. */
    method ProcessSuperFrame(d: Dibit)
      requires Valid() && ctl.state == SuperFrame
      modifies this, bitBufferRx, syncDoubleBuffer, colourBuffer, ambe, dvFrame
      ensures View() == SuperFrameStep(old(View()), d) && Valid()
    {
      ghost var s0 := View();
      if ctl.symbolIndex == 0 {
        ctl := ctl.(frameType := PayloadFrame);
      }
      ghost var s1 := View();
      assert s1 == if s0.ctl.symbolIndex == 0 then s0.(ctl := s0.ctl.(frameType := PayloadFrame)) else s0;
      if ctl.symbolIndex < 372 {
        SuperFirstHalf(d);
      } else {
        SuperSecondHalf(d);
      }
    }

    /** The fields of the first 372 symbols. */
    method SuperFirstHalf(d: Dibit)
      requires Valid() && ctl.state == SuperFrame && ctl.symbolIndex < 372
      modifies this, bitBufferRx, colourBuffer, ambe, dvFrame
      ensures Ready() && View() == FirstHalf(old(View()), d)
    {
      var si := ctl.symbolIndex;
      if si < 36 {
        SuperControl(0, d);
      } else if si < 36 + 144 {
        assert TchOffset(si) == si - 36;
        SuperTraffic(36, d);
      } else if si < 36 + 144 + 12 {
        SuperColour(36 + 144, d);
      } else if si < 36 + 144 + 12 + 36 {
        SuperControl(36 + 144 + 12, d);
      } else {
        assert TchOffset(si) == si - 228;
        SuperTraffic(36 + 144 + 12 + 36, d);
      }
    }

    /** The fields from FS2-1 on, the move back to PostFrame, and the out-of-sync case. */
    method SuperSecondHalf(d: Dibit)
      requires Valid() && ctl.state == SuperFrame && 372 <= ctl.symbolIndex
      modifies this, bitBufferRx, syncDoubleBuffer, colourBuffer, ambe, dvFrame
      ensures Ready() && View() == SecondHalf(old(View()), d)
    {
      var si := ctl.symbolIndex;
      if si < 36 + 144 + 12 + 36 + 144 + 12 {
        SuperSync(d);
      } else if si < 36 + 144 + 12 + 36 + 144 + 12 + 36 {
        SuperControl(36 + 144 + 12 + 36 + 144 + 12, d);
      } else if si < 36 + 144 + 12 + 36 + 144 + 12 + 36 + 144 {
        assert TchOffset(si) == si - 420;
        SuperTraffic(36 + 144 + 12 + 36 + 144 + 12 + 36, d);
      } else if si < 36 + 144 + 12 + 36 + 144 + 12 + 36 + 144 + 12 {
        SuperColour(36 + 144 + 12 + 36 + 144 + 12 + 36 + 144, d);
      } else if si < 36 + 144 + 12 + 36 + 144 + 12 + 36 + 144 + 12 + 36 {
        SuperControl(36 + 144 + 12 + 36 + 144 + 12 + 36 + 144 + 12, d);
      } else if si < SuperFrameLength {
        SuperLastTraffic(d);
      } else {
        Resync();
      }
    }

    /** A symbol of the superframe's last traffic channel; after its last symbol, back to PostFrame. */
    method SuperLastTraffic(d: Dibit)
      requires Valid() && ctl.state == SuperFrame
      requires 36 + 144 + 12 + 36 + 144 + 12 + 36 + 144 + 12 + 36 <= ctl.symbolIndex < SuperFrameLength
      modifies this, ambe, dvFrame
      ensures Ready() && View() == LastTraffic(old(View()), d)
    {
      assert TchOffset(ctl.symbolIndex) == ctl.symbolIndex - 612;
      SuperTraffic(36 + 144 + 12 + 36 + 144 + 12 + 36 + 144 + 12 + 36, d);
      if ctl.symbolIndex == SuperFrameLength {
        ctl := ctl.(frameType := NoFrame, state := PostFrame, symbolIndex := 0, frameIndex := 0);
      }
    }

    /** A symbol of the control channel that starts at cursor base. */
    method SuperControl(base: nat, d: Dibit)
      requires Ready() && ctl.state == SuperFrame
      requires base <= ctl.symbolIndex < base + 36
      modifies this, bitBufferRx
      ensures Ready() && View() == WithCursor(CCH(old(View()), old(ctl.symbolIndex) - base, d), old(ctl.symbolIndex) + 1)
    {
      var si := ctl.symbolIndex;
      ProcessCCH(si - base, d);
      ghost var s2 := View();
      ctl := ctl.(symbolIndex := si + 1);
      assert View() == WithCursor(s2, si + 1);
    }

    /**
     * A symbol of the traffic channel that starts at cursor base (offset t
     * into the field), with the voice schedule in step with t.
     */
    method SuperTraffic(base: nat, d: Dibit)
      requires Ready() && base <= ctl.symbolIndex < base + 144
      requires ctl.frameType == VoiceFrame && (ctl.symbolIndex - base) % 36 != 0 ==> ctl.voiceCursor == (ctl.symbolIndex - base) % 36
      modifies this, ambe, dvFrame
      ensures Ready() && View() == WithCursor(TCH(old(View()), old(ctl.symbolIndex) - base, d), old(ctl.symbolIndex) + 1)
    {
      var si := ctl.symbolIndex;
      ProcessTCH(si - base, d);
      ghost var s2 := View();
      ctl := ctl.(symbolIndex := si + 1);
      assert View() == WithCursor(s2, si + 1);
    }

    /** A symbol of a colour-code field (CC0, CC1): the frame index advances first. */
    method SuperColour(base: nat, d: Dibit)
      requires Ready() && base <= ctl.symbolIndex < base + 12
      modifies this, colourBuffer
      ensures Ready() && View() == WithCursor(ColourCode(NextFrame(old(View())), old(ctl.symbolIndex) - base, d), old(ctl.symbolIndex) + 1)
    {
      ghost var s0 := View();
      var si := ctl.symbolIndex;
      ctl := ctl.(frameIndex := ctl.frameIndex + 1);
      assert View() == NextFrame(s0);
      ProcessColourCode(si - base, d);
      ghost var s2 := View();
      ctl := ctl.(symbolIndex := si + 1);
      assert View() == WithCursor(s2, si + 1);
    }

    /** A symbol of the in-superframe sync FS2-1: the frame index advances first; the cursor moves on even after a reset. */
    method SuperSync(d: Dibit)
      requires Ready() && 372 <= ctl.symbolIndex < 384
      modifies this, syncDoubleBuffer
      ensures Ready()
      ensures View() == var s2 := FS2Field(NextFrame(old(View())), old(ctl.symbolIndex) - 372, d);
                        WithCursor(s2, s2.ctl.symbolIndex + 1)
    {
      ghost var s0 := View();
      ctl := ctl.(frameIndex := ctl.frameIndex + 1);
      assert View() == NextFrame(s0);
      ProcessFS2(ctl.symbolIndex - 372, d);
      ghost var s2 := View();
      ctl := ctl.(symbolIndex := ctl.symbolIndex + 1);
      assert View() == WithCursor(s2, s2.ctl.symbolIndex + 1);
    }

    /** processEndFrame: END0 and END1 (18 symbols each) pass, then every call asks for a resync. */
    method ProcessEndFrame()
      requires Valid() && ctl.state == End
      modifies this
      ensures View() == EndStep(old(View())) && Valid()
    {
      if ctl.symbolIndex == 0 {
        ctl := ctl.(frameType := EndFrame);
      }
      if ctl.symbolIndex < 18 {
        ctl := ctl.(symbolIndex := ctl.symbolIndex + 1);
      } else if ctl.symbolIndex < 18 + 18 {
        ctl := ctl.(symbolIndex := ctl.symbolIndex + 1);
      } else {
        Resync();
      }
    }

    // -------------------------------------------------------------------
    // Field handlers.
    // -------------------------------------------------------------------

    /** processHIn: descramble dibit k of a header block into its two de-interleaved slots. */
    method ProcessHIn(k: nat, d: Dibit)
      requires Ready() && k < 60
      modifies this, bitBufferRx, bitBuffer, bitWork
      ensures Ready() && View() == HIn(old(View()), k, d)
    {
      bitBufferRx[dI120[2 * k]] := XorBit(HighBit(d), scrambleBits[2 * k]);
      bitBufferRx[dI120[2 * k + 1]] := XorBit(LowBit(d), scrambleBits[2 * k + 1]);
      if k == 59 {
        ProcessHeaderBlock();
      }
    }

    /** The end of processHIn: Hamming-decode ten codewords as decode() is written, then take the fields if CRC8 holds. */
    method ProcessHeaderBlock()
      requires Ready()
      modifies this, bitBufferRx, bitBuffer, bitWork
      ensures Ready() && View() == HeaderBlock(old(View()))
    {
      ghost var s0 := View();
      ghost var o := DecodeAsWritten(s0.bufs.rx, 10);
      var hammingStatus := hamming.Decode(bitBufferRx, bitBuffer, 10);
      assert bitBuffer[..] == o.decoded;
      ghost var bufs := BufferView();
      assert bufs == s0.bufs.(rx := o.rx, decoded := o.decoded);
      var crcOk := CheckCrc8(bitBuffer, 72);
      assert BufferView() == bufs;
      if crcOk {
        rcv := TakeHeaderFields(bitBuffer, rcv);
      }
      assert View() == HeaderBlock(s0).(host := View().host);
    }

    /**
     * checkCRC8: copy the n data bits to the work area, clear the eight
     * after them, divide by x^8 + x^2 + x + 1 bit by bit, and compare the
     * remainder with the eight check bits that follow the data.
     */
    method CheckCrc8(bits: array<Bit>, n: nat) returns (ok: bool)
      requires bits != bitWork && n + 8 <= bits.Length && n + 8 <= bitWork.Length
      modifies bitWork
      ensures ok <==> CrcPasses(bits[..], n, Crc8Poly)
      ensures bitWork[..n] == Zeros(n) && bitWork[n..n + 8] == Crc(bits[..n], Crc8Poly)
      ensures bitWork[n + 8..] == old(bitWork[n + 8..])
    {
      forall k | 0 <= k < n {
        bitWork[k] := bits[k];
      }
      forall k | n <= k < n + 8 {
        bitWork[k] := 0;
      }
      ghost var w0 := bitWork[..];
      assert forall k :: 0 <= k < n + 8 ==> w0[k] == AugAt(bits[..n], k);
      assert w0[n + 8..] == old(bitWork[n + 8..]);
      for i := 0 to n
        invariant bitWork[..] == Divide(w0, Crc8Poly, i)
      {
        ghost var w := bitWork[..];
        if bitWork[i] == 1 {
          bitWork[i] := 0;
          bitWork[i + 6] := XorBit(bitWork[i + 6], 1);
          bitWork[i + 7] := XorBit(bitWork[i + 7], 1);
          bitWork[i + 8] := XorBit(bitWork[i + 8], 1);
        }
        Crc8Step(w, i);
      }
      DivideComputesWindow(bits[..n], Crc8Poly, w0, n);
      ok := bits[n..n + 8] == bitWork[n..n + 8];
    }

    /**
     * checkCRC7: the same division by x^7 + x^3 + 1 over a seven-bit
     * remainder (the control-channel check; its only call is switched off).
     */
    method CheckCrc7(bits: array<Bit>, n: nat) returns (ok: bool)
      requires bits != bitWork && n + 7 <= bits.Length && n + 7 <= bitWork.Length
      modifies bitWork
      ensures ok <==> CrcPasses(bits[..], n, Crc7Poly)
      ensures bitWork[..n] == Zeros(n) && bitWork[n..n + 7] == Crc(bits[..n], Crc7Poly)
      ensures bitWork[n + 7..] == old(bitWork[n + 7..])
    {
      forall k | 0 <= k < n {
        bitWork[k] := bits[k];
      }
      forall k | n <= k < n + 7 {
        bitWork[k] := 0;
      }
      ghost var w0 := bitWork[..];
      assert forall k :: 0 <= k < n + 7 ==> w0[k] == AugAt(bits[..n], k);
      assert w0[n + 7..] == old(bitWork[n + 7..]);
      for i := 0 to n
        invariant bitWork[..] == Divide(w0, Crc7Poly, i)
      {
        ghost var w := bitWork[..];
        if bitWork[i] == 1 {
          bitWork[i] := 0;
          bitWork[i + 4] := XorBit(bitWork[i + 4], 1);
          bitWork[i + 7] := XorBit(bitWork[i + 7], 1);
        }
        Crc7Step(w, i);
      }
      DivideComputesWindow(bits[..n], Crc7Poly, w0, n);
      ok := bits[n..n + 7] == bitWork[n..n + 7];
    }

    /** processColourCode: slot k takes the sign bit; slot 11 recomputes the code, slot 0 most significant. */
    method ProcessColourCode(k: nat, d: Dibit)
      requires Ready() && k < 12
      modifies this, colourBuffer
      ensures Ready() && View() == ColourCode(old(View()), k, d)
    {
      ghost var s0 := View();
      colourBuffer[k] := if d > 1 then 1 else 0;
      assert BufferView() == s0.bufs.(colour := s0.bufs.colour[k := ColourBit(d)]);
      if k == 11 {
        var code := ReadColourCode(colourBuffer);
        rcv := rcv.(colourCode := code);
      }
    }

    /** processCCH: descramble dibit k of a control channel; the last marks a voice frame. */
    method ProcessCCH(k: nat, d: Dibit)
      requires Ready() && k < 36
      modifies this, bitBufferRx
      ensures Ready() && View() == CCH(old(View()), k, d)
    {
      bitBufferRx[dI72[2 * k]] := XorBit(HighBit(d), scrambleBits[2 * k]);
      bitBufferRx[dI72[2 * k + 1]] := XorBit(LowBit(d), scrambleBits[2 * k + 1]);
      if k == 35 {
        ctl := ctl.(frameType := VoiceFrame);
      }
    }

    /** processFS2: slot k of the in-superframe sync; slot 11 decides how the superframe goes on. */
    method ProcessFS2(k: nat, d: Dibit)
      requires Ready() && k < 12
      modifies this, syncDoubleBuffer
      ensures Ready() && View() == FS2Field(old(View()), k, d)
    {
      syncDoubleBuffer[k] := if d == 0 || d == 1 then 1 else 3;
      if k == 11 {
        if syncDoubleBuffer[..12] == FS2 {
          ctl := ctl.(frameType := PayloadFrame);
        } else if syncDoubleBuffer[..12] == FS3 {
          ctl := ctl.(state := End, symbolIndex := 0);
        } else {
          ctl := ctl.(frameType := ExtSearchFrame, state := ExtSearch, symbolIndex := 0, syncCycle := 0);
        }
      }
    }

    /** processTCH: traffic dibit t, passed on only in a voice frame. */
    method ProcessTCH(t: nat, d: Dibit)
      requires Ready() && t < 144
      requires ctl.frameType == VoiceFrame && t % 36 != 0 ==> ctl.voiceCursor == t % 36
      modifies this, ambe, dvFrame
      ensures Ready() && View() == TCH(old(View()), t, d)
    {
      if ctl.frameType == VoiceFrame {
        ProcessVoiceFrame(t % 36, d);
      }
    }

    /**
     * processVoiceFrame: dibit j of a voice block. Block start resets the
     * schedule and clears the DVSI frame; each dibit's bits go to the two
     * cells the schedule names; the last hands the frame to the vocoder.
     */
    method ProcessVoiceFrame(j: nat, d: Dibit)
      requires Ready() && j < 36 && (j == 0 || ctl.voiceCursor == j)
      modifies this, ambe, dvFrame
      ensures Ready() && View() == Voice(old(View()), j, d)
    {
      PlaceVoiceDibit(j, d);
      ghost var s1 := View();
      StoreSymbolDV(j, d);
      assert View() == s1.(host := DpmrSpec.StoreSymbolDV(s1.host, j, d));
      if j == 35 {
        voiceFrames := voiceFrames + 1;
      }
    }

    /** The first part of processVoiceFrame: schedule reset, DVSI clear, the two AMBE bits, schedule advance. */
    method PlaceVoiceDibit(j: nat, d: Dibit)
      requires Ready() && j < 36 && (j == 0 || ctl.voiceCursor == j)
      modifies this, ambe, dvFrame
      ensures Ready() && View() == VoicePlace(old(View()), j, d)
    {
      ghost var s0 := View();
      if j % 36 == 0 {
        ctl := ctl.(voiceCursor := 0);
        ClearDvFrame();
      }
      ghost var h := if j == 0 then s0.host.(dvFrame := Zeros(9)) else s0.host;
      assert View().host == h;
      var c := ctl.voiceCursor;
      assert c == j;
      WriteAmbe(c, d);
      ctl := ctl.(voiceCursor := c + 1);
    }

    /** Block start: the DVSI frame is cleared (memset to 0). */
    method ClearDvFrame()
      requires Ready()
      modifies dvFrame
      ensures Ready() && View() == old(View()).(host := old(View()).host.(dvFrame := Zeros(9)))
    {
      forall k | 0 <= k < 9 {
        dvFrame[k] := 0;
      }
      assert DvView() == Zeros(9);
    }

    /** The two bits of a voice dibit to the AMBE cells schedule entry c names. */
    method WriteAmbe(c: nat, d: Dibit)
      requires Ready() && c < 36
      modifies ambe
      ensures Ready()
      ensures View() == old(View()).(host := old(View()).host.(ambe := old(AmbeView())[HighTarget(c) := HighBit(d)][LowTarget(c) := LowBit(d)]))
    {
      VoiceTargetsInFrame(c);
      ambe[AmbeCell(RW[c], RX[c])] := HighBit(d);
      ambe[AmbeCell(RY[c], RZ[c])] := LowBit(d);
    }

    /** storeSymbolDV: or dibit j of a voice block into DVSI byte j / 4, unless the host decodes in software. */
    method StoreSymbolDV(j: nat, d: Dibit)
      requires Ready() && j < 36
      modifies dvFrame
      ensures Ready() && View() == old(View()).(host := DpmrSpec.StoreSymbolDV(old(View()).host, j, d))
    {
      if mbelib {
        return;
      }
      var v := d * Pow2(6 - 2 * (j % 4));
      Pow2Monotone(6 - 2 * (j % 4), 6);
      assert Pow2(8) == 256;
      OrBelow(dvFrame[j / 4], v, 8);
      dvFrame[j / 4] := Or(dvFrame[j / 4], v);
    }
  }
}
