/**
 * What the dPMR decoder's handlers add up to over many dibits: frame
 * lengths, the sync decisions, the extensive search window, and where a
 * voice block's bits end up.
 */
module DpmrProps {
  import opened Bits
  import opened DpmrTables
  import opened DpmrFec
  import opened DpmrSpec

  /** The sign bits the colour-code slots record for a run of dibits. */
  function ColourBits(ds: seq<Dibit>): (r: seq<Bit>)
    ensures |r| == |ds|
  {
    seq(|ds|, i requires 0 <= i < |ds| => ColourBit(ds[i]))
  }

  /** Run unfolded once at the end. */
  lemma RunLast(s: Snapshot, ds: seq<Dibit>)
    requires Inv(s) && ds != []
    ensures Run(s, ds) == Step(Run(s, ds[..|ds| - 1]), ds[|ds| - 1])
  {
  }

  /** Appending a dibit appends its colour bit. */
  lemma ColourBitsSnoc(ds: seq<Dibit>, lo: nat)
    requires lo < |ds|
    ensures ColourBits(ds[lo..]) == ColourBits(ds[..|ds| - 1][lo..]) + [ColourBit(ds[|ds| - 1])]
  {
  }

  /** Writing slot k after a known prefix of k slots gives a known prefix of k + 1. */
  lemma UpdatePrefix<T>(a: seq<T>, k: nat, b: T, x: seq<T>)
    requires k < |a| && a[..k] == x
    ensures a[k := b][..k + 1] == x + [b]
  {
  }

  /** A slice that ends before the last element is a slice of the prefix without it. */
  lemma DropLast<T>(ds: seq<T>, lo: nat, hi: nat)
    requires lo <= hi < |ds|
    ensures ds[..|ds| - 1][lo..hi] == ds[lo..hi]
  {
  }

  // ---------------------------------------------------------------------
  // Header: 132 symbols.
  // ---------------------------------------------------------------------

  /** One header symbol: the cursor advances, and the block after HI1 moves to PostFrame. */
  lemma HeaderStepFacts(s: Snapshot, d: Dibit)
    requires Inv(s) && s.ctl.state == Header && s.ctl.symbolIndex < 132
    ensures var r := HeaderStep(s, d);
      var si := s.ctl.symbolIndex;
      r.host.resyncs == s.host.resyncs && r.ctl.frameType == (if si == 0 then HeaderFrame else s.ctl.frameType)
      && (si + 1 < 132 ==> r.ctl.state == Header && r.ctl.symbolIndex == si + 1)
      && (si + 1 == 132 ==> r.ctl.state == PostFrame && r.ctl.symbolIndex == 0 && r.ctl.frameIndex == 0)
      && r.rcv.colourCode == (if si == 71 then BitsToNat(s.bufs.colour[11 := ColourBit(d)]) else s.rcv.colourCode)
      && r.bufs.colour == (if 60 <= si < 72 then s.bufs.colour[si - 60 := ColourBit(d)] else s.bufs.colour)
  {
    var si := s.ctl.symbolIndex;
    var s1 := if si == 0 then s.(ctl := s.ctl.(frameType := HeaderFrame)) else s;
    assert Inv(s1);
    if si < 60 {
      var h := HIn(s1, si, d);
    } else if si < 72 {
      var h := ColourCode(s1, si - 60, d);
    } else {
      var h := HIn(s1, si - 72, d);
    }
  }

  /**
   * From the first header symbol the cursor counts the symbols taken; the
   * 132nd moves to PostFrame with cursor and frame index 0, and no resync
   * is asked for on the way.
   */
  lemma {:induction false} HeaderRun(s: Snapshot, ds: seq<Dibit>)
    requires Inv(s) && s.ctl.state == Header && s.ctl.symbolIndex == 0 && |ds| <= 132
    ensures var r := Run(s, ds);
      r.host.resyncs == s.host.resyncs
      && (|ds| < 132 ==> r.ctl.state == Header && r.ctl.symbolIndex == |ds|)
      && (|ds| == 132 ==> r.ctl.state == PostFrame && r.ctl.symbolIndex == 0 && r.ctl.frameIndex == 0)
      && (|ds| > 0 ==> r.ctl.frameType == HeaderFrame)
  {
    if ds != [] {
      var n := |ds|;
      HeaderRun(s, ds[..n - 1]);
      RunLast(s, ds);
      HeaderStepFacts(Run(s, ds[..n - 1]), ds[n - 1]);
    }
  }

  /** The colour-code slots of a header fill the colour buffer in order. */
  lemma {:induction false} HeaderColourRun(s: Snapshot, ds: seq<Dibit>)
    requires Inv(s) && s.ctl.state == Header && s.ctl.symbolIndex == 0 && 60 <= |ds| <= 72
    ensures Run(s, ds).bufs.colour[..|ds| - 60] == ColourBits(ds[60..])
  {
    var n := |ds|;
    if n > 60 {
      var p := ds[..n - 1];
      var q := Run(s, p);
      HeaderRun(s, p);
      RunLast(s, ds);
      HeaderStepFacts(q, ds[n - 1]);
      HeaderColourRun(s, p);
      ColourBitsSnoc(ds, 60);
      UpdatePrefix(q.bufs.colour, n - 61, ColourBit(ds[n - 1]), ColourBits(p[60..]));
    }
  }

  /** The last colour-code slot sets the colour code: the field's 12 sign bits, most significant first. */
  lemma HeaderColourSet(s: Snapshot, ds: seq<Dibit>)
    requires Inv(s) && s.ctl.state == Header && s.ctl.symbolIndex == 0 && |ds| == 72
    ensures Run(s, ds).rcv.colourCode == BitsToNat(ColourBits(ds[60..]))
  {
    var p := ds[..71];
    var q := Run(s, p);
    HeaderRun(s, p);
    RunLast(s, ds);
    HeaderStepFacts(q, ds[71]);
    HeaderColourRun(s, p);
    ColourBitsSnoc(ds, 60);
    UpdatePrefix(q.bufs.colour, 11, ColourBit(ds[71]), ColourBits(p[60..]));
  }

  /** HI1 leaves the colour code alone: after 72 to 132 header symbols it is still the colour field's value. */
  lemma {:induction false} HeaderColourCode(s: Snapshot, ds: seq<Dibit>)
    requires Inv(s) && s.ctl.state == Header && s.ctl.symbolIndex == 0 && 72 <= |ds| <= 132
    ensures Run(s, ds).rcv.colourCode == BitsToNat(ColourBits(ds[60..72]))
  {
    var n := |ds|;
    if n == 72 {
      HeaderColourSet(s, ds);
      assert ds[60..] == ds[60..72];
    } else {
      HeaderColourCode(s, ds[..n - 1]);
      DropLast(ds, 60, 72);
      HeaderColourKept(s, ds);
    }
  }

  /** A header symbol past the colour field keeps the colour code. */
  lemma HeaderColourKept(s: Snapshot, ds: seq<Dibit>)
    requires Inv(s) && s.ctl.state == Header && s.ctl.symbolIndex == 0 && 72 < |ds| <= 132
    ensures Run(s, ds).rcv.colourCode == Run(s, ds[..|ds| - 1]).rcv.colourCode
  {
    var p := ds[..|ds| - 1];
    HeaderRun(s, p);
    RunLast(s, ds);
    HeaderStepFacts(Run(s, p), ds[|ds| - 1]);
  }

  // ---------------------------------------------------------------------
  // End frame: 36 symbols, then a resync request per call.
  // ---------------------------------------------------------------------

  /** From the first end-frame symbol, END0 and END1 take 36 calls without a resync. */
  lemma {:induction false} EndRun(s: Snapshot, ds: seq<Dibit>)
    requires Inv(s) && s.ctl.state == End && s.ctl.symbolIndex == 0 && |ds| <= 36
    ensures var r := Run(s, ds);
      r.ctl.state == End && r.ctl.symbolIndex == |ds| && r.host.resyncs == s.host.resyncs
      && (ds != [] ==> r.ctl.frameType == EndFrame)
  {
    if ds != [] {
      var p := ds[..|ds| - 1];
      EndRun(s, p);
      RunLast(s, ds);
      EndStepFacts(Run(s, p), ds[|ds| - 1]);
    }
  }

  /** After END1, every call asks for a resync and leaves the cursor at 36. */
  lemma {:induction false} EndRunResync(s: Snapshot, ds: seq<Dibit>)
    requires Inv(s) && s.ctl.state == End && s.ctl.symbolIndex == 0 && 36 <= |ds|
    ensures var r := Run(s, ds);
      r.ctl.state == End && r.ctl.symbolIndex == 36 && r.host.resyncs == s.host.resyncs + (|ds| - 36)
      && (|ds| > 36 ==> r.ctl.frameType == NoFrame)
  {
    var p := ds[..|ds| - 1];
    if |ds| == 36 {
      EndRun(s, ds);
    } else {
      EndRunResync(s, p);
      RunLast(s, ds);
      EndStepFacts(Run(s, p), ds[|ds| - 1]);
    }
  }

  /** One end-frame symbol. */
  lemma EndStepFacts(s: Snapshot, d: Dibit)
    requires Inv(s) && s.ctl.state == End
    ensures var r := Step(s, d);
      var si := s.ctl.symbolIndex;
      r.ctl.state == End
      && r.ctl.frameType == (if si < 36 then (if si == 0 then EndFrame else s.ctl.frameType) else NoFrame)
      && r.ctl.symbolIndex == (if si < 36 then si + 1 else si)
      && r.host.resyncs == s.host.resyncs + (if si < 36 then 0 else 1)
  {
  }

  // ---------------------------------------------------------------------
  // Superframe: 756 symbols.
  // ---------------------------------------------------------------------

  /** The last symbol of each control channel, where the frame becomes a voice frame. */
  predicate CchEnd(si: nat)
  {
    si == 35 || si == 227 || si == 419 || si == 611
  }

  /** Voice blocks handed to the vocoder in the first si symbols of a superframe of voice frames. */
  function BlocksDone(si: nat): (n: nat)
    ensures n <= 16
  {
    if si <= 36 then 0
    else if si <= 180 then (si - 36) / 36
    else if si <= 228 then 4
    else if si <= 372 then 4 + (si - 228) / 36
    else if si <= 420 then 8
    else if si <= 564 then 8 + (si - 420) / 36
    else if si <= 612 then 12
    else if si <= 756 then 12 + (si - 612) / 36
    else 16
  }

  /** One more symbol completes a block exactly at the last dibit of a voice block. */
  lemma BlocksDoneStep(si: nat)
    requires si < 756
    ensures BlocksDone(si + 1) == BlocksDone(si) + (if InTch(si) && TchOffset(si) % 36 == 35 then 1 else 0)
  {
    if InTch(si) {
      var t := TchOffset(si);
      assert (t + 1) / 36 == t / 36 + (if t % 36 == 35 then 1 else 0);
    }
  }

  /** The voice-frame counter a TCH symbol adds. */
  function VoiceDone(s: Snapshot, si: nat): nat
  {
    if InTch(si) && s.ctl.frameType == VoiceFrame && TchOffset(si) % 36 == 35 then 1 else 0
  }

  /** A control-channel symbol: only the last of the 36 changes the frame type, to a voice frame. */
  lemma ControlFieldFacts(s: Snapshot, base: nat, d: Dibit)
    requires Inv(s) && s.ctl.state == SuperFrame
    requires base == 0 || base == 192 || base == 384 || base == 576
    requires base <= s.ctl.symbolIndex < base + 36
    ensures var r := ControlField(s, base, d);
      r.ctl.state == SuperFrame && r.ctl.symbolIndex == s.ctl.symbolIndex + 1
      && r.host == s.host && r.bufs.sync == s.bufs.sync
      && r.ctl.frameType == (if s.ctl.symbolIndex - base == 35 then VoiceFrame else s.ctl.frameType)
  {
  }

  /** A traffic symbol: the last of a voice block counts a vocoder frame. */
  lemma TrafficFieldFacts(s: Snapshot, base: nat, d: Dibit)
    requires Inv(s) && s.ctl.state == SuperFrame
    requires base == 36 || base == 228 || base == 420 || base == 612
    requires base <= s.ctl.symbolIndex < base + 144 && s.ctl.symbolIndex + 1 < SuperFrameLength
    ensures var r := TrafficField(s, base, d);
      r.ctl.state == SuperFrame && r.ctl.symbolIndex == s.ctl.symbolIndex + 1
      && r.host.resyncs == s.host.resyncs && r.bufs == s.bufs && r.ctl.frameType == s.ctl.frameType
      && r.host.voiceFrames == s.host.voiceFrames + VoiceDone(s, s.ctl.symbolIndex)
  {
    var si := s.ctl.symbolIndex;
    var t: nat := si - base;
    assert TchOffset(si) == t;
    var v := TCH(s, t, d);
  }

  /** A colour-code symbol of the superframe leaves the control state, host and sync buffer alone. */
  lemma ColourFieldFacts(s: Snapshot, k: nat, d: Dibit)
    requires Inv(s) && k < 12
    ensures var r := WithCursor(ColourCode(NextFrame(s), k, d), s.ctl.symbolIndex + 1);
      r.ctl.state == s.ctl.state && r.ctl.symbolIndex == s.ctl.symbolIndex + 1
      && r.host == s.host && r.bufs.sync == s.bufs.sync && r.ctl.frameType == s.ctl.frameType
  {
  }

  /** One symbol of the first half (CCH0 TCH0 CC0 CCH1 TCH1). */
  lemma FirstHalfFacts(s: Snapshot, d: Dibit)
    requires Inv(s) && s.ctl.state == SuperFrame && s.ctl.symbolIndex < 372
    ensures var r := FirstHalf(s, d);
      var si := s.ctl.symbolIndex;
      r.ctl.state == SuperFrame && r.ctl.symbolIndex == si + 1
      && r.host.resyncs == s.host.resyncs && r.bufs.sync == s.bufs.sync
      && r.ctl.frameType == (if CchEnd(si) then VoiceFrame else s.ctl.frameType)
      && r.host.voiceFrames == s.host.voiceFrames + VoiceDone(s, si)
  {
    var si := s.ctl.symbolIndex;
    if si < 36 || 192 <= si < 228 {
      ControlFieldFacts(s, if si < 36 then 0 else 192, d);
    } else if si < 180 || 228 <= si {
      TrafficFieldFacts(s, if si < 180 then 36 else 228, d);
    } else {
      ColourFieldFacts(s, si - 180, d);
    }
  }

  /** One symbol of the second half, short of the superframe's last, with FS2-1 matching FS2. */
  lemma SecondHalfFacts(s: Snapshot, d: Dibit)
    requires Inv(s) && s.ctl.state == SuperFrame && 372 <= s.ctl.symbolIndex < 756
    requires s.ctl.symbolIndex == 383 ==> s.bufs.sync[..11] + [Sign(d)] == FS2
    ensures var r := SecondHalf(s, d);
      var si := s.ctl.symbolIndex;
      r.host.resyncs == s.host.resyncs
      && (si + 1 < 756 ==> r.ctl.state == SuperFrame && r.ctl.symbolIndex == si + 1
                           && r.ctl.frameType == (if CchEnd(si) then VoiceFrame else if si == 383 then PayloadFrame else s.ctl.frameType))
      && (si + 1 == 756 ==> r.ctl.state == PostFrame && r.ctl.symbolIndex == 0 && r.ctl.frameType == NoFrame && r.ctl.frameIndex == 0)
      && r.bufs.sync == (if si < 384 then s.bufs.sync[si - 372 := Sign(d)] else s.bufs.sync)
      && r.host.voiceFrames == s.host.voiceFrames + VoiceDone(s, si)
  {
    var si := s.ctl.symbolIndex;
    if si < 384 {
      var f := FS2Field(NextFrame(s), si - 372, d);
      if si == 383 {
        assert f.bufs.sync[..12] == s.bufs.sync[..11] + [Sign(d)];
      }
    } else if si < 420 || 576 <= si < 612 {
      ControlFieldFacts(s, if si < 420 then 384 else 576, d);
    } else if si + 1 < 756 && (si < 564 || 612 <= si) {
      TrafficFieldFacts(s, if si < 564 then 420 else 612, d);
    } else if si + 1 == 756 {
      var t: nat := si - 612;
      assert TchOffset(si) == t;
      var v := TCH(s, t, d);
    } else {
      ColourFieldFacts(s, si - 564, d);
    }
  }

  /** One superframe symbol, short of a cursor past the end, with FS2-1 matching FS2. */
  lemma SuperStepFacts(s: Snapshot, d: Dibit)
    requires Inv(s) && s.ctl.state == SuperFrame && s.ctl.symbolIndex < 756
    requires s.ctl.symbolIndex == 383 ==> s.bufs.sync[..11] + [Sign(d)] == FS2
    ensures var r := Step(s, d);
      var si := s.ctl.symbolIndex;
      r.host.resyncs == s.host.resyncs
      && (si + 1 < 756 ==> r.ctl.state == SuperFrame && r.ctl.symbolIndex == si + 1
                           && r.ctl.frameType == (if CchEnd(si) then VoiceFrame else if si == 0 || si == 383 then PayloadFrame else s.ctl.frameType))
      && (si + 1 == 756 ==> r.ctl.state == PostFrame && r.ctl.symbolIndex == 0 && r.ctl.frameType == NoFrame && r.ctl.frameIndex == 0)
      && r.bufs.sync == (if 372 <= si < 384 then s.bufs.sync[si - 372 := Sign(d)] else s.bufs.sync)
      && r.host.voiceFrames == s.host.voiceFrames + VoiceDone(s, si)
  {
    var si := s.ctl.symbolIndex;
    var s1 := if si == 0 then s.(ctl := s.ctl.(frameType := PayloadFrame)) else s;
    assert Inv(s1);
    if si < 372 {
      FirstHalfFacts(s1, d);
    } else {
      SecondHalfFacts(s1, d);
    }
  }

  /**
   * A superframe whose FS2-1 field carries FS2 runs its 756 symbols
   * without a resync and returns to PostFrame with no frame type, cursor
   * and frame index 0; each traffic symbol is a voice symbol, and a voice
   * block is handed to the vocoder at the end of each of its 16 blocks.
   */
  lemma {:induction false} SuperFrameRun(s: Snapshot, ds: seq<Dibit>)
    requires Inv(s) && s.ctl.state == SuperFrame && s.ctl.symbolIndex == 0 && |ds| <= 756
    requires 384 <= |ds| ==> Signs(ds[372..384]) == FS2
    ensures var r := Run(s, ds);
      r.host.resyncs == s.host.resyncs
      && (|ds| < 756 ==> r.ctl.state == SuperFrame && r.ctl.symbolIndex == |ds| && (InTch(|ds|) ==> r.ctl.frameType == VoiceFrame))
      && (|ds| == 756 ==> r.ctl.state == PostFrame && r.ctl.symbolIndex == 0 && r.ctl.frameType == NoFrame && r.ctl.frameIndex == 0)
    decreases |ds|, 1
  {
    if ds != [] {
      var n := |ds|;
      var p := ds[..n - 1];
      if 384 <= n - 1 {
        DropLast(ds, 372, 384);
      }
      SuperFrameRun(s, p);
      var q := Run(s, p);
      if n - 1 == 383 {
        FS2BeforeDecision(s, ds);
      }
      RunLast(s, ds);
      SuperStepFacts(q, ds[n - 1]);
    }
  }

  /** In such a superframe the vocoder gets a voice block at the end of each block of each traffic field. */
  lemma {:induction false} SuperVoiceRun(s: Snapshot, ds: seq<Dibit>)
    requires Inv(s) && s.ctl.state == SuperFrame && s.ctl.symbolIndex == 0 && |ds| <= 756
    requires 384 <= |ds| ==> Signs(ds[372..384]) == FS2
    ensures Run(s, ds).host.voiceFrames == s.host.voiceFrames + BlocksDone(|ds|)
  {
    if ds != [] {
      var n := |ds|;
      var p := ds[..n - 1];
      if 384 <= n - 1 {
        DropLast(ds, 372, 384);
      }
      SuperVoiceRun(s, p);
      SuperFrameRun(s, p);
      var q := Run(s, p);
      if n - 1 == 383 {
        FS2BeforeDecision(s, ds);
      }
      RunLast(s, ds);
      SuperStepFacts(q, ds[n - 1]);
      BlocksDoneStep(n - 1);
    }
  }

  /** The FS2-1 slots fill the sync buffer in order. */
  lemma {:induction false} SuperSyncRun(s: Snapshot, ds: seq<Dibit>)
    requires Inv(s) && s.ctl.state == SuperFrame && s.ctl.symbolIndex == 0 && 372 <= |ds| <= 383
    ensures Run(s, ds).bufs.sync[..|ds| - 372] == Signs(ds[372..])
    decreases |ds|, 0
  {
    var n := |ds|;
    if n > 372 {
      var p := ds[..n - 1];
      var q := Run(s, p);
      SuperFrameRun(s, p);
      SuperSyncRun(s, p);
      RunLast(s, ds);
      SuperStepFacts(q, ds[n - 1]);
      SignsSnoc(ds, 372);
      UpdatePrefix(q.bufs.sync, n - 373, Sign(ds[n - 1]), Signs(p[372..]));
    } else {
      assert Run(s, ds).bufs.sync[..0] == [] == Signs(ds[372..]);
    }
  }

  /** Before the decision slot of FS2-1, the buffer holds the first 11 signs of a matching field. */
  lemma FS2BeforeDecision(s: Snapshot, ds: seq<Dibit>)
    requires Inv(s) && s.ctl.state == SuperFrame && s.ctl.symbolIndex == 0 && |ds| == 384
    requires Signs(ds[372..384]) == FS2
    ensures Run(s, ds[..383]).bufs.sync[..11] + [Sign(ds[383])] == FS2
    decreases |ds|, 0
  {
    SuperSyncRun(s, ds[..383]);
    SyncCompletes(Run(s, ds[..383]).bufs.sync, ds);
  }

  /** Eleven stored signs of FS2-1 and the twelfth just read make up the field. */
  lemma SyncCompletes(sync: seq<int>, ds: seq<Dibit>)
    requires |sync| == 24 && |ds| == 384 && sync[..11] == Signs(ds[..383][372..])
    requires Signs(ds[372..384]) == FS2
    ensures sync[..11] + [Sign(ds[383])] == FS2
  {
    SignsSnoc(ds, 372);
    assert ds[372..] == ds[372..384];
  }

  /** Appending a dibit appends its sign. */
  lemma SignsSnoc(ds: seq<Dibit>, lo: nat)
    requires lo < |ds|
    ensures Signs(ds[lo..]) == Signs(ds[..|ds| - 1][lo..]) + [Sign(ds[|ds| - 1])]
  {
  }

  /** A superframe hands 16 voice blocks to the vocoder. */
  lemma SixteenBlocks()
    ensures BlocksDone(756) == 16
  {
  }

  // ---------------------------------------------------------------------
  // PostFrame: the sync decision after 12 symbols.
  // ---------------------------------------------------------------------

  /** One PostFrame sync symbol short of the twelfth. */
  lemma PostFrameStepFacts(s: Snapshot, d: Dibit)
    requires Inv(s) && s.ctl.state == PostFrame && s.ctl.symbolIndex < 11
    ensures var r := Step(s, d);
      r.ctl == s.ctl.(symbolIndex := s.ctl.symbolIndex + 1) && r.host == s.host
      && r.bufs.sync == s.bufs.sync[s.ctl.symbolIndex := Sign(d)]
  {
  }

  /** The first 11 sync symbols after a frame fill the sync buffer in order. */
  lemma {:induction false} PostFrameSyncRun(s: Snapshot, ds: seq<Dibit>)
    requires Inv(s) && s.ctl.state == PostFrame && s.ctl.symbolIndex == 0 && |ds| <= 11
    ensures var r := Run(s, ds);
      r.ctl == s.ctl.(symbolIndex := |ds|) && r.host == s.host && r.bufs.sync[..|ds|] == Signs(ds)
  {
    if ds != [] {
      var n := |ds|;
      var p := ds[..n - 1];
      PostFrameSyncRun(s, p);
      RunLast(s, ds);
      PostFrameStepFacts(Run(s, p), ds[n - 1]);
      SignsSnoc(ds, 0);
      UpdatePrefix(Run(s, p).bufs.sync, n - 1, Sign(ds[n - 1]), Signs(p));
    }
  }

  /** Whether the first 8 preamble signs start at offset o of a 12-sign window. */
  predicate PreambleFragment(w: seq<int>, o: nat)
    requires o + 8 <= |w|
  {
    w[o..o + 8] == Preamble[..8]
  }

  /**
   * The twelfth sync symbol after a frame decides, in this order: FS2
   * starts a superframe, FS3 an end frame, the first 8 preamble signs at
   * offset 0 to 3 ask for a resync, anything else starts the extensive
   * search at cycle 0; only the resync touches the host.
   */
  lemma PostFrameDecision(s: Snapshot, ds: seq<Dibit>)
    requires Inv(s) && s.ctl.state == PostFrame && s.ctl.symbolIndex == 0 && |ds| == 12
    ensures var r := Run(s, ds);
      var w := Signs(ds);
      var resync := w != FS2 && w != FS3
                    && (PreambleFragment(w, 0) || PreambleFragment(w, 1) || PreambleFragment(w, 2) || PreambleFragment(w, 3));
      (w == FS2 ==> r.ctl.state == SuperFrame && r.ctl.symbolIndex == 0)
      && (w != FS2 && w == FS3 ==> r.ctl.state == End && r.ctl.symbolIndex == 0)
      && (resync ==> r.ctl.state == PostFrame && r.ctl.frameType == NoFrame)
      && (w != FS2 && w != FS3 && !resync ==>
            r.ctl.state == ExtSearch && r.ctl.symbolIndex == 0 && r.ctl.syncCycle == 0 && r.ctl.frameType == ExtSearchFrame)
      && r.host.resyncs == s.host.resyncs + (if resync then 1 else 0)
  {
    var p := ds[..11];
    var q := Run(s, p);
    PostFrameSyncRun(s, p);
    RunLast(s, ds);
    SignsSnoc(ds, 0);
    assert ds[0..] == ds;
    UpdatePrefix(q.bufs.sync, 11, Sign(ds[11]), Signs(p));
    var sync := q.bufs.sync[11 := Sign(ds[11])];
    var w := Signs(ds);
    assert sync[..12] == w;
    assert sync[0..8] == w[0..8] && sync[1..9] == w[1..9] && sync[2..10] == w[2..10] && sync[3..11] == w[3..11];
  }

  /**
   * The in-superframe sync FS2-1 diverted at its last slot: FS3 goes to
   * the end frame, anything but FS2 to the extensive search; either way
   * the superframe's cursor increment still runs, so the new state starts
   * at cursor 1, not 0.
   */
  lemma SuperSyncDivert(s: Snapshot, d: Dibit)
    requires Inv(s) && s.ctl.state == SuperFrame && s.ctl.symbolIndex == 383
    requires s.bufs.sync[..11] + [Sign(d)] != FS2
    ensures var r := Step(s, d);
      var w := s.bufs.sync[..11] + [Sign(d)];
      r.ctl.symbolIndex == 1 && r.host == s.host
      && (w == FS3 ==> r.ctl.state == End)
      && (w != FS3 ==> r.ctl.state == ExtSearch && r.ctl.syncCycle == 0 && r.ctl.frameType == ExtSearchFrame)
  {
    var f := FS2Field(NextFrame(s), 11, d);
    assert f.bufs.sync[..12] == s.bufs.sync[..11] + [Sign(d)];
  }

  // ---------------------------------------------------------------------
  // ExtSearch: a sliding 12-sign window over a doubled buffer.
  // ---------------------------------------------------------------------

  /** The slot the next ExtSearch symbol is stored in (the cursor, wrapped after 12). */
  function ExtSlot(s: Snapshot): nat
  {
    if s.ctl.symbolIndex >= 12 then 0 else s.ctl.symbolIndex
  }

  /** The sync cycle the next ExtSearch symbol belongs to (advanced after each 12). */
  function ExtCycle(s: Snapshot): nat
  {
    if s.ctl.symbolIndex < 12 then s.ctl.syncCycle
    else if s.ctl.syncCycle < 15 then s.ctl.syncCycle + 1
    else 0
  }

  /** Whether the next ExtSearch symbol compares the window (cycles 0 and 15 only). */
  predicate Compares(s: Snapshot)
  {
    ExtCycle(s) == 0 || ExtCycle(s) == 15
  }

  /** The first n slots of the sync buffer mirror the second half. */
  predicate Mirrored(sync: seq<int>, n: nat)
    requires |sync| == 24 && n <= 12
  {
    forall j :: 0 <= j < n ==> sync[j] == sync[j + 12]
  }

  /** The 12 signs the decoder compares against FS2 and the preamble. */
  function Window(s: Snapshot): seq<int>
    requires Inv(s) && s.ctl.state == ExtSearch
  {
    s.bufs.sync[s.ctl.symbolIndex..s.ctl.symbolIndex + 12]
  }

  /** A cursor of 12 and a fully mirrored buffer see the same window as the wrapped cursor 0. */
  lemma WrapWindow(sync: seq<int>)
    requires |sync| == 24 && Mirrored(sync, 12)
    ensures sync[12..24] == sync[0..12]
  {
  }

  /** Storing one sign in both halves grows the mirror by one slot. */
  lemma MirrorGrows(sync: seq<int>, i: nat, x: int)
    requires |sync| == 24 && i < 12 && Mirrored(sync, i)
    ensures Mirrored(sync[i := x][i + 12 := x], i + 1)
  {
  }

  /**
   * Storing one sign in both halves of a fully mirrored buffer keeps it
   * mirrored and slides the window after the stored slot by one sign.
   */
  lemma MirrorSlides(sync: seq<int>, c: nat, i: nat, x: int)
    requires |sync| == 24 && c <= 12 && i < 12 && (i == c || (c == 12 && i == 0)) && Mirrored(sync, 12)
    ensures var n := sync[i := x][i + 12 := x];
      Mirrored(n, 12) && n[i + 1..i + 13] == sync[c..c + 12][1..] + [x]
  {
    if c == 12 {
      WrapWindow(sync);
    }
    assert sync[c..c + 12] == sync[i..i + 12];
  }

  /** The store branch of one ExtSearch symbol. */
  lemma ExtStoreFacts(s: Snapshot, d: Dibit)
    requires Inv(s) && s.ctl.state == ExtSearch
    requires Compares(s) ==> s.bufs.sync[ExtSlot(s)..ExtSlot(s) + 12] !in {FS2, Preamble}
    ensures var r := Step(s, d);
      var i := ExtSlot(s);
      r.ctl == s.ctl.(symbolIndex := i + 1, syncCycle := ExtCycle(s)) && r.host == s.host
      && r.bufs == s.bufs.(sync := s.bufs.sync[i := Sign(d)][i + 12 := Sign(d)])
  {
  }

  /**
   * An ExtSearch symbol that finds nothing is stored in both halves of
   * the buffer: the cursor moves on by one and the host is untouched. The
   * mirror grows by one slot, and a fully mirrored buffer stays so with
   * its window slid by one symbol: the window always holds the last 12
   * signs received.
   */
  lemma ExtStoreStep(s: Snapshot, d: Dibit)
    requires Inv(s) && s.ctl.state == ExtSearch
    requires Compares(s) ==> s.bufs.sync[ExtSlot(s)..ExtSlot(s) + 12] !in {FS2, Preamble}
    ensures var r := Step(s, d);
      var i := ExtSlot(s);
      r.ctl == s.ctl.(symbolIndex := i + 1, syncCycle := ExtCycle(s)) && r.host == s.host
      && r.bufs.sync[i] == Sign(d) == r.bufs.sync[i + 12]
      && (Mirrored(s.bufs.sync, i) ==> Mirrored(r.bufs.sync, i + 1))
      && (Mirrored(s.bufs.sync, 12) ==> Mirrored(r.bufs.sync, 12) && Window(r) == Window(s)[1..] + [Sign(d)])
  {
    var i := ExtSlot(s);
    var r := Step(s, d);
    ExtStoreFacts(s, d);
    if Mirrored(s.bufs.sync, i) {
      MirrorGrows(s.bufs.sync, i, Sign(d));
    }
    if Mirrored(s.bufs.sync, 12) {
      MirrorSlides(s.bufs.sync, s.ctl.symbolIndex, i, Sign(d));
    }
  }

  /** An ExtSearch state whose next symbol is stored: no FS2 or preamble in a comparing cycle. */
  predicate Searching(t: Snapshot)
    requires Inv(t)
  {
    t.ctl.state == ExtSearch && (Compares(t) ==> t.bufs.sync[ExtSlot(t)..ExtSlot(t) + 12] !in {FS2, Preamble})
  }

  /** Every symbol of ds, fed from s on, is stored: the search finds neither pattern. */
  predicate Quiet(s: Snapshot, ds: seq<Dibit>)
    requires Inv(s)
  {
    forall j :: 0 <= j < |ds| ==> Searching(Run(s, ds[..j]))
  }

  /**
   * From ExtSearch entry at cursor 0, while nothing matches, the buffer
   * fills slot by slot with the signs received; once 12 symbols are in,
   * the 12 slots from the cursor hold the last 12 signs in arrival order.
   */
  lemma {:induction false} ExtSearchRun(s: Snapshot, ds: seq<Dibit>)
    requires Inv(s) && s.ctl.state == ExtSearch && s.ctl.symbolIndex == 0
    requires Quiet(s, ds)
    ensures var r := Run(s, ds);
      r.ctl.state == ExtSearch && r.host == s.host && Filling(r, ds)
    decreases |ds|
  {
    if ds != [] {
      var n := |ds| - 1;
      var p, d := ds[..n], ds[n];
      assert Quiet(s, p) by {
        forall j | 0 <= j < |p| ensures Searching(Run(s, p[..j])) {
          assert p[..j] == ds[..j];
        }
      }
      ExtSearchRun(s, p);
      RunLast(s, ds);
      assert Searching(Run(s, p)) by {
        assert ds[..n] == p;
      }
      ExtSearchGrow(Run(s, p), ds);
    }
  }

  /**
   * The sync buffer after the symbols ds of a search: before 12 symbols,
   * the cursor counts them and the mirrored prefix holds their signs; from
   * 12 on, the window holds the signs of the last 12.
   */
  predicate Filling(r: Snapshot, ds: seq<Dibit>)
    requires Inv(r) && r.ctl.state == ExtSearch
  {
    && (|ds| < 12 ==> r.ctl.symbolIndex == |ds| && Mirrored(r.bufs.sync, |ds|) && r.bufs.sync[..|ds|] == Signs(ds))
    && (|ds| >= 12 ==> Mirrored(r.bufs.sync, 12) && Window(r) == Signs(ds[|ds| - 12..]))
  }

  /** One stored search symbol keeps Filling, extended by that symbol. */
  lemma ExtSearchGrow(t: Snapshot, ds: seq<Dibit>)
    requires Inv(t) && Searching(t) && ds != [] && Filling(t, ds[..|ds| - 1])
    ensures var r := Step(t, ds[|ds| - 1]);
      r.ctl.state == ExtSearch && r.host == t.host && Filling(r, ds)
  {
    var n := |ds| - 1;
    var p, d := ds[..n], ds[n];
    ExtStoreFacts(t, d);
    ExtStoreStep(t, d);
    var r := Step(t, d);
    SignsSnoc(ds, if n >= 12 then n - 11 else 0);
    if n < 12 {
      UpdatePrefix(t.bufs.sync, n, Sign(d), Signs(p));
      assert r.bufs.sync[..n + 1] == t.bufs.sync[n := Sign(d)][..n + 1];
      assert ds[0..] == ds && p[0..] == p;
      if n == 11 {
        WrapWindow(r.bufs.sync);
        assert Window(r) == r.bufs.sync[..12];
      }
    } else {
      assert Signs(p[n - 12..])[1..] == Signs(p[n - 11..]);
      assert p[n - 11..] == ds[..n][n - 11..];
    }
  }

  /**
   * In a comparing cycle, FS2 in the window starts a superframe and
   * handles the same symbol as its first CCH symbol, so the superframe
   * starts at cursor 1 as a payload frame.
   */
  lemma ExtFindsFS2(s: Snapshot, d: Dibit)
    requires Inv(s) && s.ctl.state == ExtSearch && Compares(s)
    requires s.bufs.sync[ExtSlot(s)..ExtSlot(s) + 12] == FS2
    ensures var r := Step(s, d);
      r.ctl.state == SuperFrame && r.ctl.symbolIndex == 1 && r.ctl.frameType == PayloadFrame && r.host == s.host
  {
  }

  /**
   * In a comparing cycle, the full 12-sign preamble in the window (and
   * no FS2) asks for a resync and leaves the search running unchanged.
   */
  lemma ExtFindsPreamble(s: Snapshot, d: Dibit)
    requires Inv(s) && s.ctl.state == ExtSearch && Compares(s)
    requires s.bufs.sync[ExtSlot(s)..ExtSlot(s) + 12] == Preamble
    ensures var r := Step(s, d);
      r.ctl.state == ExtSearch && r.ctl.frameType == NoFrame && r.host.resyncs == s.host.resyncs + 1
      && r.ctl.symbolIndex == ExtSlot(s) && r.bufs == s.bufs
  {
    var c := s.ctl;
    var s1 := if c.symbolIndex >= 12 then s.(ctl := c.(symbolIndex := 0, syncCycle := ExtCycle(s))) else s;
    assert s1.bufs.sync[s1.ctl.symbolIndex..s1.ctl.symbolIndex + 12] != FS2 by {
      assert Preamble[4] != FS2[4];
    }
    assert Step(s, d) == Resync(s1);
  }

  // ---------------------------------------------------------------------
  // Voice blocks: 36 traffic dibits of a voice frame.
  // ---------------------------------------------------------------------

  /** The voice handler applied to dibits 0, 1, ... of one block, in order. */
  function VoiceBlock(s: Snapshot, ds: seq<Dibit>): (r: Snapshot)
    requires Bounded(s) && |ds| <= 36
    ensures Bounded(r) && r.host.mbelib == s.host.mbelib
    ensures ds != [] ==> r.ctl.voiceCursor == |ds|
  {
    if ds == [] then s
    else
      var p := VoiceBlock(s, ds[..|ds| - 1]);
      Voice(p, |ds| - 1, ds[|ds| - 1])
  }

  /** A run of dibits read as a base-4 number, first dibit most significant. */
  function Base4(xs: seq<Dibit>): nat
  {
    if xs == [] then 0 else 4 * Base4(xs[..|xs| - 1]) + xs[|xs| - 1]
  }

  /** How many dibits of DVSI byte b the first n dibits of a block fill. */
  function Filled(n: nat, b: nat): nat
  {
    if n <= 4 * b then 0 else if n >= 4 * b + 4 then 4 else n - 4 * b
  }

  /** DVSI byte b after the dibits ds: its filled dibits, most significant first, left-aligned. */
  function Packed(ds: seq<Dibit>, b: nat): nat
    requires b < 9 && |ds| <= 36
  {
    if |ds| <= 4 * b then 0
    else
      var q := Filled(|ds|, b);
      Base4(ds[4 * b..4 * b + q]) * Pow2(8 - 2 * q)
  }

  /** The placing half of the voice handler. */
  lemma PlaceFacts(s: Snapshot, j: nat, d: Dibit)
    requires Bounded(s) && j < 36
    ensures var p := VoicePlace(s, j, d);
      p.host == s.host.(ambe := p.host.ambe, dvFrame := if j == 0 then Zeros(9) else s.host.dvFrame)
      && p.host.ambe == s.host.ambe[HighTarget(j) := HighBit(d)][LowTarget(j) := LowBit(d)]
  {
  }

  /** The hand-over half of the voice handler. */
  lemma HandOverFacts(p: Snapshot, j: nat, d: Dibit)
    requires Bounded(p) && j < 36
    ensures var r := VoiceHandOver(p, j, d);
      r.host == p.host.(dvFrame := StoreSymbolDV(p.host, j, d).dvFrame,
                        voiceFrames := p.host.voiceFrames + (if j == 35 then 1 else 0))
  {
  }

  /** Setting the next dibit of a left-aligned byte: the OR is an addition of the shifted dibit. */
  lemma PackOne(prefix: nat, q: nat, d: Dibit)
    requires q < 4
    ensures Or(prefix * Pow2(8 - 2 * q), d * Pow2(6 - 2 * q)) == (4 * prefix + d) * Pow2(6 - 2 * q)
  {
    var m := 6 - 2 * q;
    assert 8 - 2 * q == m + 2;
    PackShifted(prefix, d, m);
  }

  /** The shifted-dibit OR of PackOne with the shift as a plain exponent. */
  lemma PackShifted(prefix: nat, d: Dibit, m: nat)
    ensures Or(prefix * Pow2(m + 2), d * Pow2(m)) == (4 * prefix + d) * Pow2(m)
  {
    var p := Pow2(m);
    assert Pow2(m + 2) == 4 * p;
    var low := d * p;
    assert low < Pow2(m + 2) by {
      if d == 0 {} else if d == 1 {} else if d == 2 {} else {}
    }
    OrCommutes(prefix * Pow2(m + 2), low);
    OrDisjointIsAdd(low, prefix, m + 2);
    Regroup(prefix, d, p);
  }

  /** The arithmetic behind PackShifted. */
  lemma Regroup(prefix: nat, d: nat, p: nat)
    ensures d * p + prefix * (4 * p) == (4 * prefix + d) * p
  {
  }

  /** Base4 of a run extended by one dibit. */
  lemma Base4Snoc(ds: seq<Dibit>, lo: nat, hi: nat)
    requires lo <= hi < |ds|
    ensures Base4(ds[lo..hi + 1]) == 4 * Base4(ds[lo..hi]) + ds[hi]
  {
    assert ds[lo..hi + 1][..hi - lo] == ds[lo..hi];
  }

  /** The byte the handler writes after dibits ds[..n-1]: the packed byte after ds. */
  lemma PackedStep(ds: seq<Dibit>, b: nat)
    requires 1 <= |ds| <= 36 && b < 9
    ensures var j := |ds| - 1;
      var p := ds[..j];
      (b == j / 4 ==> Packed(ds, b) == Or(Packed(p, b), ds[j] * Pow2(6 - 2 * (j % 4))))
      && (b != j / 4 ==> Packed(ds, b) == Packed(p, b))
  {
    if b == (|ds| - 1) / 4 {
      PackedGrows(ds, b);
    } else {
      PackedKept(ds, b);
    }
  }

  /** The byte the last dibit belongs to gains it as its next two bits. */
  lemma PackedGrows(ds: seq<Dibit>, b: nat)
    requires 1 <= |ds| <= 36 && b == (|ds| - 1) / 4
    ensures var j := |ds| - 1;
      Packed(ds, b) == Or(Packed(ds[..j], b), ds[j] * Pow2(6 - 2 * (j % 4)))
  {
    var j := |ds| - 1;
    var q := j % 4;
    var prefix := Base4(ds[4 * b..j]);
    PackedBefore(ds, b);
    PackedAfter(ds, b);
    Base4Snoc(ds, 4 * b, j);
    PackOne(prefix, q, ds[j]);
  }

  /** The byte before its newest dibit: the dibits already in it, left-aligned. */
  lemma PackedBefore(ds: seq<Dibit>, b: nat)
    requires 1 <= |ds| <= 36 && b == (|ds| - 1) / 4
    ensures var j := |ds| - 1;
      Packed(ds[..j], b) == Base4(ds[4 * b..j]) * Pow2(8 - 2 * (j % 4))
  {
    var j := |ds| - 1;
    assert Filled(j, b) == j % 4;
    assert ds[..j][4 * b..4 * b + j % 4] == ds[4 * b..j];
  }

  /** The byte after its newest dibit. */
  lemma PackedAfter(ds: seq<Dibit>, b: nat)
    requires 1 <= |ds| <= 36 && b == (|ds| - 1) / 4
    ensures var j := |ds| - 1;
      Packed(ds, b) == Base4(ds[4 * b..j + 1]) * Pow2(6 - 2 * (j % 4))
  {
    var j := |ds| - 1;
    assert Filled(j + 1, b) == j % 4 + 1;
  }

  /** Every other byte is as it was. */
  lemma PackedKept(ds: seq<Dibit>, b: nat)
    requires 1 <= |ds| <= 36 && b < 9 && b != (|ds| - 1) / 4
    ensures Packed(ds, b) == Packed(ds[..|ds| - 1], b)
  {
    var j := |ds| - 1;
    if 4 * b < j {
      assert Filled(j + 1, b) == Filled(j, b) == 4;
      assert ds[..j][4 * b..4 * b + 4] == ds[4 * b..4 * b + 4];
    }
  }

  /** The DVSI bytes the voice block has packed so far. */
  predicate DvPacked(dv: seq<Byte>, ds: seq<Dibit>)
    requires |ds| <= 36
  {
    |dv| == 9 && forall b :: 0 <= b < 9 ==> dv[b] == Packed(ds, b)
  }

  /** One dibit more in the DVSI frame. */
  lemma DvPackedStep(h: Host, ds: seq<Dibit>)
    requires HostOk(h) && !h.mbelib && 1 <= |ds| <= 36 && DvPacked(h.dvFrame, ds[..|ds| - 1])
    ensures DvPacked(StoreSymbolDV(h, |ds| - 1, ds[|ds| - 1]).dvFrame, ds)
  {
    var j := |ds| - 1;
    var dv := StoreSymbolDV(h, j, ds[j]).dvFrame;
    forall b | 0 <= b < 9
      ensures dv[b] == Packed(ds, b)
    {
      PackedStep(ds, b);
    }
  }

  /** A run of n dibits is below 4^n. */
  lemma {:induction false} Base4Bound(xs: seq<Dibit>)
    ensures Base4(xs) < Pow2(2 * |xs|)
  {
    if xs != [] {
      Base4Bound(xs[..|xs| - 1]);
      assert Pow2(2 * |xs|) == 4 * Pow2(2 * (|xs| - 1));
    }
  }

  /** Pow2 turns sums of exponents into products. */
  lemma {:induction false} Pow2Add(a: nat, b: nat)
    ensures Pow2(a) * Pow2(b) == Pow2(a + b)
  {
    if a > 0 {
      Pow2Add(a - 1, b);
    }
  }

  /** Each dibit of ds has its high and low bits in the AMBE cells the schedule names for its position. */
  predicate Scattered(ambe: seq<Bit>, ds: seq<Dibit>)
    requires |ambe| == AmbeRows * AmbeCols && |ds| <= 36
  {
    forall j :: 0 <= j < |ds| ==> ambe[HighTarget(j)] == HighBit(ds[j]) && ambe[LowTarget(j)] == LowBit(ds[j])
  }

  /** Placing the next dibit keeps the earlier ones: the schedule never reuses a cell. */
  lemma ScatterStep(ambe: seq<Bit>, ds: seq<Dibit>)
    requires |ambe| == AmbeRows * AmbeCols && 1 <= |ds| <= 36 && Scattered(ambe, ds[..|ds| - 1])
    ensures var j := |ds| - 1;
      Scattered(ambe[HighTarget(j) := HighBit(ds[j])][LowTarget(j) := LowBit(ds[j])], ds)
  {
    var n := |ds|;
    var a2 := ambe[HighTarget(n - 1) := HighBit(ds[n - 1])][LowTarget(n - 1) := LowBit(ds[n - 1])];
    forall j | 0 <= j < n
      ensures a2[HighTarget(j)] == HighBit(ds[j]) && a2[LowTarget(j)] == LowBit(ds[j])
    {
      VoiceTargetsDistinct(j, n - 1);
      VoiceTargetsDistinct(n - 1, j);
      if j < n - 1 {
        assert ds[j] == ds[..n - 1][j];
      }
    }
  }

  /** The AMBE bits the voice handler has placed so far. */
  lemma {:induction false} VoiceScatterRun(s: Snapshot, ds: seq<Dibit>)
    requires Bounded(s) && |ds| <= 36
    ensures Scattered(VoiceBlock(s, ds).host.ambe, ds)
  {
    if ds != [] {
      var n := |ds|;
      var p := ds[..n - 1];
      var q := VoiceBlock(s, p);
      VoiceScatterRun(s, p);
      PlaceFacts(q, n - 1, ds[n - 1]);
      HandOverFacts(VoicePlace(q, n - 1, ds[n - 1]), n - 1, ds[n - 1]);
      ScatterStep(q.host.ambe, ds);
    }
  }

  /** The DVSI bytes the voice handler has packed so far, or a cleared frame when mbelib decodes. */
  lemma {:induction false} VoiceDvRun(s: Snapshot, ds: seq<Dibit>)
    requires Bounded(s) && 1 <= |ds| <= 36
    ensures var r := VoiceBlock(s, ds);
      (s.host.mbelib ==> r.host.dvFrame == Zeros(9)) && (!s.host.mbelib ==> DvPacked(r.host.dvFrame, ds))
  {
    var n := |ds|;
    var p := ds[..n - 1];
    var q := VoiceBlock(s, p);
    var pl := VoicePlace(q, n - 1, ds[n - 1]);
    PlaceFacts(q, n - 1, ds[n - 1]);
    HandOverFacts(pl, n - 1, ds[n - 1]);
    if n == 1 {
      assert pl.host.dvFrame == Zeros(9);
      assert DvPacked(pl.host.dvFrame, p);
    } else {
      VoiceDvRun(s, p);
    }
    if !s.host.mbelib {
      DvPackedStep(pl.host, ds);
    }
  }

  /** The handler counts a vocoder frame only on the last dibit of a block. */
  lemma {:induction false} VoiceCountRun(s: Snapshot, ds: seq<Dibit>)
    requires Bounded(s) && |ds| <= 36
    ensures VoiceBlock(s, ds).host.voiceFrames == s.host.voiceFrames + (if |ds| == 36 then 1 else 0)
  {
    if ds != [] {
      var n := |ds|;
      var p := ds[..n - 1];
      var q := VoiceBlock(s, p);
      VoiceCountRun(s, p);
      PlaceFacts(q, n - 1, ds[n - 1]);
      HandOverFacts(VoicePlace(q, n - 1, ds[n - 1]), n - 1, ds[n - 1]);
    }
  }

  /** The DVSI byte of four dibits, the first in the top two bits. */
  function DvByte(xs: seq<Dibit>): int
    requires |xs| == 4
  {
    64 * (xs[0] as int) + 16 * (xs[1] as int) + 4 * (xs[2] as int) + xs[3]
  }

  /** Four dibits as a base-4 number. */
  lemma Base4Four(xs: seq<Dibit>)
    requires |xs| == 4
    ensures Base4(xs) == DvByte(xs)
  {
    var x3 := xs[..3];
    var x2 := x3[..2];
    var x1 := x2[..1];
    assert x1[..0] == [];
    assert Base4(x1) == xs[0];
    assert Base4(x2) == 4 * (xs[0] as int) + xs[1];
    assert Base4(x3) == 16 * (xs[0] as int) + 4 * (xs[1] as int) + xs[2];
  }

  /**
   * A whole voice block: each dibit's high and low bits sit in the AMBE
   * cells the schedule names for its position, the DVSI frame holds the
   * 36 dibits four to a byte, most significant first (or stays cleared
   * when mbelib decodes), and one vocoder frame is counted.
   */
  lemma VoiceBlockDone(s: Snapshot, ds: seq<Dibit>)
    requires Bounded(s) && |ds| == 36
    ensures var r := VoiceBlock(s, ds);
      Scattered(r.host.ambe, ds)
      && (!s.host.mbelib ==> forall b :: 0 <= b < 9 ==> r.host.dvFrame[b] == DvByte(ds[4 * b..4 * b + 4]))
      && (s.host.mbelib ==> r.host.dvFrame == Zeros(9))
      && r.host.voiceFrames == s.host.voiceFrames + 1
  {
    VoiceScatterRun(s, ds);
    VoiceDvRun(s, ds);
    VoiceCountRun(s, ds);
    var r := VoiceBlock(s, ds);
    if !s.host.mbelib {
      forall b | 0 <= b < 9
        ensures r.host.dvFrame[b] == DvByte(ds[4 * b..4 * b + 4])
      {
        assert Filled(36, b) == 4;
        Base4Four(ds[4 * b..4 * b + 4]);
      }
    }
  }

  /** In a voice frame, a traffic symbol of the superframe is the voice handler at its block position. */
  lemma TchVoiceStep(s: Snapshot, d: Dibit)
    requires Inv(s) && s.ctl.state == SuperFrame && s.ctl.frameType == VoiceFrame
    requires InTch(s.ctl.symbolIndex) && s.ctl.symbolIndex + 1 < SuperFrameLength
    ensures var t := TchOffset(s.ctl.symbolIndex) % 36;
      (t == 0 || s.ctl.voiceCursor == t) && Step(s, d).host == Voice(s, t, d).host
  {
    var si := s.ctl.symbolIndex;
    assert Step(s, d) == SuperFrameStep(s, d);
    if si < 372 {
      TchInHalf(s, if si < 180 then 36 else 228, d);
    } else {
      TchInHalf(s, if si < 564 then 420 else 612, d);
    }
  }

  /** The traffic field's host update is the voice handler's. */
  lemma TchInHalf(s: Snapshot, base: nat, d: Dibit)
    requires Inv(s) && s.ctl.state == SuperFrame && s.ctl.frameType == VoiceFrame
    requires base == 36 || base == 228 || base == 420 || base == 612
    requires base <= s.ctl.symbolIndex < base + 144 && s.ctl.symbolIndex + 1 < SuperFrameLength
    ensures var t := TchOffset(s.ctl.symbolIndex) % 36;
      (t == 0 || s.ctl.voiceCursor == t)
      && (if s.ctl.symbolIndex < 372 then FirstHalf(s, d) else SecondHalf(s, d)).host == Voice(s, t, d).host
  {
    var si := s.ctl.symbolIndex;
    assert TchOffset(si) == si - base;
    var r := TrafficField(s, base, d);
    assert r.host == TCH(s, si - base, d).host;
  }
}
