/**
 * The dPMR frame decoder as a value: a snapshot of everything the decoder
 * object keeps between calls, and one function per handler saying what a
 * single dibit does to it. The class in dpmr.dfy is proved to follow these
 * functions; dpmr_props.dfy proves what they promise.
 */
module DpmrSpec {
  import opened Bits
  import opened DpmrTables
  import opened DpmrFec

  /** The five states process() dispatches on. */
  datatype DpmrState = Header | PostFrame | ExtSearch | SuperFrame | End

  /** What the decoder reports it is currently receiving. */
  datatype FrameType = NoFrame | HeaderFrame | PayloadFrame | VoiceFrame | ExtSearchFrame | EndFrame

  /**
   * A header field decoded into an enumeration: a defined code, the
   * reserved catch-all for codes past the defined ones, or not yet set
   * (the constructor leaves these fields uninitialised).
   */
  datatype FieldCode = Unset | Code(value: nat) | Reserved

  /**
   * Where the decoder is: state, frame type, sync cycle, symbol cursor,
   * frame index, and the common offset of the four voice schedule
   * cursors w, x, y, z into RW, RX, RY, RZ.
   */
  datatype Control = Control(state: DpmrState, frameType: FrameType, syncCycle: nat, symbolIndex: nat,
                             frameIndex: int, voiceCursor: nat)

  /** What the decoder has read from the air: the colour code and the header fields. */
  datatype Received = Received(colourCode: nat, calledId: nat, ownId: nat,
                               headerType: FieldCode, commMode: FieldCode, commFormat: FieldCode)

  /**
   * Work buffers: the de-interleaved receive bits, the Hamming output, the
   * doubled sync buffer and the colour-code signs.
   */
  datatype Buffers = Buffers(rx: seq<Bit>, decoded: seq<Bit>, sync: seq<int>, colour: seq<Bit>)

  /**
   * What belongs to the host decoder: the 4 x 24 AMBE frame (row-major),
   * the 9-byte DVSI frame, the host's choice of the software vocoder, the
   * number of resetFrameSync calls and the number of voice frames handed
   * to the vocoder (each also raises the DV-ready flag).
   */
  datatype Host = Host(ambe: seq<Bit>, dvFrame: seq<Byte>, mbelib: bool, resyncs: nat, voiceFrames: nat)

  /** The tables the constructor fills: scrambling bits and the two de-interleavers. */
  datatype Tables = Tables(scramble: seq<Bit>, di72: seq<nat>, di120: seq<nat>)

  /** The decoder's state between two calls. */
  datatype Snapshot = Snapshot(ctl: Control, rcv: Received, bufs: Buffers, host: Host, tables: Tables)

  function DI72Table(): (t: seq<nat>)
    ensures |t| == 72
  {
    seq(72, i requires 0 <= i < 72 => DI72(i))
  }

  function DI120Table(): (t: seq<nat>)
    ensures |t| == 120
  {
    seq(120, i requires 0 <= i < 120 => DI120(i))
  }

  // ---------------------------------------------------------------------
  // Superframe layout: after the FS2 that PostFrame consumed come
  // CCH0 TCH0 CC0 CCH1 TCH1 FS2 CCH2 TCH2 CC1 CCH3 TCH3.
  // ---------------------------------------------------------------------

  const SuperFrameLength := 756

  /** Whether superframe cursor si lies in one of the four 144-symbol traffic fields. */
  predicate InTch(si: nat)
  {
    36 <= si < 180 || 228 <= si < 372 || 420 <= si < 564 || 612 <= si < 756
  }

  /** Offset of cursor si inside its traffic field. */
  function TchOffset(si: nat): (t: nat)
    requires InTch(si)
    ensures t < 144
  {
    if si < 180 then si - 36 else if si < 372 then si - 228 else if si < 564 then si - 420 else si - 612
  }

  /**
   * Inside a voice traffic field, the schedule cursors have advanced once
   * per dibit since the start of the current 36-dibit block.
   */
  predicate VoiceCursorOk(c: Control)
  {
    (c.state == SuperFrame && c.frameType == VoiceFrame && InTch(c.symbolIndex) && TchOffset(c.symbolIndex) % 36 != 0)
      ==> c.voiceCursor == TchOffset(c.symbolIndex) % 36
  }

  predicate TablesOk(t: Tables)
  {
    |t.scramble| == 120 && t.di72 == DI72Table() && t.di120 == DI120Table()
  }

  predicate BuffersOk(b: Buffers)
  {
    |b.rx| == 120 && |b.decoded| == 80 && |b.sync| == 24 && |b.colour| == 12
  }

  predicate HostOk(h: Host)
  {
    |h.ambe| == AmbeRows * AmbeCols && |h.dvFrame| == 9
  }

  /** A 12-bit colour code and 24-bit identifiers. */
  predicate ReceivedOk(v: Received)
  {
    v.colourCode < 0x1000 && v.calledId < 0x100_0000 && v.ownId < 0x100_0000
  }

  /** The sync cycle in 0 .. 15, the search cursor in 0 .. 12, the voice schedule in step. */
  predicate ControlOk(c: Control)
  {
    c.syncCycle <= 15 && (c.state == ExtSearch ==> c.symbolIndex <= 12) && VoiceCursorOk(c)
  }

  /** Everything but the control part: what the field handlers keep on their own. */
  predicate Bounded(s: Snapshot)
  {
    TablesOk(s.tables) && BuffersOk(s.bufs) && HostOk(s.host) && ReceivedOk(s.rcv)
  }

  /** What every snapshot reachable from the constructor satisfies. */
  predicate Inv(s: Snapshot)
  {
    Bounded(s) && ControlOk(s.ctl)
  }

  /** The decoder as its constructor leaves it. */
  function Initial(mbelib: bool): (s: Snapshot)
    ensures Inv(s) && s.ctl.state == Header && s.ctl.symbolIndex == 0 && s.ctl.frameIndex == -1
  {
    Snapshot(Control(Header, NoFrame, 0, 0, -1, 0),
             Received(0, 0, 0, Unset, Unset, Unset),
             Buffers(Zeros(120), Zeros(80), Zeros(24), Zeros(12)),
             Host(Zeros(AmbeRows * AmbeCols), Zeros(9), mbelib, 0, 0),
             Tables(ScrambleBits(), DI72Table(), DI120Table()))
  }

  /** init(): restart at the first header symbol, everything else kept. */
  function Init(s: Snapshot): (r: Snapshot)
    requires Inv(s)
    ensures Inv(r) && r.ctl.state == Header && r.ctl.symbolIndex == 0
    ensures r.rcv == s.rcv && r.bufs == s.bufs && r.host == s.host && r.tables == s.tables
  {
    s.(ctl := s.ctl.(symbolIndex := 0, state := Header))
  }

  /** The snapshot with the symbol cursor set to n. */
  function WithCursor(s: Snapshot, n: nat): Snapshot
  {
    s.(ctl := s.ctl.(symbolIndex := n))
  }

  /** Drop the frame type and ask the host for a full resynchronisation. */
  function Resync(s: Snapshot): (r: Snapshot)
    ensures r.host.resyncs == s.host.resyncs + 1
  {
    s.(ctl := s.ctl.(frameType := NoFrame), host := s.host.(resyncs := s.host.resyncs + 1))
  }

  // ---------------------------------------------------------------------
  // Field handlers.
  // ---------------------------------------------------------------------

  /** The sign a sync slot records: 1 (for +3) for dibits 0 and 1, 3 (for -3) for 2 and 3. */
  function Sign(d: Dibit): int
  {
    if d > 1 then 3 else 1
  }

  /** The sign bit a colour-code slot records. */
  function ColourBit(d: Dibit): Bit
  {
    if d > 1 then 1 else 0
  }

  /** The sign values of a run of dibits. */
  function Signs(ds: seq<Dibit>): (r: seq<int>)
    ensures |r| == |ds|
  {
    seq(|ds|, i requires 0 <= i < |ds| => Sign(ds[i]))
  }

  /**
   * processHIn: dibit k of a 60-symbol header block, descrambled and
   * de-interleaved into the receive buffer; the last one decodes the block.
   */
  function HIn(s: Snapshot, k: nat, d: Dibit): (r: Snapshot)
    requires Bounded(s) && k < 60
    ensures Bounded(r)
    ensures r.ctl == s.ctl && r.host == s.host && r.tables == s.tables
    ensures r.bufs.sync == s.bufs.sync && r.bufs.colour == s.bufs.colour && r.rcv.colourCode == s.rcv.colourCode
    ensures k < 59 ==> r.rcv == s.rcv && r.bufs.decoded == s.bufs.decoded
  {
    var t := s.tables;
    var rx := s.bufs.rx[t.di120[2 * k] := XorBit(HighBit(d), t.scramble[2 * k])]
                       [t.di120[2 * k + 1] := XorBit(LowBit(d), t.scramble[2 * k + 1])];
    var s1 := s.(bufs := s.bufs.(rx := rx));
    if k == 59 then HeaderBlock(s1) else s1
  }

  /**
   * End of a header block: Hamming-decode the ten codewords in place with
   * decode() as written; when the CRC8 over the 72 data bits holds, take over the header fields,
   * otherwise keep every field.
   */
  function HeaderBlock(s: Snapshot): (r: Snapshot)
    requires Bounded(s)
    ensures Bounded(r)
    ensures r.ctl == s.ctl && r.host == s.host && r.tables == s.tables
    ensures r.bufs == s.bufs.(rx := DecodeAsWritten(s.bufs.rx, 10).rx, decoded := DecodeAsWritten(s.bufs.rx, 10).decoded)
    ensures r.rcv == if CrcPasses(r.bufs.decoded, 72, Crc8Poly) then HeaderFields(s.rcv, r.bufs.decoded) else s.rcv
  {
    var o := DecodeAsWritten(s.bufs.rx, 10);
    var bufs := s.bufs.(rx := o.rx, decoded := o.decoded);
    var rcv := if CrcPasses(o.decoded, 72, Crc8Poly) then HeaderFields(s.rcv, o.decoded) else s.rcv;
    s.(bufs := bufs, rcv := rcv)
  }

  /** The reserved catch-all for codes from limit on. */
  function Enumerate(v: nat, limit: nat): (f: FieldCode)
    ensures f != Unset
    ensures f.Code? <==> v < limit
    ensures f.Code? ==> f.value == v
  {
    if v < limit then Code(v) else Reserved
  }

  /**
   * The header fields, each read most significant bit first: type in bits
   * 0-3, called id 4-27, own id 28-51, mode 52-54, format 55-58. A zero
   * identifier keeps the one stored before; the colour code is not touched.
   */
  function HeaderFields(v: Received, b: seq<Bit>): (r: Received)
    requires ReceivedOk(v) && |b| >= 59
    ensures ReceivedOk(r) && r.colourCode == v.colourCode
  {
    var called := BitsToNat(b[4..28]);
    var own := BitsToNat(b[28..52]);
    Pow2Values();
    v.(calledId := if called != 0 then called else v.calledId,
       ownId := if own != 0 then own else v.ownId,
       headerType := Enumerate(BitsToNat(b[0..4]), 9),
       commMode := Enumerate(BitsToNat(b[52..55]), 6),
       commFormat := Enumerate(BitsToNat(b[55..59]), 2))
  }

  /** HeaderFields in terms of the five numbers read from the block. */
  lemma HeaderFieldsFromWords(v: Received, b: seq<Bit>, ht: nat, called: nat, own: nat, mode: nat, format: nat)
    requires ReceivedOk(v) && |b| >= 59
    requires ht == BitsToNat(b[0..4]) && mode == BitsToNat(b[52..55]) && format == BitsToNat(b[55..59])
    requires called == BitsToNat(b[4..28]) && own == BitsToNat(b[28..52])
    ensures HeaderFields(v, b)
         == Received(v.colourCode, if called != 0 then called else v.calledId, if own != 0 then own else v.ownId,
                     if ht < 9 then Code(ht) else Reserved, if mode < 6 then Code(mode) else Reserved,
                     if format < 2 then Code(format) else Reserved)
  {
  }

  /**
   * processColourCode: slot k of the 12-symbol colour code takes the sign
   * bit; the last slot recomputes the code, slot 0 as its most significant bit.
   */
  function ColourCode(s: Snapshot, k: nat, d: Dibit): (r: Snapshot)
    requires Bounded(s) && k < 12
    ensures Bounded(r)
    ensures r.ctl == s.ctl && r.host == s.host && r.tables == s.tables
    ensures r.bufs == s.bufs.(colour := s.bufs.colour[k := ColourBit(d)])
    ensures r.rcv == s.rcv.(colourCode := r.rcv.colourCode)
    ensures k < 11 ==> r.rcv == s.rcv
  {
    var cb := s.bufs.colour[k := ColourBit(d)];
    var s1 := s.(bufs := s.bufs.(colour := cb));
    Pow2Values();
    if k == 11 then s1.(rcv := s.rcv.(colourCode := BitsToNat(cb))) else s1
  }

  /**
   * processCCH: dibit k of a 36-symbol control channel, descrambled and
   * de-interleaved; its decoding is switched off, and the last dibit marks
   * the frame as voice.
   */
  function CCH(s: Snapshot, k: nat, d: Dibit): (r: Snapshot)
    requires Bounded(s) && k < 36
    ensures Bounded(r)
    ensures r.rcv == s.rcv && r.host == s.host && r.tables == s.tables
    ensures r.bufs == s.bufs.(rx := r.bufs.rx)
    ensures r.ctl == s.ctl.(frameType := r.ctl.frameType)
    ensures k < 35 ==> r.ctl == s.ctl
  {
    var t := s.tables;
    var rx := s.bufs.rx[t.di72[2 * k] := XorBit(HighBit(d), t.scramble[2 * k])]
                       [t.di72[2 * k + 1] := XorBit(LowBit(d), t.scramble[2 * k + 1])];
    var s1 := s.(bufs := s.bufs.(rx := rx));
    if k == 35 then s1.(ctl := s.ctl.(frameType := VoiceFrame)) else s1
  }

  /** storeSymbolDV: dibit j of a voice block or-ed into DVSI byte j / 4 at shift 6 - 2 (j % 4). */
  function StoreSymbolDV(h: Host, j: nat, d: Dibit): (r: Host)
    requires HostOk(h) && j < 36
    ensures HostOk(r) && r == h.(dvFrame := r.dvFrame)
    ensures h.mbelib ==> r == h
  {
    if h.mbelib then h
    else
      var b := j / 4;
      var v := d * Pow2(6 - 2 * (j % 4));
      Pow2Monotone(6 - 2 * (j % 4), 6);
      assert Pow2(8) == 256;
      OrBelow(h.dvFrame[b], v, 8);
      h.(dvFrame := h.dvFrame[b := Or(h.dvFrame[b], v)])
  }

  /**
   * processVoiceFrame: dibit j of a 36-dibit voice block is placed, then
   * handed over.
   */
  function Voice(s: Snapshot, j: nat, d: Dibit): (r: Snapshot)
    requires Bounded(s) && j < 36 && (j == 0 || s.ctl.voiceCursor == j)
    ensures Bounded(r)
    ensures r.rcv == s.rcv && r.bufs == s.bufs && r.tables == s.tables
    ensures r.ctl == s.ctl.(voiceCursor := j + 1)
  {
    VoiceHandOver(VoicePlace(s, j, d), j, d)
  }

  /**
   * The first dibit of a block resets the schedule and clears the DVSI
   * frame; each dibit sends its two bits to the AMBE cells the schedule
   * names and advances the schedule.
   */
  function VoicePlace(s: Snapshot, j: nat, d: Dibit): (r: Snapshot)
    requires Bounded(s) && j < 36
    ensures Bounded(r)
  {
    var h := if j == 0 then s.host.(dvFrame := Zeros(9)) else s.host;
    var ambe := h.ambe[HighTarget(j) := HighBit(d)][LowTarget(j) := LowBit(d)];
    s.(ctl := s.ctl.(voiceCursor := j + 1), host := h.(ambe := ambe))
  }

  /** The dibit is packed for the DVSI chip; the last of a block hands the frame to the vocoder. */
  function VoiceHandOver(s: Snapshot, j: nat, d: Dibit): (r: Snapshot)
    requires Bounded(s) && j < 36
    ensures Bounded(r) && r == s.(host := r.host)
  {
    var h := StoreSymbolDV(s.host, j, d);
    s.(host := if j == 35 then h.(voiceFrames := h.voiceFrames + 1) else h)
  }

  /** processTCH: traffic dibit t goes to the voice handler only in a voice frame. */
  function TCH(s: Snapshot, t: nat, d: Dibit): (r: Snapshot)
    requires Bounded(s) && t < 144
    requires s.ctl.frameType == VoiceFrame && t % 36 != 0 ==> s.ctl.voiceCursor == t % 36
    ensures Bounded(r)
    ensures s.ctl.frameType != VoiceFrame ==> r == s
    ensures s.ctl.frameType == VoiceFrame ==> r == Voice(s, t % 36, d)
  {
    if s.ctl.frameType == VoiceFrame then Voice(s, t % 36, d) else s
  }

  /**
   * processFS2: slot k of the in-superframe sync. On the last slot the
   * buffer is matched: FS2 continues the superframe, FS3 goes to the end
   * frame, anything else to the extensive search.
   */
  function FS2Field(s: Snapshot, k: nat, d: Dibit): (r: Snapshot)
    requires Bounded(s) && k < 12
    ensures Bounded(r)
    ensures r.rcv == s.rcv && r.host == s.host && r.tables == s.tables
    ensures r.bufs == s.bufs.(sync := s.bufs.sync[k := Sign(d)])
    ensures k < 11 ==> r.ctl == s.ctl
  {
    var sb := s.bufs.sync[k := Sign(d)];
    var s1 := s.(bufs := s.bufs.(sync := sb));
    if k == 11 then
      if sb[..12] == FS2 then s1.(ctl := s.ctl.(frameType := PayloadFrame))
      else if sb[..12] == FS3 then s1.(ctl := s.ctl.(state := End, symbolIndex := 0))
      else s1.(ctl := s.ctl.(frameType := ExtSearchFrame, state := ExtSearch, symbolIndex := 0, syncCycle := 0))
    else s1
  }

  // ---------------------------------------------------------------------
  // State handlers.
  // ---------------------------------------------------------------------

  /** processHeader: HI0 (60), colour code (12), HI1 (60), then PostFrame. */
  function HeaderStep(s: Snapshot, d: Dibit): (r: Snapshot)
    requires Inv(s) && s.ctl.state == Header
    ensures Inv(r)
  {
    var s1 := if s.ctl.symbolIndex == 0 then s.(ctl := s.ctl.(frameType := HeaderFrame)) else s;
    HeaderField(s1, d)
  }

  /** The header symbol at the cursor, the frame type already set: HI0, colour code, HI1, and past them a resync. */
  function HeaderField(s: Snapshot, d: Dibit): (r: Snapshot)
    requires Inv(s) && s.ctl.state == Header
    ensures Inv(r)
  {
    var si := s.ctl.symbolIndex;
    if si < 60 then WithCursor(HIn(s, si, d), si + 1)
    else if si < 60 + 12 then WithCursor(ColourCode(s, si - 60, d), si + 1)
    else if si < 60 + 12 + 60 then
      var s2 := HIn(s, si - (60 + 12), d);
      if si + 1 == 60 + 12 + 60 then s2.(ctl := s2.ctl.(state := PostFrame, symbolIndex := 0, frameIndex := 0))
      else WithCursor(s2, si + 1)
    else Resync(s)
  }

  /** Whether the first 8 preamble signs appear at offset o of the sync buffer. */
  predicate PreambleAt(sync: seq<int>, o: nat)
    requires o + 8 <= |sync|
  {
    sync[o..o + 8] == Preamble[..8]
  }

  /**
   * The decision PostFrame takes once 12 sync signs are in: FS2 starts a
   * superframe, FS3 an end frame, a preamble fragment at offsets 0 .. 3
   * asks for a resync, anything else starts the extensive search.
   */
  function PostFrameDecide(s: Snapshot): (r: Snapshot)
    requires Inv(s) && s.ctl.state == PostFrame
    ensures Inv(r)
  {
    var sync := s.bufs.sync;
    if sync[..12] == FS2 then s.(ctl := s.ctl.(state := SuperFrame, symbolIndex := 0))
    else if sync[..12] == FS3 then s.(ctl := s.ctl.(state := End, symbolIndex := 0))
    else if PreambleAt(sync, 0) || PreambleAt(sync, 1) || PreambleAt(sync, 2) || PreambleAt(sync, 3) then Resync(s)
    else s.(ctl := s.ctl.(frameType := ExtSearchFrame, state := ExtSearch, symbolIndex := 0, syncCycle := 0))
  }

  /** processPostFrame: 12 sync signs, then (if still here) a 180-symbol payload skip. */
  function PostFrameStep(s: Snapshot, d: Dibit): (r: Snapshot)
    requires Inv(s) && s.ctl.state == PostFrame
    ensures Inv(r)
  {
    var si := s.ctl.symbolIndex;
    if si < 12 then
      var s1 := WithCursor(s.(bufs := s.bufs.(sync := s.bufs.sync[si := Sign(d)])), si + 1);
      if si + 1 == 12 then PostFrameDecide(s1) else s1
    else if si < 12 + 5 * 36 then WithCursor(s, si + 1)
    else WithCursor(s, 0)
  }

  /**
   * processExtSearch: every 12 symbols the sync cycle advances (mod 16);
   * in cycles 15 and 0 the 12 slots from the cursor are matched against
   * FS2 (re-enter the superframe on this very symbol) and the preamble
   * (resync); otherwise the sign is stored at the cursor and 12 past it.
   */
  function ExtSearchStep(s: Snapshot, d: Dibit): (r: Snapshot)
    requires Inv(s) && s.ctl.state == ExtSearch
    ensures Inv(r)
  {
    var c := s.ctl;
    var s1 := if c.symbolIndex >= 12 then s.(ctl := c.(symbolIndex := 0, syncCycle := if c.syncCycle < 15 then c.syncCycle + 1 else 0)) else s;
    var i := s1.ctl.symbolIndex;
    var window := s1.bufs.sync[i..i + 12];
    var compare := s1.ctl.syncCycle < 1 || s1.ctl.syncCycle > 14;
    if compare && window == FS2 then SuperFrameStep(s1.(ctl := s1.ctl.(state := SuperFrame, symbolIndex := 0)), d)
    else if compare && window == Preamble then Resync(s1)
    else WithCursor(s1.(bufs := s1.bufs.(sync := s1.bufs.sync[i := Sign(d)][i + 12 := Sign(d)])), i + 1)
  }

  /** processSuperFrame: the eleven fields of a superframe, then PostFrame. */
  function SuperFrameStep(s: Snapshot, d: Dibit): (r: Snapshot)
    requires Inv(s) && s.ctl.state == SuperFrame
    ensures Inv(r)
  {
    var s1 := if s.ctl.symbolIndex == 0 then s.(ctl := s.ctl.(frameType := PayloadFrame)) else s;
    if s1.ctl.symbolIndex < 372 then FirstHalf(s1, d) else SecondHalf(s1, d)
  }

  /** CCH0 TCH0 CC0 CCH1 TCH1: the first 372 symbols of a superframe. */
  function FirstHalf(s: Snapshot, d: Dibit): (r: Snapshot)
    requires Inv(s) && s.ctl.state == SuperFrame && s.ctl.symbolIndex < 372
    ensures Inv(r)
  {
    var si := s.ctl.symbolIndex;
    if si < 36 then ControlField(s, 0, d)
    else if si < 180 then TrafficField(s, 36, d)
    else if si < 192 then WithCursor(ColourCode(NextFrame(s), si - 180, d), si + 1)
    else if si < 228 then ControlField(s, 192, d)
    else TrafficField(s, 228, d)
  }

  /**
   * FS2-1 CCH2 TCH2 CC1 CCH3 TCH3: the rest of a superframe; after its
   * last symbol the decoder goes back to PostFrame, and a cursor past the
   * end asks for a resync.
   */
  function SecondHalf(s: Snapshot, d: Dibit): (r: Snapshot)
    requires Inv(s) && s.ctl.state == SuperFrame && 372 <= s.ctl.symbolIndex
    ensures Inv(r)
  {
    var si := s.ctl.symbolIndex;
    if si < 384 then
      var s2 := FS2Field(NextFrame(s), si - 372, d);
      WithCursor(s2, s2.ctl.symbolIndex + 1)
    else if si < 420 then ControlField(s, 384, d)
    else if si < 564 then TrafficField(s, 420, d)
    else if si < 576 then WithCursor(ColourCode(NextFrame(s), si - 564, d), si + 1)
    else if si < 612 then ControlField(s, 576, d)
    else if si < SuperFrameLength then LastTraffic(s, d)
    else Resync(s)
  }

  /** The superframe's last traffic channel: after its last symbol, back to PostFrame with frame index 0. */
  function LastTraffic(s: Snapshot, d: Dibit): (r: Snapshot)
    requires Inv(s) && s.ctl.state == SuperFrame && 612 <= s.ctl.symbolIndex < SuperFrameLength
    ensures Inv(r)
  {
    var si := s.ctl.symbolIndex;
    if si + 1 < SuperFrameLength then TrafficField(s, 612, d)
    else
      var s2 := TCH(s, si - 612, d);
      s2.(ctl := s2.ctl.(frameType := NoFrame, state := PostFrame, symbolIndex := 0, frameIndex := 0))
  }

  /** A superframe symbol in the control channel that starts at cursor base. */
  function ControlField(s: Snapshot, base: nat, d: Dibit): (r: Snapshot)
    requires Inv(s) && s.ctl.state == SuperFrame
    requires base == 0 || base == 192 || base == 384 || base == 576
    requires base <= s.ctl.symbolIndex < base + 36
    ensures Inv(r)
  {
    WithCursor(CCH(s, s.ctl.symbolIndex - base, d), s.ctl.symbolIndex + 1)
  }

  /** A superframe symbol in the traffic channel that starts at cursor base, short of the superframe's last symbol. */
  function TrafficField(s: Snapshot, base: nat, d: Dibit): (r: Snapshot)
    requires Inv(s) && s.ctl.state == SuperFrame
    requires base == 36 || base == 228 || base == 420 || base == 612
    requires base <= s.ctl.symbolIndex < base + 144 && s.ctl.symbolIndex + 1 < SuperFrameLength
    ensures Inv(r)
  {
    var si := s.ctl.symbolIndex;
    var t: nat := si - base;
    assert TchOffset(si) == t;
    assert InTch(si + 1) ==> TchOffset(si + 1) == t + 1;
    NextOffset(t);
    WithCursor(TCH(s, t, d), si + 1)
  }

  /** One symbol further into a traffic field is one further into its voice block, or the next block's start. */
  lemma NextOffset(t: nat)
    ensures (t + 1) % 36 == 0 || (t + 1) % 36 == t % 36 + 1
  {
  }

  /** The frame index incremented, as each symbol of the CC and FS2 fields does. */
  function NextFrame(s: Snapshot): Snapshot
  {
    s.(ctl := s.ctl.(frameIndex := s.ctl.frameIndex + 1))
  }

  /** processEndFrame: END0 and END1 (18 symbols each) pass, then every call asks for a resync. */
  function EndStep(s: Snapshot): (r: Snapshot)
    requires Inv(s) && s.ctl.state == End
    ensures Inv(r)
  {
    var si := s.ctl.symbolIndex;
    var s1 := if si == 0 then s.(ctl := s.ctl.(frameType := EndFrame)) else s;
    if si < 18 then WithCursor(s1, si + 1)
    else if si < 18 + 18 then WithCursor(s1, si + 1)
    else Resync(s1)
  }

  /** process(): one dibit, dispatched on the state. */
  function Step(s: Snapshot, d: Dibit): (r: Snapshot)
    requires Inv(s)
    ensures Inv(r)
  {
    match s.ctl.state
    case Header => HeaderStep(s, d)
    case PostFrame => PostFrameStep(s, d)
    case ExtSearch => ExtSearchStep(s, d)
    case SuperFrame => SuperFrameStep(s, d)
    case End => EndStep(s)
  }

  /** The decoder after process() has been called once per dibit of ds. */
  function Run(s: Snapshot, ds: seq<Dibit>): (r: Snapshot)
    requires Inv(s)
    ensures Inv(r)
  {
    if ds == [] then s else Step(Run(s, ds[..|ds| - 1]), ds[|ds| - 1])
  }
}
