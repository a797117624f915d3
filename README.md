# dPMR frame decoder and Viterbi codec, modelled in Dafny

This project models two parts of the DSDcc digital-speech decoder library.

**The dPMR frame decoder `DSDdPMR` (dpmr.cpp).** The decoder takes one dibit (0 .. 3) per call of
`process()` and moves between five states: Header, PostFrame, ExtSearch, SuperFrame and End.

- **Header.** It de-scrambles and de-interleaves the two 60-symbol header blocks HI0 and HI1.
  The 12-symbol colour-code field between them is read separately.
- **Header decode.** Each header block is Hamming(12,8) decoded and CRC8 checked. Then the header
  type, called and own identifiers, communication mode and format are extracted.
- **Sync.** It decides sync by exact comparison with the FS2, FS3 and preamble patterns. When it
  loses sync, it searches for FS2 in a doubled 24-entry window.
- **Voice.** It walks the superframe's control, traffic, colour-code and FS2 fields. The 36-dibit
  voice blocks are scattered into the 4 x 24 AMBE matrix and packed into the 9-byte DVSI frame.

The FEC helpers it calls are modelled on their own:
- the two de-interleavers;
- the 10-bit LFSR keystream;
- the CRC7 and CRC8 bit-serial division;
- the Hamming(12,8) syndrome decoder.

**The hard-decision Viterbi codec `Viterbi` (viterbi.cpp).**
- **Construction.** The constructor builds the branch-code table and the two-predecessor trellis
  from (k, n, generator polynomials).
- **`encodeToSymbols`.** Shifts data bits into the register and packs n parities per symbol.
- **`decodeFromSymbols`.** Runs add-compare-select over path metrics. In those metrics −1 means
  "unreachable" and the branch metrics are Hamming distances. It then traces back from the
  lowest-index best state.

Both components are modelled imperatively, as the source is written:
- classes (`DsdDpmr`, `Lfsr`, `Hamming`, `Viterbi`) whose fields and arrays the methods update;
- `for`/`while` loops with their invariants.

Each method is proved against a pure specification:
- **dPMR:** the `DpmrSpec` module gives one function per handler over a `Snapshot` of the decoder.
  The class methods ensure `View() == Step(old(View()), d)` and likewise for each handler.
- **Viterbi:** the `Trellis` module gives `Encode`, `Metrics`, `TraceBack` and `Decode` over
  sequences.

What the source promises is then proved about those specifications, in `DpmrProps` and
`TrellisProofs`. That includes:
- frame lengths and sync decisions;
- the voice-block packing;
- CRC error detection and de-interleaver bijectivity;
- the noiseless Viterbi round trip `Decode(c, Encode(c, bits, reg), reg / 2) == bits`.

Files:
- `bits.dfy`: bit sequences, powers of two, bitwise operations on naturals.
- `dpmr_tables.dfy`: the AMBE interleave schedule, the parity-check matrix, the de-interleavers.
- `dpmr_fec.dfy`: the LFSR, the CRC division, and the Hamming decoder (as corrected and as written).
- `dpmr_spec.dfy`, `dpmr.dfy`, `dpmr_props.dfy`: the decoder's specification, the class, and the properties.
- `viterbi_tables.dfy`, `viterbi_spec.dfy`, `viterbi.dfy`, `viterbi_proofs.dfy`: the codec's tables, specification, class, and proofs.

Where the code and the usual description of dPMR disagree, the model follows the code. The
superframe as coded is 756 symbols long (CCH0 TCH0 CC0 CCH1 TCH1 FS2 CCH2 TCH2 CC1 CCH3 TCH3
after the FS2 that PostFrame consumes), not 372. A voice frame is therefore handed over 16 times
per superframe (`DpmrProps.SixteenBlocks`).

## Model

| member | source | states |
|---|---|---|
| DpmrTables.HighTarget | dpmr.cpp:29-46 | the AMBE cell (rW[j], rX[j]) that bit 1 of voice dibit j goes to lies inside the 4 x 24 frame |
| DpmrTables.LowTarget | dpmr.cpp:48-64 | the AMBE cell (rY[j], rZ[j]) that bit 0 of voice dibit j goes to lies inside the 4 x 24 frame |
| DpmrTables.HighClosedForm | dpmr.cpp:29-46 | every entry of the rW and rX tables equals a closed-form row/column formula |
| DpmrTables.LowClosedForm | dpmr.cpp:48-64 | every entry of the rY and rZ tables equals a closed-form row/column formula |
| DpmrTables.VoiceTargetsInFrame | dpmr.cpp:29-64 | rW and rY are rows 0 .. 3 and rX and rZ are columns 0 .. 23 |
| DpmrTables.VoiceTargetsDistinct | dpmr.cpp:29-64 | the 72 targets of a voice block are pairwise distinct, so no scattered bit overwrites another |
| DpmrTables.DI72 | dpmr.cpp:628-631 | the 72-entry de-interleave index is in range |
| DpmrTables.DI120 | dpmr.cpp:633-636 | the 120-entry de-interleave index is in range |
| DpmrTables.UnDI72 | dpmr.cpp:628-631 | the inverse of the 72-entry de-interleaver is in range |
| DpmrTables.UnDI120 | dpmr.cpp:633-636 | the inverse of the 120-entry de-interleaver is in range |
| DpmrTables.DI72Inverse | dpmr.cpp:628-631 | UnDI72 undoes dI72 |
| DpmrTables.UnDI72Inverse | dpmr.cpp:628-631 | dI72 undoes UnDI72 |
| DpmrTables.DI72Bijective | dpmr.cpp:628-631 | dI72 is a bijection on 0 .. 71 (both directions) |
| DpmrTables.DI120Inverse | dpmr.cpp:633-636 | UnDI120 undoes dI120 |
| DpmrTables.UnDI120Inverse | dpmr.cpp:633-636 | dI120 undoes UnDI120 |
| DpmrTables.DI120Bijective | dpmr.cpp:633-636 | dI120 is a bijection on 0 .. 119 (both directions) |
| DpmrFec.LfsrStateNext | dpmr.cpp:704-714 | the register after n + 1 steps is one next() step after the register after n steps |
| DpmrFec.Keystream | dpmr.cpp:614-624 | the keystream is the LFSR output bit for each of the first n steps, n bits long |
| DpmrFec.KeystreamSnoc | dpmr.cpp:620-623 | one more next() call appends exactly the output of the current register |
| DpmrFec.ScrambleBits | dpmr.cpp:614-624 | the scrambling table is the 120-bit keystream from the all-ones register |
| DpmrFec.Lfsr.constructor | dpmr.cpp:690-693 | a new generator holds 0x3FF |
| DpmrFec.Lfsr.Init | dpmr.cpp:699-702 | init() sets the register to 0x3FF |
| DpmrFec.Lfsr.Next | dpmr.cpp:704-714 | next() returns bit 1 of the register before the call, advances it by one LFSR step, and keeps it below 0x400 |
| DpmrFec.NextAddsFeedback | dpmr.cpp:706-711 | the source's shift, mask and OR of the feedback bit equals the model's LFSR step |
| DpmrFec.LfsrNextBits | dpmr.cpp:704-714 | each step shifts bits 1 .. 9 down and inserts bit 5 XOR bit 1 at bit 9, staying below 0x400 |
| DpmrFec.LfsrShift | dpmr.cpp:704-714 | after m more steps a bit has moved m places down the register |
| DpmrFec.LfsrRecurrence | dpmr.cpp:704-714 | the output sequence obeys out[k] = out[k-5] XOR out[k-9] |
| DpmrFec.ScrambleBitsRecurrence | dpmr.cpp:614-624 | the 120 scrambling bits start with nine ones and then follow s[k] = s[k-5] XOR s[k-9] |
| DpmrFec.KeystreamRecurrence | dpmr.cpp:614-624 | the same recurrence for a keystream of any length from the all-ones register |
| DpmrFec.Crc8Step | dpmr.cpp:669-678 | one division step by x^8+x^2+x+1 clears bit i and flips bits i+6, i+7, i+8 when bit i is set |
| DpmrFec.Crc7Step | dpmr.cpp:644-652 | one division step by x^7+x^3+1 clears bit i and flips bits i+4, i+7 when bit i is set |
| DpmrFec.DivideComputesWindow | dpmr.cpp:641-652 | dividing the data with zeroed check space leaves zeros in front and the remainder in the check positions |
| DpmrFec.DivideStepWindow | dpmr.cpp:644-652 | one division step shifts the running remainder by one data bit and leaves later bits alone |
| DpmrFec.ShiftInLinear | dpmr.cpp:644-652 | one remainder step is linear over XOR |
| DpmrFec.CrcWindowLinear | dpmr.cpp:639-688 | the CRC remainder of an XOR of two inputs is the XOR of their remainders |
| DpmrFec.CrcDetectsSingleError | dpmr.cpp:654-661 | flipping any single data or check bit of a passing block makes the CRC check fail |
| DpmrFec.SyndromeLsbFirst | dpmr.cpp:736-750 | the syndrome as decode() computes it (check row 0 in the least significant bit) is below 16 |
| DpmrFec.SyndromeMsbFirst | dpmr.cpp:82-89 | the syndrome in the order the correction table is keyed (row 0 most significant) is below 16 |
| DpmrFec.SyndromesExpanded | dpmr.cpp:736-750 | the two syndromes are the four row checks weighted in opposite bit orders |
| DpmrFec.SingleErrorSyndrome | dpmr.cpp:70-76 | a valid codeword has syndrome 0 in both orders, and a single error in column j gives column j of H as syndrome |
| DpmrFec.CorrTableKeys | dpmr.cpp:78-90 | the table maps the (row 0 most significant) syndrome of each data column j < 8 to j; check columns 8 .. 11 have no entry in either bit order |
| DpmrFec.UncorrectableKeys | dpmr.cpp:81-89 | syndromes 1, 2, 4 and 8 have no table entry |
| DpmrFec.Corrected | dpmr.cpp:754-764 | correcting a codeword keeps its 12 bits |
| DpmrFec.CorrectedValid | dpmr.cpp:754 | a codeword with zero syndrome passes unchanged and is correctable |
| DpmrFec.CorrectsSingleError | dpmr.cpp:754-764 | a single error is corrected exactly when it hits a data bit; a check-bit error is reported uncorrectable and leaves the data intact |
| DpmrFec.DecodedData | dpmr.cpp:767 | the decoded output holds 8 bits per codeword |
| DpmrFec.CorrectedAll | dpmr.cpp:754-764 | the corrected receive buffer keeps its length |
| DpmrFec.AllCorrectableStep | dpmr.cpp:756-759 | the status stays true over one more codeword exactly when that codeword is correctable |
| DpmrFec.DecodeStep | dpmr.cpp:729-768 | one codeword's pass keeps the receive buffer's length and adds 8 decoded bits |
| DpmrFec.DecodeCorrected | dpmr.cpp:725-771 | decoding nb codewords yields 8 * nb data bits |
| DpmrFec.DecodeCorrectedMeaning | dpmr.cpp:725-771 | decoding equals correcting every codeword, copying its 8 data bits, and reporting whether all were correctable |
| DpmrFec.Hamming.constructor | dpmr.cpp:716-719 | the decoder's correction table is the table init() fills |
| DpmrFec.Hamming.Decode | dpmr.cpp:725-771 | decode() as written: the receive buffer, the decoded buffer (beyond 8 * nb unchanged) and the returned status are those of DecodeAsWritten |
| DpmrFec.Hamming.DecodeCodeword | dpmr.cpp:729-768 | one loop iteration extends the as-written decode from ic to ic + 1 codewords: flip, copy of the 8 data bits, status folded in |
| DpmrFec.Hamming.CorrectCodeword | dpmr.cpp:754-764 | when the syndrome (row 0 least significant) has a table entry, the buffer bit the entry names, counted from the buffer start, is flipped; the result is true iff the syndrome is zero or has an entry |
| DpmrFec.Hamming.Syndrome | dpmr.cpp:733-750 | the computed syndrome puts parity check i in bit i (SyndromeLsbFirst) |
| DpmrFec.RowDot | dpmr.cpp:738-749 | one row's sum of products with the codeword |
| DpmrFec.CopyData | dpmr.cpp:767 | the codeword's 8 data bits are copied to the output at 8 * ic and nothing else changes |
| DpmrFec.AsWrittenStep | dpmr.cpp:731-767 | one codeword as written adds 8 decoded bits and only ever changes bits 0 .. 7 of the buffer |
| DpmrFec.DecodeAsWritten | dpmr.cpp:725-771 | decode() as written never changes the buffer beyond bit 7 |
| DpmrFec.DecodeAsWrittenAccepts | dpmr.cpp:754-759 | decode() as written returns true exactly when every codeword's syndrome (row 0 least significant) is zero or in the table |
| DpmrFec.DecodeAsWrittenCopies | dpmr.cpp:767 | decode() as written copies the data bits of every codeword after the first as received |
| DpmrFec.AsWrittenRejectsCheckError | dpmr.cpp:81-89 | decode() as written rejects every single error in check columns 8 .. 11 of a valid codeword |
| DpmrFec.AsWrittenMiscorrects | dpmr.cpp:749-762 | as written, an error in bit 0 of the zero codeword decodes to data 11000000 reported correctable, while the corrected decoder yields zeros |
| DpmrFec.AsWrittenFlipsBitOne | dpmr.cpp:762 | as written, the codeword with only bit 0 set decodes to data 11000000 and is reported correctable |
| DpmrFec.FirstBitErrorSyndrome | dpmr.cpp:736-750 | an error in bit 0 of the zero codeword has syndrome 7 as computed, and the corrected decoder restores the zero codeword |
| DpmrFec.AsWrittenOneWord | dpmr.cpp:754-767 | as written, one codeword with syndrome 7 comes back with bit 1 flipped, its first 8 bits as data, reported correctable |
| DpmrFec.CorrectedOneWord | dpmr.cpp:754-767 | a codeword that corrects to zeros decodes to 8 zero bits |
| DpmrSpec.Initial | dpmr.cpp:92-109 | a new decoder is in Header with cursor 0 and frame index -1, and satisfies the invariant |
| DpmrSpec.Init | dpmr.cpp:115-119 | init() returns to Header at cursor 0, keeps the invariant, and leaves the received fields, buffers, host outputs and tables as they were |
| DpmrSpec.Resync | dpmr.cpp:177-181 | a resync adds exactly one resetFrameSync call |
| DpmrSpec.Signs | dpmr.cpp:259-268 | one sync sign per received dibit |
| DpmrSpec.HIn | dpmr.cpp:184-248 | a header symbol writes only the receive buffer (and, at symbol 59, the decoded buffer and header fields) |
| DpmrSpec.HeaderBlock | dpmr.cpp:189-247 | the block is decoded over 10 codewords by decode() as written (DecodeAsWritten), and the fields change only when CRC8 over 72 bits passes |
| DpmrSpec.Enumerate | dpmr.cpp:224-240 | a field code is the value when below its limit and Reserved otherwise |
| DpmrSpec.HeaderFields | dpmr.cpp:196-240 | the extracted identifiers stay 24-bit and the colour code is untouched |
| DpmrSpec.HeaderFieldsFromWords | dpmr.cpp:196-240 | ht, called, own, mode and format are read MSB first from their bit ranges; zero identifiers keep the stored ones; ht ≥ 9, mode ≥ 6, format ≥ 2 become Reserved |
| DpmrSpec.ColourCode | dpmr.cpp:468-486 | a colour-code symbol sets one colour bit, and the code changes only at symbol 11 |
| DpmrSpec.CCH | dpmr.cpp:522-548 | a control symbol writes the receive buffer and, only at symbol 35, the frame type |
| DpmrSpec.StoreSymbolDV | dpmr.cpp:599-612 | storing a DV dibit touches only the DVSI frame, and does nothing when the software vocoder is enabled |
| DpmrSpec.Voice | dpmr.cpp:562-597 | a voice symbol touches only the host outputs and advances the schedule cursor |
| DpmrSpec.VoicePlace | dpmr.cpp:569-583 | placing a voice dibit keeps the snapshot bounded |
| DpmrSpec.VoiceHandOver | dpmr.cpp:585-596 | the DV store and hand-over change only the host part |
| DpmrSpec.TCH | dpmr.cpp:550-560 | a traffic symbol is a voice symbol when the frame type is voice and changes nothing otherwise |
| DpmrSpec.FS2Field | dpmr.cpp:488-520 | an FS2 symbol stores its sign, and control changes only at symbol 11 |
| DpmrSpec.HeaderStep | dpmr.cpp:145-182 | the header handler keeps the invariant |
| DpmrSpec.HeaderField | dpmr.cpp:155-181 | the header field dispatch keeps the invariant |
| DpmrSpec.PostFrameDecide | dpmr.cpp:272-303 | the sync decision keeps the invariant |
| DpmrSpec.PostFrameStep | dpmr.cpp:250-313 | the post-frame handler keeps the invariant |
| DpmrSpec.ExtSearchStep | dpmr.cpp:315-360 | the search handler keeps the invariant, including the sync cycle in 0 .. 15 and the cursor in 0 .. 12 |
| DpmrSpec.SuperFrameStep | dpmr.cpp:362-443 | the superframe handler keeps the invariant |
| DpmrSpec.FirstHalf | dpmr.cpp:372-397 | the first 372 symbols' handler keeps the invariant |
| DpmrSpec.SecondHalf | dpmr.cpp:398-442 | the remaining fields' handler keeps the invariant |
| DpmrSpec.LastTraffic | dpmr.cpp:425-437 | the last traffic field and the end of the superframe keep the invariant |
| DpmrSpec.ControlField | dpmr.cpp:372-376 | a control-field symbol keeps the invariant |
| DpmrSpec.TrafficField | dpmr.cpp:377-381 | a traffic-field symbol keeps the invariant, including the voice schedule cursor |
| DpmrSpec.EndStep | dpmr.cpp:445-466 | the end-frame handler keeps the invariant |
| DpmrSpec.Step | dpmr.cpp:121-143 | process() keeps the invariant |
| DpmrSpec.Run | dpmr.cpp:121-143 | any number of process() calls keep the invariant |
| Dpmr.BuildScrambling | dpmr.cpp:614-624 | the loop fills the 120 scrambling bits with the keystream |
| Dpmr.BuildInterleaveIndexes | dpmr.cpp:626-637 | the loops fill the de-interleave tables with 12 * (i % 6) + i / 6 and 12 * (i % 10) + i / 10 |
| Dpmr.NewBuffers | dpmr.cpp:92-109 | the decoder's buffers are fresh, distinct and of the sizes their use needs |
| Dpmr.ReadHeaderWords | dpmr.cpp:196-205 | ht, mode, format and both identifiers are the MSB-first values of their bit ranges |
| Dpmr.ReadIds | dpmr.cpp:199-205 | the identifier loop accumulates bits 4 .. 27 and 28 .. 51 MSB first |
| Dpmr.TakeHeaderFields | dpmr.cpp:196-240 | the stored header fields become HeaderFields of the decoded bits |
| Dpmr.ReadColourCode | dpmr.cpp:474-482 | the colour code is the 12 colour bits read MSB first, below 4096 |
| Dpmr.DsdDpmr.constructor | dpmr.cpp:92-109 | a new decoder's state is Initial |
| Dpmr.DsdDpmr.Init | dpmr.cpp:115-119 | init() performs DpmrSpec.Init |
| Dpmr.DsdDpmr.Resync | dpmr.cpp:438-442 | a resync counts one resetFrameSync call |
| Dpmr.DsdDpmr.Process | dpmr.cpp:121-143 | process() performs Step on the decoder's state |
| Dpmr.DsdDpmr.ProcessHeader | dpmr.cpp:145-182 | processHeader() performs HeaderStep |
| Dpmr.DsdDpmr.HeaderSymbol | dpmr.cpp:155-181 | the header field dispatch performs HeaderField |
| Dpmr.DsdDpmr.ProcessPostFrame | dpmr.cpp:250-313 | processPostFrame() performs PostFrameStep |
| Dpmr.DsdDpmr.DecidePostFrame | dpmr.cpp:272-303 | the post-frame sync decision performs PostFrameDecide |
| Dpmr.DsdDpmr.ProcessExtSearch | dpmr.cpp:315-360 | processExtSearch() performs ExtSearchStep |
| Dpmr.DsdDpmr.StoreSyncSign | dpmr.cpp:356-357 | the search stores the sign at i and i + 12 and changes nothing else |
| Dpmr.DsdDpmr.ProcessSuperFrame | dpmr.cpp:362-443 | processSuperFrame() performs SuperFrameStep |
| Dpmr.DsdDpmr.SuperFirstHalf | dpmr.cpp:372-397 | the first half of the field dispatch performs FirstHalf |
| Dpmr.DsdDpmr.SuperSecondHalf | dpmr.cpp:398-442 | the second half of the field dispatch performs SecondHalf |
| Dpmr.DsdDpmr.SuperLastTraffic | dpmr.cpp:425-437 | the last traffic field performs LastTraffic |
| Dpmr.DsdDpmr.SuperControl | dpmr.cpp:372-376 | a control field symbol is CCH at its offset, then a cursor step |
| Dpmr.DsdDpmr.SuperTraffic | dpmr.cpp:377-381 | a traffic field symbol is TCH at its offset, then a cursor step |
| Dpmr.DsdDpmr.SuperColour | dpmr.cpp:382-387 | a colour field symbol bumps the frame index, runs ColourCode, then steps the cursor |
| Dpmr.DsdDpmr.SuperSync | dpmr.cpp:398-403 | an FS2 field symbol bumps the frame index, runs FS2Field, then steps the cursor |
| Dpmr.DsdDpmr.ProcessEndFrame | dpmr.cpp:445-466 | processEndFrame() performs EndStep |
| Dpmr.DsdDpmr.ProcessHIn | dpmr.cpp:184-248 | processHIn() performs HIn |
| Dpmr.DsdDpmr.ProcessHeaderBlock | dpmr.cpp:189-247 | the end-of-block decode performs HeaderBlock, calling the Hamming decoder as written |
| Dpmr.DsdDpmr.CheckCrc8 | dpmr.cpp:664-688 | returns true iff bits[n .. n+8] equal the CRC8 remainder of bits[0 .. n]; the work buffer ends with zeros then that remainder; bits is not modified |
| Dpmr.DsdDpmr.CheckCrc7 | dpmr.cpp:639-662 | returns true iff bits[n .. n+7] equal the CRC7 remainder of bits[0 .. n]; the work buffer ends with zeros then that remainder; bits is not modified |
| Dpmr.DsdDpmr.ProcessColourCode | dpmr.cpp:468-486 | processColourCode() performs ColourCode |
| Dpmr.DsdDpmr.ProcessCCH | dpmr.cpp:522-548 | processCCH() performs CCH |
| Dpmr.DsdDpmr.ProcessFS2 | dpmr.cpp:488-520 | processFS2() performs FS2Field |
| Dpmr.DsdDpmr.ProcessTCH | dpmr.cpp:550-560 | processTCH() performs TCH |
| Dpmr.DsdDpmr.ProcessVoiceFrame | dpmr.cpp:562-597 | processVoiceFrame() performs Voice |
| Dpmr.DsdDpmr.PlaceVoiceDibit | dpmr.cpp:569-583 | the block reset and the AMBE writes perform VoicePlace |
| Dpmr.DsdDpmr.ClearDvFrame | dpmr.cpp:575 | the DVSI frame becomes 9 zero bytes and nothing else changes |
| Dpmr.DsdDpmr.WriteAmbe | dpmr.cpp:578-579 | the dibit's high bit goes to cell HighTarget(c) and its low bit to LowTarget(c) |
| Dpmr.DsdDpmr.StoreSymbolDV | dpmr.cpp:599-612 | storeSymbolDV() performs DpmrSpec.StoreSymbolDV |
| DpmrProps.RunLast | dpmr.cpp:121-143 | running a sequence is running all but its last dibit, then one step |
| DpmrProps.HeaderStepFacts | dpmr.cpp:145-182 | one header symbol: the frame type at 0, the cursor step, the move to PostFrame at 132, the colour bit and code |
| DpmrProps.HeaderRun | dpmr.cpp:145-182 | from Header at cursor 0, exactly 132 calls reach PostFrame with cursor 0 and frame index 0, with no resync |
| DpmrProps.HeaderColourRun | dpmr.cpp:160-164 | header symbols 60 .. 71 fill the colour buffer with their sign bits |
| DpmrProps.HeaderColourSet | dpmr.cpp:472-482 | at symbol 71 the colour code becomes the 12 sign bits read MSB first |
| DpmrProps.HeaderColourCode | dpmr.cpp:468-486 | after the colour field the colour code is that of dibits 60 .. 71 for the rest of the header |
| DpmrProps.HeaderColourKept | dpmr.cpp:165-176 | header symbols after 71 leave the colour code unchanged |
| DpmrProps.EndRun | dpmr.cpp:445-460 | the end frame consumes 36 calls without resync |
| DpmrProps.EndRunResync | dpmr.cpp:461-465 | every call after the 36th resyncs and sets no frame |
| DpmrProps.EndStepFacts | dpmr.cpp:445-466 | one end-frame symbol: frame type, cursor step or resync |
| DpmrProps.BlocksDone | dpmr.cpp:587-591 | at most 16 voice blocks end in one superframe |
| DpmrProps.BlocksDoneStep | dpmr.cpp:587-591 | a voice block ends exactly at offset 35 of a 36-symbol block inside a traffic field |
| DpmrProps.ControlFieldFacts | dpmr.cpp:522-548 | a control symbol advances the cursor and sets the voice frame type at its symbol 35 |
| DpmrProps.TrafficFieldFacts | dpmr.cpp:550-560 | a traffic symbol advances the cursor and counts a voice hand-over at the end of a voice block |
| DpmrProps.ColourFieldFacts | dpmr.cpp:382-387 | a colour symbol advances the cursor and touches neither the host nor the sync buffer |
| DpmrProps.FirstHalfFacts | dpmr.cpp:372-397 | one symbol of the first 372: cursor step, voice frame type after each CCH, voice hand-over count |
| DpmrProps.SecondHalfFacts | dpmr.cpp:398-442 | one symbol of the rest: FS2 storage, payload frame at FS2 symbol 11, PostFrame with no frame after symbol 755 |
| DpmrProps.SuperStepFacts | dpmr.cpp:362-443 | one superframe symbol, summarising both halves |
| DpmrProps.SuperFrameRun | dpmr.cpp:362-443 | when FS2 matches at symbols 372 .. 383, the superframe stays in SuperFrame with every traffic symbol in voice mode and returns to PostFrame, cursor 0, no frame, after exactly 756 calls, with no resync |
| DpmrProps.SuperVoiceRun | dpmr.cpp:587-591 | during a superframe the voice hand-over count grows by the voice blocks completed |
| DpmrProps.SuperSyncRun | dpmr.cpp:488-497 | the FS2 field stores the signs of its dibits in the sync buffer |
| DpmrProps.FS2BeforeDecision | dpmr.cpp:499-505 | when FS2's dibits match, the buffer compared at FS2 symbol 11 equals FS2 |
| DpmrProps.SixteenBlocks | dpmr.cpp:587-591 | 16 voice frames are handed over per superframe |
| DpmrProps.PostFrameStepFacts | dpmr.cpp:259-270 | one of the first 11 post-frame symbols stores its sign and steps the cursor |
| DpmrProps.PostFrameSyncRun | dpmr.cpp:259-270 | the first 11 post-frame symbols fill the sync buffer with their signs |
| DpmrProps.PostFrameDecision | dpmr.cpp:272-303 | after 12 symbols: FS2 → SuperFrame, FS3 → End, a preamble prefix at offset 0 .. 3 → resync, otherwise ExtSearch with cycle 0 |
| DpmrProps.SuperSyncDivert | dpmr.cpp:398-403 | a mismatching FS2 field moves to End (FS3) or ExtSearch with the cursor left at 1 |
| DpmrProps.WrapWindow | dpmr.cpp:356-357 | a fully mirrored sync buffer has equal halves |
| DpmrProps.MirrorGrows | dpmr.cpp:356-357 | storing at i and i + 12 extends the mirrored prefix |
| DpmrProps.MirrorSlides | dpmr.cpp:356-357 | storing into a full mirror slides the compared window by one symbol |
| DpmrProps.ExtStoreFacts | dpmr.cpp:319-359 | a search symbol that finds no pattern stores its sign twice and advances cursor and cycle |
| DpmrProps.ExtStoreStep | dpmr.cpp:315-360 | a search symbol stores its sign at slot i and i + 12; the mirrored prefix grows, and once the buffer is fully mirrored the compared window slides by one and ends with the new sign |
| DpmrProps.ExtSearchGrow | dpmr.cpp:315-360 | one stored search symbol extends the filling of the sync buffer: the signs so far before 12 symbols, the last 12 signs as the window after |
| DpmrProps.ExtSearchRun | dpmr.cpp:315-360 | from ExtSearch entry at cursor 0, while neither FS2 nor the preamble matches, the search stays in ExtSearch with the host untouched, and once 12 symbols are in the compared window holds the last 12 signs in arrival order |
| DpmrProps.ExtFindsFS2 | dpmr.cpp:336-345 | an FS2 match enters SuperFrame and handles the same symbol there, leaving the cursor at 1 |
| DpmrProps.ExtFindsPreamble | dpmr.cpp:347-352 | a preamble match resyncs, sets no frame and stores nothing |
| DpmrProps.VoiceBlock | dpmr.cpp:562-597 | a voice block keeps the snapshot bounded and the schedule cursor counts its dibits |
| DpmrProps.PlaceFacts | dpmr.cpp:569-583 | placing dibit j clears the DVSI frame at j = 0 and writes its two bits to their AMBE cells |
| DpmrProps.HandOverFacts | dpmr.cpp:585-591 | the DV store packs the dibit, and a hand-over is counted at j = 35 |
| DpmrProps.PackOne | dpmr.cpp:611 | OR-ing a dibit into its position appends it to the byte in base 4 |
| DpmrProps.PackedStep | dpmr.cpp:611 | a DV dibit changes only byte j / 4 |
| DpmrProps.DvPackedStep | dpmr.cpp:599-612 | storing dibit j keeps byte b equal to the base-4 number of dibits 4b .. stored so far |
| DpmrProps.ScatterStep | dpmr.cpp:578-583 | writing dibit j keeps every earlier dibit's two bits at their cells |
| DpmrProps.VoiceScatterRun | dpmr.cpp:569-583 | after a voice block every dibit's two bits sit at their schedule cells |
| DpmrProps.VoiceDvRun | dpmr.cpp:575-611 | after a voice block the DVSI frame is the packed dibits, or zeros when the software vocoder is enabled |
| DpmrProps.VoiceCountRun | dpmr.cpp:587-591 | a voice block hands over exactly one frame, at its 36th dibit |
| DpmrProps.Base4Four | dpmr.cpp:611 | four dibits packed MSB first make the byte d0·64 + d1·16 + d2·4 + d3 |
| DpmrProps.VoiceBlockDone | dpmr.cpp:562-612 | a complete voice block: all bits scattered, DV byte b = DvByte of dibits 4b .. 4b+3, one frame handed over |
| DpmrProps.TchVoiceStep | dpmr.cpp:550-560 | in a voice frame, a traffic symbol is processVoiceFrame at offset mod 36 with the schedule cursor in step |
| DpmrProps.TchInHalf | dpmr.cpp:550-560 | the same, for the traffic symbol inside the half that handles it |
| ViterbiTables.ParityTable | viterbi.cpp:32-65 | the parity table, generated as the parity of each index, has 256 entries |
| ViterbiTables.CountTable | viterbi.cpp:76-109 | the set-bit count table, generated as the popcount of each index, has 256 entries |
| ViterbiTables.NbOnesBounds | viterbi.cpp:76-109 | NbOnes[x] ≤ 8, and it is 0 exactly for x = 0 |
| ViterbiTables.PartabIsNbOnesParity | viterbi.cpp:32-109 | Partab[x] = NbOnes[x] mod 2 |
| ViterbiTables.PolySetsUseTopBit | viterbi.cpp:25-30 | every polynomial set has a first polynomial with bit k-1 set, the condition of the round trip |
| Trellis.Outputs | viterbi.cpp:220-223 | the register gives n parity outputs |
| Trellis.Encode | viterbi.cpp:206-227 | encoding writes exactly one symbol per input bit |
| Trellis.BranchMetricZero | viterbi.cpp:293 | a branch metric is at most 8 and is 0 exactly when the branch symbol equals the received one |
| Trellis.SelectSurvives | viterbi.cpp:340-364 | the survivor is A or B; it is −1 iff both predecessors are −1; it is no worse than any reachable predecessor; equal metrics go to B only on a smaller branch metric |
| Trellis.InitialMetrics | viterbi.cpp:273-274 | the initial metric row has one entry per state |
| Trellis.Survivors | viterbi.cpp:285-401 | one survivor per state |
| Trellis.SurvivorsAt | viterbi.cpp:285-401 | survivor t is the add-compare-select for state t |
| Trellis.NextMetrics | viterbi.cpp:368 | the next metric row has one entry per state |
| Trellis.NextDecisions | viterbi.cpp:369 | the decision row has one entry per state |
| Trellis.NextAt | viterbi.cpp:366-387 | the next metric and the packed decision for state t are those of its survivor |
| Trellis.Metrics | viterbi.cpp:279-402 | every metric row has one entry per state |
| Trellis.DecisionBelow | viterbi.cpp:369-386 | a stored decision names a predecessor state inside the trellis |
| Trellis.Scan | viterbi.cpp:371-375 | the running minimum never exceeds INT_MAX and its index is a state (or 0) |
| Trellis.DecisionTable | viterbi.cpp:369-386 | one decision row per symbol |
| Trellis.Walk | viterbi.cpp:404-417 | a walk back over i rows yields i values, each 0 or 1 |
| Trellis.TraceBack | viterbi.cpp:404-417 | the traceback yields one bit (0 or 1) per symbol |
| Trellis.Decode | viterbi.cpp:250-418 | decoding yields one bit (0 or 1) per symbol |
| ViterbiCodec.KeepBest | viterbi.cpp:371-375 | updating the running minimum with one more metric is the scan of the longer row |
| ViterbiCodec.DecisionRowsInRange | viterbi.cpp:369-386 | a filled traceback buffer holds exactly the decisions, each naming a state |
| ViterbiCodec.FollowIsTraceBack | viterbi.cpp:404-417 | the walk back through the traceback buffer equals TraceBack |
| ViterbiCodec.DecodeEndsIn | viterbi.cpp:406 | decoding traces back from the first best final state |
| ViterbiCodec.FollowIsWalk | viterbi.cpp:404-417 | walking the buffer is walking the decision table it holds |
| ViterbiCodec.FollowStep | viterbi.cpp:415-416 | one traceback step unpacks the bit and the predecessor from the stored byte |
| ViterbiCodec.EncodeSnoc | viterbi.cpp:215-226 | encoding one more bit appends one symbol from the shifted register |
| ViterbiCodec.EmptyInputOverrunsAsWritten | viterbi.cpp:263-274 | as written, an empty input to a new decoder resets S metrics in a buffer of 0 entries |
| ViterbiCodec.MetricsCapacityCoversReset | viterbi.cpp:257-274 | that buffer always has room for the reset row and for nbSymbols + 1 rows |
| ViterbiCodec.CapacityCovers | viterbi.cpp:257-270 | buffers sized for the longest input also fit a shorter one |
| ViterbiCodec.Viterbi.constructor | viterbi.cpp:112-129 | a new codec holds its parameters, tables filled, no symbols reserved |
| ViterbiCodec.Viterbi.InitCodes | viterbi.cpp:148-159 | branchCodes[i] is the symbol of encoding bit i mod 2 from register (i >> 1) << 1 |
| ViterbiCodec.Viterbi.InitTreillis | viterbi.cpp:161-204 | every state gets predecessors 2·(t mod 2^(k-2)) and that + 1, both with bit t div 2^(k-2) |
| ViterbiCodec.Viterbi.AddBranch | viterbi.cpp:168-201 | adding the branch from s fills the first free slot of its next state, never reaching the error branch |
| ViterbiCodec.Viterbi.EncodeToSymbols | viterbi.cpp:206-227 | the output is Encode of the input bits from the start register |
| ViterbiCodec.Viterbi.SymbolFor | viterbi.cpp:218-223 | the packed parities of a register are its symbol |
| ViterbiCodec.Viterbi.PathThrough | viterbi.cpp:287-321 | one path's branch metric and path metric (−1 for an unreachable predecessor) |
| ViterbiCodec.Viterbi.AddCompareSelect | viterbi.cpp:285-400 | the new metric and packed decision for state t are those of Select |
| ViterbiCodec.Viterbi.ResetMetrics | viterbi.cpp:272-274 | metric row 0 holds 0 at the start state and −1 elsewhere |
| ViterbiCodec.Viterbi.Survive | viterbi.cpp:366-400 | storing state ib's survivor extends both rows by one entry and leaves earlier rows alone |
| ViterbiCodec.Viterbi.ForwardRow | viterbi.cpp:281-401 | one symbol fills the next metric row and the decision row and returns the first best state |
| ViterbiCodec.Viterbi.TraceBackInto | viterbi.cpp:404-417 | the output holds the walk back from the final state, and nothing past nbSymbols changes |
| ViterbiCodec.Viterbi.Forward | viterbi.cpp:272-402 | the traceback buffer holds every decision row, and the returned state is the first best of the last metrics |
| ViterbiCodec.Viterbi.DecodeFromSymbols | viterbi.cpp:250-418 | the output is Decode of the symbols, every output byte is 0 or 1, m_nbSymbolsMax becomes max(old, nbSymbols), and the buffers are replaced only when growing |
| ViterbiCodec.Viterbi.Reserve | viterbi.cpp:257-270 | the buffers are reallocated for nbSymbols symbols |
| ViterbiCodec.Viterbi.DecodeInto | viterbi.cpp:272-417 | with room already reserved, the output is Decode of the symbols |
| TrellisProofs.PackSymbolBit | viterbi.cpp:220-223 | symbol bit (msbFirst ? n-1-j : j) holds output j, and the symbol is below 2^n |
| TrellisProofs.SymbolBit | viterbi.cpp:217-223 | every symbol bit is the parity of the register and its polynomial |
| TrellisProofs.TopBitChangesSymbol | viterbi.cpp:217-223 | with a polynomial using bit k-1, the two branches out of a state have different symbols |
| TrellisProofs.EncodeAt | viterbi.cpp:215-226 | symbol j is the symbol of the register after bit j |
| TrellisProofs.RegisterStep | viterbi.cpp:217 | the register shifts right and takes the bit at k-1; it stays below 2^k and its upper part is the next trellis state |
| TrellisProofs.NextStateIff | viterbi.cpp:161-204 | t is the next state of s on bit b iff s is one of t's predecessors and b is t's branch bit |
| TrellisProofs.PredecessorsAreStates | viterbi.cpp:161-204 | both predecessors are distinct states that lead to t |
| TrellisProofs.BranchCodeIsEdgeSymbol | viterbi.cpp:148-159 | branchCodes[2p + b] is the symbol of register p + b·2^(k-1) |
| TrellisProofs.EncodeOne | viterbi.cpp:148-159 | encoding one bit gives the symbol of the shifted register |
| TrellisProofs.ScanFindsUniqueZero | viterbi.cpp:371-375 | when exactly one metric is 0 and the rest −1 or positive, the scan picks that state |
| TrellisProofs.ScanIsFirstMinimum | viterbi.cpp:371-392 | the scan returns the smallest non-negative metric and the lowest index holding it |
| TrellisProofs.TruePath | viterbi.cpp:215-217 | the encoder's register follows the trellis states of the input |
| TrellisProofs.TrueSymbol | viterbi.cpp:215-223 | each transmitted symbol is the branch code of the true state and bit |
| TrellisProofs.EdgeSymbolsDiffer | viterbi.cpp:148-159 | for decodable codes the two branches out of a state have different codes |
| TrellisProofs.OnlyBranchMatches | viterbi.cpp:293-311 | only the transmitted branch has branch metric 0 |
| TrellisProofs.TrueBranchMetric | viterbi.cpp:293-311 | at the true state, the branch metric is 0 exactly for the true bit |
| TrellisProofs.MetricStep | viterbi.cpp:285-400 | after a noiseless symbol, only the next true state has metric 0, no metric is below −1, and its decision names the true predecessor and bit |
| TrellisProofs.MetricAt | viterbi.cpp:285-400 | the same for one entry of the next metric row |
| TrellisProofs.MetricsTrackStep | viterbi.cpp:279-402 | "only the true state has metric 0" is kept from one row to the next |
| TrellisProofs.MetricsTrackTrueState | viterbi.cpp:272-402 | after every prefix of a noiseless input, the true state is the unique metric-0 state |
| TrellisProofs.TrueDecision | viterbi.cpp:366-392 | the decision stored at the true state packs the true predecessor and bit |
| TrellisProofs.TraceBackFollows | viterbi.cpp:415-416 | a traceback step appends the stored bit and continues from the stored predecessor |
| TrellisProofs.TraceBackTruePath | viterbi.cpp:404-417 | tracing back from the true state returns the input prefix |
| TrellisProofs.TraceBackTrueStep | viterbi.cpp:404-417 | the same, extended by one symbol |
| TrellisProofs.RoundTrip | viterbi.cpp:206-418 | decoding, from state reg >> 1, the encoding of bits from register reg returns bits exactly |

## Left out

- **Host coupling.** `getDibit()` becomes the dibit parameter of `Process` and of each handler.
  - `resetFrameSync()` is counted in `Host.resyncs`.
  - The external AMBE vocoder `m_mbeDecoder.processFrame` and the `m_mbeDVReady` flag are counted together in `Host.voiceFrames`. The vocoder itself is external code.
  - `m_mbelibEnable` is a constructor argument.
- **Logging.** The logger, `std::cerr` and `std::cout` output (including the `errorbars` option) are purely diagnostic.
- **`DSDSymbol::invert_dibit`.** dsd_symbol is not part of this model. `processVoiceFrame` always calls `storeSymbolDV` with inversion off, so that branch is never taken.
- **`process()`'s default branch.** It is unreachable: the state is one of the five enumerated values.
- **CCH decode.** The Hamming and CRC7 decode of the control channel is commented out in `processCCH`, so only its frame-type effect is modelled. `checkCRC7` is still modelled on its own (`CheckCrc7`).
- **Buffers without an initial value.** The constructor leaves its buffers and header fields unset. They are modelled as zero, and the header fields as `Unset`.
- **Buffer sizes.** dpmr.h is not part of this model. The sizes come from their use:
  - receive buffer 120;
  - decoded buffer 80;
  - CRC work buffer 88;
  - sync buffer 24;
  - AMBE frame 4 x 24, row-major;
  - DVSI frame 9.
- **The w, x, y, z cursors.** They always advance together, so they are one offset, `voiceCursor`, into RW, RX, RY and RZ.
- **The scrambling generator.** `m_scramblingGenerator` is used only during construction, so it is local to `BuildScrambling`.
- **ExtSearch entering the superframe.** On an FS2 match, `processExtSearch` calls `processSuperFrame`, which reads the current dibit again from the host. The model hands it the same dibit.
- **Integer widths.** C `int` and `unsigned` overflow cannot occur at the sizes used (24-bit identifiers, 12-bit colour code, registers of at most k ≤ 8 bits). Values are unbounded integers.
- **Partab and NbOnes.** They are defined by their generating formula (parity and popcount of the index), not as 256 literals. The two agree entry for entry, but checking 256 literal entries is beyond the solver's limits.
- **`parity()` is declared in viterbi.h, which is not part of this model.** It is modelled as the popcount modulo 2, matching Partab.
- **`Viterbi::encodeToBits`.** Its loop increments `nbBits` instead of `i`, so it never terminates and writes past its output. It is not modelled.
- **The constructor's error output in `initTreillis`.** `AddBranch` proves every state receives exactly two branches, so the error branches are never taken.
- **Memory management.** `new`, `delete[]` and `memset` become fresh Dafny arrays and explicit writes.
- **Out-of-range reads.** `Follow` and `Walk` read entries outside the filled buffer as 0. This never happens for a buffer that the decoder filled (`DecisionRowsInRange`).
- **`Dpmr.ReadIds`.** This part of `processHIn`'s field read is split out as its own loop method. The loop is the same.
- **`DpmrFec.LfsrNext`.** It writes the feedback insertion with `+` where the source uses `|`. `NextAddsFeedback` proves the two equal.
- **`m_frameIndex`.** It is modelled; nothing reads it.
- **`ViterbiCodec.Viterbi.ForwardRow`.** It starts each row's scan with index 0. The source declares `minPathIndex` once, leaves it uninitialised, and assigns it only on a strict improvement (viterbi.cpp:276, 370-374, 387-391). The two agree whenever every row has a state with a metric in 0 .. INT_MAX - 1. That holds from a valid start state, since the successors of a reachable state are reachable, but it is not proved here.
- **`ViterbiCodec.Viterbi.DecodeFromSymbols`.** It requires `startstate` to be a trellis state. The source accepts any value: row 0 is then all −1, and the traceback starts from the uninitialised `minPathIndex`, which is undefined behaviour that the model does not describe.
- **`ViterbiCodec.Viterbi.constructor`.** It allocates one row of path metrics, which the source does not. See Findings: without it, an empty first input writes through the unallocated (null) m_pathMetrics.

## Findings

| source | as written | input that shows it | evidently intended | confidence | as-written member | corrected member |
|---|---|---|---|---|---|---|
| dpmr.cpp:736-762 | The syndrome puts check row 0 in the least significant bit, but `m_corr` is keyed with row 0 most significant. The flip `rxBits[m_corr[s]]` also lacks the `12*ic` codeword offset. | Codeword 100000000000 (an error in data bit 0 of the zero codeword) has syndrome 7. `m_corr[7]` = 1, so bit 1 is flipped: data 11000000 are returned, reported correctable. | Read the syndrome in the table's bit order and flip inside the current codeword. Every single data-bit error is then corrected, and every check-bit error is reported. | not executed | DpmrFec.AsWrittenMiscorrects | DpmrFec.CorrectsSingleError |
| viterbi.cpp:257-274 | Buffers are allocated only when `nbSymbols > m_nbSymbolsMax`, and the constructor sets `m_pathMetrics = 0`. | `decodeFromSymbols(out, in, 0, 0)` on a new decoder: no allocation happens, and `memset`/`m_pathMetrics[startstate] = 0` write through the unallocated (null) buffer. | The path-metric buffer always has room for the reset row. | not executed | ViterbiCodec.EmptyInputOverrunsAsWritten | ViterbiCodec.MetricsCapacityCoversReset |
