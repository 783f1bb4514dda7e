# SIS3302 record decoder and ORCA byte-order utilities in Dafny

This project models two pieces of the ORCA data reader.

1. **The SIS3302 record decoder** (`ORSIS3302Decoder`). A digitizer record is
   a sequence of 32-bit words. It starts with the 4-word ORCA envelope:
   - bit 0 of word 1 selects wrap (extended pre-trigger) mode;
   - word 2 is the waveform length in words;
   - word 3 is the energy-waveform length in words.

   Then come:
   - a buffer header of 2 words, or 4 in wrap mode;
   - the waveform segment, 16-bit samples packed two per word;
   - the energy-waveform segment;
   - a 4-word trailer: energy max, energy initial, flags and the sentinel
     `0xDEADBEEF`.

   The decoder locates each segment by offset arithmetic and extracts the
   bit-packed fields (board id, channel, timestamp parts, flag bits) by
   masks and shifts. An event view forwards these values for the single
   event a record carries.
2. **The byte-order utilities** (`ORUtils`): the 16-, 32- and 64-bit
   in-place byte swaps and the host-endianness predicates.

## How the model is built

Modules:
- `Bits`: bit predicates and `WordValue`, the unsigned value of a 32-bit
  word as a natural number, summed bit by bit.
- `ORUtils`: the endianness predicates, byte lanes, `Swap16`/`Swap32`/`Swap64`,
  their in-place method wrappers and `BitConcat`.
- `SIS3302Decoder`: the record layout and the field accessors.
- `SIS3302Record`: the writer's side of the format. `Assemble` lays
  `RecordParts` end to end and `Disassemble` reads them back with the
  decoder's accessors. Disassembling an assembled record gives back every
  part when the parts are well formed (header length matching the mode
  bit, segment lengths matching words 2 and 3, word 2 below 2^31).
  Assembling the parts read from any record that holds its trailer gives
  back the record up to the end of its trailer. This writer is the
  independent reference against which the layout arithmetic is checked.

Modelling choices:
- The decoder's member `fDataRecord` becomes an explicit `Record`
  (`seq<bv32>`) argument.
- Pointers into the record become indices into that sequence.
- The decoder never checks the record length, so each accessor states
  the length it needs as a precondition. The trailer accessors, the flag
  predicates, the fast-trigger counter and the event energy and flags
  require the whole four-word trailer (`TrailerInRecord`), as the format
  lays it out. That is more than GetEnergyMax, GetEnergyInitial and
  GetFlags read, since each of them reads a single trailer word. Every
  other accessor requires exactly the highest word it reads.
- `GetEnergyWaveformLen` is the value of word 3 as a natural number and
  carries no contract of its own. What it means is stated where it is
  used: `GetTrailerOffset` and `SegmentOrder` place the energy segment by
  it, and `SIS3302Record.AssembledLengths` shows that it reports the
  length of the energy segment written.
- All record words are bit-vectors, so the 32-bit unsigned arithmetic the
  source does on words is kept as written. Offsets are natural numbers:
  the `size_t` sums of the source are taken not to wrap, which holds for
  a 64-bit `size_t` (see "Left out"). In particular the waveform length `word[2]*2`
  is a 32-bit product. For a word count of 2^31 or more it wraps, so
  `GetWaveformLen/2` is the word count modulo 2^31.
  `SIS3302Decoder.WaveformLenHalfExact` states when the two agree.
  `SIS3302Record.WrappedWaveformLength` shows a record that announces 2^31
  waveform words but is laid out, and passes the integrity check, as one
  with no waveform at all.
- The compile-time macro `ORBIG_ENDIAN_MACHINE` becomes a boolean
  parameter `bigEndianMachine`, so every statement covers both builds.

## Model

| member | source | states |
|---|---|---|
| ORUtils.SysIsLittleEndian | Util/ORUtils.hh:10-17 | true exactly on a build without ORBIG_ENDIAN_MACHINE defined |
| ORUtils.SysIsNotLittleEndian | Util/ORUtils.hh:10-18 | is the negation of SysIsLittleEndian, and is true exactly on a build with ORBIG_ENDIAN_MACHINE defined |
| ORUtils.Swap16 | Util/ORUtils.hh:19-21 | byte 0 of the result is byte 1 of the argument and byte 1 is byte 0 |
| ORUtils.Swap32 | Util/ORUtils.hh:22-28 | byte i of the result is byte 3 - i of the argument, for every i < 4 |
| ORUtils.Swap64 | Util/ORUtils.hh:29-38 | byte i of the result is byte 7 - i of the argument, for every i < 8 |
| ORUtils.SwapInvolution | Util/ORUtils.hh:19-38 | swapping twice gives back the original value at 16, 32 and 64 bits |
| ORUtils.SwapExamples | Util/ORUtils.hh:19-38 | 0x1234 swaps to 0x3412, 0x12345678 to 0x78563412, and 0x0123456789abcdef to 0xefcdab8967452301 |
| ORUtils.SwapInPlace16 | Util/ORUtils.hh:19-21 | the argument's cell holds the byte-swapped old value afterwards, every other cell is unchanged, and the returned reference designates that same cell |
| ORUtils.SwapInPlace32 | Util/ORUtils.hh:22-28 | the argument's cell holds the byte-swapped old value afterwards, every other cell is unchanged, and the returned reference designates that same cell |
| ORUtils.SwapInPlace64 | Util/ORUtils.hh:29-38 | the argument's cell holds the byte-swapped old value afterwards, every other cell is unchanged, and the returned reference designates that same cell |
| ORUtils.NormaliseNativeLoad32 | Util/ORUtils.hh:10-28 | applying Swap exactly when SysIsNotLittleEndian holds turns a native load into the little-endian value of the bytes, on either build |
| ORUtils.BitConcat | Decoders/ORSIS3302Decoder.hh:8 | the three 16-bit chunks occupy the lanes 0-15, 16-31 and 32-47 in argument order and the top 16 bits are clear (assumed placement) |
| ORUtils.BitConcatExample | Decoders/ORSIS3302Decoder.hh:8 | chunks 0x1234, 0x5678, 0x0009 concatenate to 0x000956781234 under the assumed placement |
| SIS3302Decoder.IsBufferWrapEnabled | Decoders/ORSIS3302Decoder.hh:36-37 | wrap mode is on exactly when the value of record word 1 is odd |
| SIS3302Decoder.GetBufHeadLen | Decoders/ORSIS3302Decoder.hh:39-44 | the header length is 2 or 4, and it is 4 exactly when bit 0 of word 1 is set |
| SIS3302Decoder.GetNofWrapSamples | Decoders/ORSIS3302Decoder.hh:47-51 | is record word 6 verbatim in wrap mode and 0 otherwise; word 6 is required only in wrap mode |
| SIS3302Decoder.GetWrapStartIndex | Decoders/ORSIS3302Decoder.hh:53-57 | is record word 7 verbatim in wrap mode and 0 otherwise; word 7 is required only in wrap mode |
| SIS3302Decoder.GetWaveformLen | Decoders/ORSIS3302Decoder.hh:90-91 | the sample count is even and half of it is word 2 modulo 2^31 (the doubling is 32-bit) |
| SIS3302Decoder.WaveformLenHalfExact | Decoders/ORSIS3302Decoder.hh:91 | halving the waveform length gives back word 2 exactly when word 2 is below 2^31 |
| SIS3302Decoder.GetRecordOffset | Decoders/ORSIS3302Decoder.hh:133-135 | the buffer header starts kOrcaHeaderLen = 4 words into the record |
| SIS3302Decoder.GetTrailerLen | Decoders/ORSIS3302Decoder.hh:59-60 | the trailer is kBufferTrailerLen = 4 words long |
| SIS3302Decoder.WaveformDataOffset | Decoders/ORSIS3302Decoder.hh:178-181 | the waveform starts at index 6, or at 8 exactly in wrap mode |
| SIS3302Decoder.EnergyWaveformDataOffset | Decoders/ORSIS3302Decoder.hh:183-187 | the energy waveform starts where the waveform starts plus word 2 modulo 2^31 words |
| SIS3302Decoder.GetTrailerOffset | Decoders/ORSIS3302Decoder.hh:135-138 | the trailer starts at 4 + header length + (word 2 modulo 2^31) + word 3 |
| SIS3302Decoder.SegmentOrder | Decoders/ORSIS3302Decoder.hh:135-187 | waveform offset <= energy offset <= trailer offset, and each segment ends where the next begins |
| SIS3302Decoder.WrapFieldsEndHeader | Decoders/ORSIS3302Decoder.hh:47-57 | in wrap mode the wrap fields are the two words just before the first waveform word; otherwise the waveform starts at word 6 and both fields are 0 |
| SIS3302Decoder.GetBoardId | Decoders/ORSIS3302Decoder.hh:143-147 | the board id is below 2^14 and equals the low half of word 4 divided by 4 |
| SIS3302Decoder.GetChannelNum | Decoders/ORSIS3302Decoder.hh:149-152 | the channel is at most 7 and equals word 4 modulo 8 |
| SIS3302Decoder.BoardIdChannelOverlap | Decoders/ORSIS3302Decoder.hh:143-152 | bit 0 of the board id, bit 2 of the channel and bit 2 of word 4 are the same bit |
| SIS3302Decoder.BoardIdChannelExample | Decoders/ORSIS3302Decoder.hh:143-152 | header word 0xD gives channel 5 and board id 3 |
| SIS3302Decoder.GetTimeStampLo | Decoders/ORSIS3302Decoder.hh:155-158 | is word 5 modulo 2^16 |
| SIS3302Decoder.GetTimeStampMed | Decoders/ORSIS3302Decoder.hh:160-163 | is word 5 divided by 2^16 |
| SIS3302Decoder.GetTimeStampHi | Decoders/ORSIS3302Decoder.hh:165-168 | is word 4 divided by 2^16 |
| SIS3302Decoder.GetTimeStamp | Decoders/ORSIS3302Decoder.hh:170-176 | the timestamp is word 5 in the low 32 bits with the high half of word 4 above it, and is below 2^48 |
| SIS3302Decoder.TrailerReads | Decoders/ORSIS3302Decoder.hh:189-200 | energy max, energy initial, flags and sentinel are the trailer-length words from the trailer offset, in order, and the last four words of an exactly sized record |
| SIS3302Decoder.GetEnergyMax | Decoders/ORSIS3302Decoder.hh:189-190 | in a record exactly as long as its layout, the maximum energy is the fourth word from the end |
| SIS3302Decoder.GetEnergyInitial | Decoders/ORSIS3302Decoder.hh:192-194 | in a record exactly as long as its layout, the initial energy is the third word from the end |
| SIS3302Decoder.GetFlags | Decoders/ORSIS3302Decoder.hh:196-197 | in a record exactly as long as its layout, the flags word is the second word from the end |
| SIS3302Decoder.GetTrailer | Decoders/ORSIS3302Decoder.hh:199-200 | in a record exactly as long as its layout, the sentinel is the last word |
| SIS3302Decoder.IsValid | Decoders/ORSIS3302Decoder.hh:126 | passes exactly when trailer word 3 is 0xDEADBEEF (assumed definition) |
| SIS3302Decoder.IsPileupFlag | Decoders/ORSIS3302Decoder.hh:75-76 | true exactly when bit 31 of the flags word is set |
| SIS3302Decoder.IsRetriggerFlag | Decoders/ORSIS3302Decoder.hh:77-78 | true exactly when bit 30 of the flags word is set |
| SIS3302Decoder.IsADCNPlusOneTriggerFlag | Decoders/ORSIS3302Decoder.hh:79-80 | true exactly when bit 29 of the flags word is set |
| SIS3302Decoder.IsADCNMinusOneTriggerFlag | Decoders/ORSIS3302Decoder.hh:81-82 | true exactly when bit 28 of the flags word is set |
| SIS3302Decoder.IsTriggerFlag | Decoders/ORSIS3302Decoder.hh:83-84 | true exactly when bit 0 of the flags word is set |
| SIS3302Decoder.GetFastTriggerCounter | Decoders/ORSIS3302Decoder.hh:86-87 | is at most 15 and equals bits 27 to 24 of the flags word |
| SIS3302Decoder.GetBitResolution | Decoders/ORSIS3302Decoder.hh:107 | samples are 16 bits, two to a 32-bit word |
| SIS3302Decoder.GetNumberOfEvents | Decoders/ORSIS3302Decoder.hh:108 | a record carries exactly one event |
| SIS3302Decoder.GetEventTime | Decoders/ORSIS3302Decoder.hh:109-110 | for any event index, the time is word 5 in the low 32 bits with the high half of word 4 above it; only words 4 and 5 are required |
| SIS3302Decoder.GetEventEnergy | Decoders/ORSIS3302Decoder.hh:111-112 | for any event index, the energy is trailer word 0 |
| SIS3302Decoder.GetEventChannel | Decoders/ORSIS3302Decoder.hh:113-114 | for any event index, the channel is word 4 modulo 8; only word 4 is required |
| SIS3302Decoder.GetEventWaveformLength | Decoders/ORSIS3302Decoder.hh:115-116 | for any event index, the length is even and half of it is word 2 modulo 2^31 |
| SIS3302Decoder.GetEventFlags | Decoders/ORSIS3302Decoder.hh:120 | for any event index, the flags are trailer word 2 |
| SIS3302Decoder.WaveformDataIsSigned | Decoders/ORSIS3302Decoder.hh:122-123 | samples are reported unsigned |
| SIS3302Decoder.EventViewForwards | Decoders/ORSIS3302Decoder.hh:107-123 | one event per record; for any event index the time, energy, channel, waveform length and flags are the per-record values; energy and flags are trailer words 0 and 2; samples are unsigned 16-bit |
| SIS3302Record.Disassemble | Decoders/ORSIS3302Decoder.hh:178-200 | the parts read have the header, waveform and energy lengths the decoder computes |
| SIS3302Record.AssembledOffsets | Decoders/ORSIS3302Decoder.hh:178-187 | in an assembled record the decoder's waveform, energy and trailer offsets are where those parts were written |
| SIS3302Record.DisassembleAssemble | Decoders/ORSIS3302Decoder.hh:36-200 | decoding an assembled, well-formed record gives back every part |
| SIS3302Record.DisassembledWellFormed | Decoders/ORSIS3302Decoder.hh:39-97 | the parts read from a record whose word 2 is below 2^31 are well formed |
| SIS3302Record.AssembleDisassemble | Decoders/ORSIS3302Decoder.hh:36-200 | re-assembling the parts the decoder reads gives the record up to the end of its trailer, for every record that holds its trailer, a wrapped waveform length included |
| SIS3302Record.AssembledLengths | Decoders/ORSIS3302Decoder.hh:39-97 | an assembled record holds its trailer and reports its header and energy-waveform lengths |
| SIS3302Record.AssembledWaveformSegment | Decoders/ORSIS3302Decoder.hh:183-187 | half the reported waveform length of an assembled record is the length of its waveform segment |
| SIS3302Record.AssembledTrailer | Decoders/ORSIS3302Decoder.hh:189-200 | an assembled record reports the trailer words written, and passes the integrity check exactly when the sentinel written is 0xDEADBEEF |
| SIS3302Record.AssembledWrapFields | Decoders/ORSIS3302Decoder.hh:47-57 | an assembled record reports header words 2 and 3 as the wrap fields when its header has four words, and 0 otherwise |
| SIS3302Record.IsValidExamples | Decoders/ORSIS3302Decoder.hh:126 | a record with sentinel 0xDEADBEEF passes the integrity check and one with sentinel 0 fails it |
| SIS3302Record.WrappedWaveformLength | Decoders/ORSIS3302Decoder.hh:136-138 | a record announcing 2^31 waveform words has waveform length 0, its trailer at index 6, and passes the integrity check |
| SIS3302Record.EncodeHeaderWord0 | Decoders/ORSIS3302Decoder.hh:143-168 | a header word built from board id, channel and high timestamp bits carries the timestamp bits in its upper half |
| SIS3302Record.HeaderWord0Fields | Decoders/ORSIS3302Decoder.hh:143-168 | board id, channel and high timestamp bits written into header word 0 are read back unchanged whenever board id and channel agree on their shared bit |
| SIS3302Record.EncodeFlags | Decoders/ORSIS3302Decoder.hh:75-87 | a flags word built from the lanes has bits 23 to 1 clear |
| SIS3302Record.FlagLanesIndependent | Decoders/ORSIS3302Decoder.hh:75-87 | every combination of flag lanes written into the flags word is read back unchanged by the six flag accessors |

## Left out

- Processors/ORDataProcessor.hh is not part of this model. It is pipeline plumbing (return codes, enable flags, run context), and its one non-trivial method, `ProcessDataRecord`, is defined out of line, not in that header.
- `SetDataRecord`, `CopyWaveformData`, `CopyWaveformDataDouble`, `CopyEnergyWaveformDataDouble`, `GetEventWaveformPoint`, `DumpBufferHeader` and `Dump` are left out: they are declared in the decoder's header and defined out of line, and those definitions are not part of this model.
- SIS3302Decoder.IsValid: it is defined out of line, and that definition is not part of this model. It is assumed to compare trailer word 3 with kTrailerValue (0xDEADBEEF) and nothing else.
- ORUtils.BitConcat: it is imported into the decoder from a file that is not part of this model. The placement lo, med, hi from the lowest 16-bit lane upwards is an assumption. GetTimeStampLo, GetTimeStampMed and GetTimeStampHi are stated against the source on their own.
- `GetSamplingFrequency` and the `...Double` copy variants are left out because they are floating point.
- `GetDataObjectPath` and `GetDictionaryObjectPath` are left out: they return constant strings and carry no logic.
- The trigger-mode enumeration `ESIS3302TriggerMode` is left out: no modelled operation reads it.
- `GetWaveformDataPointer` and `GetEnergyWaveformDataPointer` are modelled as the indices `WaveformDataOffset` and `EnergyWaveformDataOffset`. Pointer arithmetic and virtual dispatch through the base decoder class are not modelled.
- SIS3302Decoder.GetWaveformLen: the source returns `size_t`. The model returns the 32-bit product, which `size_t` holds zero-extended, so the value and its half are the same.
- SIS3302Decoder.GetTrailerOffset: the source adds the offsets in `size_t`; the model adds them as unbounded naturals. This is exact on a build with a 64-bit `size_t`, where the sum (at most 8 + 2^31 + 2^32) cannot wrap. A build with a 32-bit `size_t`, where for example words 1 to 3 = 0, 0, 0xFFFFFFFC put the trailer at 2 instead of 2^32 + 2, is not modelled. The same holds for WaveformDataOffset and EnergyWaveformDataOffset.
- ORUtils.SwapInPlace16: the C++ reference is modelled as the index of a cell in a memory given as a sequence of 16-bit cells; the updated memory is returned rather than mutated, and memory of other widths or overlapping cells is not modelled.
- ORUtils.SwapInPlace32: the same encoding, with 32-bit cells.
- ORUtils.SwapInPlace64: the same encoding, with 64-bit cells.
- `ORBIG_ENDIAN_MACHINE` is a compile-time macro. It is modelled as the parameter `bigEndianMachine` rather than a constant, so both builds are covered.
- ORUtils.NativeLoad32 and ORUtils.LoadLittleEndian32 are not in the source. They describe what a host load of four bytes yields, so that the purpose of Swap plus SysIsNotLittleEndian can be stated.
