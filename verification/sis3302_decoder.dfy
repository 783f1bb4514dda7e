/** The SIS3302 record decoder: where each part of a digitizer record sits,
    and the bit-packed fields read from it.

    A record is the sequence of 32-bit words the decoder is handed. Its
    layout, in words:
      0..3                 the ORCA envelope; word 1 bit 0 is the wrap-mode
                           bit, word 2 the waveform length in words, word 3
                           the energy-waveform length in words
      4..4+h               the buffer header, h = 2 or 4 words (4 in wrap
                           mode, words 6 and 7 then holding the wrap geometry)
      waveform segment     16-bit samples packed two per word
      energy segment       one energy-filter output per word
      trailer              energy max, energy initial, flags, sentinel

    The decoder never checks the record's length; every accessor states the
    length it needs as a precondition. */
module SIS3302Decoder {
  import opened Bits
  import opened ORUtils

  type Record = seq<bv32>

  const OrcaHeaderLen: nat := 4
  const NoWrapBufferHeaderLen: nat := 2
  const WrapBufferHeaderLen: nat := 4
  const BufferTrailerLen: nat := 4
  const TrailerValue: bv32 := 0xDEAD_BEEF


  // ---------------------------------------------------------------------------
  // Mode bit and buffer header
  // ---------------------------------------------------------------------------

  /** Wrap (extended pre-trigger) mode is on when record word 1 is odd. */
  function IsBufferWrapEnabled(rec: Record): (r: bool)
    requires |rec| > 1
    ensures r <==> WordValue(rec[1]) % 2 == 1
  {
    rec[1] & 0x1 == 0x1
  }

  /** The buffer header is 4 words in wrap mode and 2 words otherwise. */
  function GetBufHeadLen(rec: Record): (r: nat)
    requires |rec| > 1
    ensures r == 2 || r == 4
    ensures r == NoWrapBufferHeaderLen + 2 * (WordValue(rec[1]) % 2)
  {
    if IsBufferWrapEnabled(rec) then WrapBufferHeaderLen else NoWrapBufferHeaderLen
  }

  /** The number of wrapped samples: record word 6 in wrap mode, else 0. */
  function GetNofWrapSamples(rec: Record): (r: bv32)
    requires |rec| > 1
    requires IsBufferWrapEnabled(rec) ==> |rec| > 6
    ensures rec[1] % 2 == 1 ==> r == rec[6]
    ensures rec[1] % 2 == 0 ==> r == 0
  {
    if IsBufferWrapEnabled(rec) then rec[6] else 0
  }

  /** The wrap start index: record word 7 in wrap mode, else 0. */
  function GetWrapStartIndex(rec: Record): (r: bv32)
    requires |rec| > 1
    requires IsBufferWrapEnabled(rec) ==> |rec| > 7
    ensures rec[1] % 2 == 1 ==> r == rec[7]
    ensures rec[1] % 2 == 0 ==> r == 0
  {
    if IsBufferWrapEnabled(rec) then rec[7] else 0
  }

  // ---------------------------------------------------------------------------
  // Segment lengths and offsets
  // ---------------------------------------------------------------------------

  /** The waveform length in 16-bit samples. The word count of record word 2
      is doubled in 32-bit unsigned arithmetic, so the top bit of the word
      count is lost: half the length is the word count modulo 2^31. The
      result is the 32-bit product; the wider size_t the source returns
      holds it zero-extended, so halving it there gives the same value. */
  function GetWaveformLen(rec: Record): (r: bv32)
    requires |rec| > 2
    ensures r % 2 == 0
    ensures r / 2 == rec[2] % 0x8000_0000
  {
    rec[2] * 2
  }

  /** The energy-waveform length in 32-bit words: the value of record word 3. */
  function GetEnergyWaveformLen(rec: Record): nat
    requires |rec| > 3
  {
    WordValue(rec[3])
  }

  /** The buffer header starts just past the ORCA envelope. */
  function GetRecordOffset(): (r: nat)
    ensures r == OrcaHeaderLen
  {
    OrcaHeaderLen
  }

  /** The trailer is four words long. */
  function GetTrailerLen(): (r: nat)
    ensures r == BufferTrailerLen
  {
    BufferTrailerLen
  }

  /** Index of the first waveform word: just past the buffer header. */
  function WaveformDataOffset(rec: Record): (r: nat)
    requires |rec| > 1
    ensures r == 6 || r == 8
    ensures r == 8 <==> rec[1] % 2 == 1
  {
    GetRecordOffset() + GetBufHeadLen(rec)
  }

  /** Index of the first energy-waveform word: just past the waveform words. */
  function EnergyWaveformDataOffset(rec: Record): (r: nat)
    requires |rec| > 2
    ensures r == WaveformDataOffset(rec) + WordValue(rec[2] % 0x8000_0000)
  {
    GetRecordOffset() + GetBufHeadLen(rec) + WordValue(GetWaveformLen(rec) / 2)
  }

  /** Index of the first trailer word: header, waveform words and energy
      words laid end to end after the envelope. */
  function GetTrailerOffset(rec: Record): (r: nat)
    requires |rec| >= OrcaHeaderLen
    ensures r == OrcaHeaderLen + GetBufHeadLen(rec) + WordValue(rec[2] % 0x8000_0000) + WordValue(rec[3])
  {
    GetRecordOffset() + GetBufHeadLen(rec) + WordValue(GetWaveformLen(rec) / 2) + GetEnergyWaveformLen(rec)
  }

  /** The segments follow one another in the order header, waveform,
      energy waveform, trailer, without gaps. */
  lemma SegmentOrder(rec: Record)
    requires |rec| >= OrcaHeaderLen
    ensures GetRecordOffset() + GetBufHeadLen(rec) == WaveformDataOffset(rec)
    ensures WaveformDataOffset(rec) <= EnergyWaveformDataOffset(rec) <= GetTrailerOffset(rec)
    ensures WaveformDataOffset(rec) + WordValue(GetWaveformLen(rec) / 2) == EnergyWaveformDataOffset(rec)
    ensures EnergyWaveformDataOffset(rec) + GetEnergyWaveformLen(rec) == GetTrailerOffset(rec)
  {
  }

  /** Halving the waveform length gives back the word count of record word 2
      exactly when that count is below 2^31. */
  lemma WaveformLenHalfExact(rec: Record)
    requires |rec| > 2
    ensures GetWaveformLen(rec) / 2 == rec[2] <==> rec[2] < 0x8000_0000
  {
  }

  /** The wrap fields are the last two words of the buffer header: in wrap
      mode the words just before the first waveform word. Without wrap mode
      the header ends at word 5, word 6 is already waveform data, and the
      wrap fields are 0 without reading it. */
  lemma WrapFieldsEndHeader(rec: Record)
    requires |rec| > 1
    requires IsBufferWrapEnabled(rec) ==> |rec| > 7
    ensures IsBufferWrapEnabled(rec) ==>
      GetNofWrapSamples(rec) == rec[WaveformDataOffset(rec) - 2] &&
      GetWrapStartIndex(rec) == rec[WaveformDataOffset(rec) - 1]
    ensures !IsBufferWrapEnabled(rec) ==>
      WaveformDataOffset(rec) == 6 && GetNofWrapSamples(rec) == 0 && GetWrapStartIndex(rec) == 0
  {
  }

  // ---------------------------------------------------------------------------
  // Buffer header fields
  // ---------------------------------------------------------------------------

  /** The board id: bits 15..2 of header word 0 (record word 4). */
  function GetBoardId(rec: Record): (r: bv16)
    requires |rec| > OrcaHeaderLen
    ensures r < 0x4000
    ensures r as bv32 == rec[4] % 0x1_0000 / 4
  {
    ((rec[GetRecordOffset()] & 0xffff) as bv16) >> 2
  }

  /** The channel: bits 2..0 of header word 0 (record word 4). */
  function GetChannelNum(rec: Record): (r: bv16)
    requires |rec| > OrcaHeaderLen
    ensures r <= 7
    ensures r as bv32 == rec[4] % 8
  {
    (rec[GetRecordOffset()] & 0x7) as bv16
  }

  /** Board id and channel share bit 2 of header word 0: it is bit 0 of the
      one and bit 2 of the other. */
  lemma BoardIdChannelOverlap(rec: Record)
    requires |rec| > OrcaHeaderLen
    ensures Bit16(GetBoardId(rec), 0) == Bit16(GetChannelNum(rec), 2) == Bit32(rec[4], 2)
  {
  }

  /** Header word 0 = 0xD: channel 5 (binary 101) and board id 3 (bits 3..2). */
  lemma BoardIdChannelExample(rec: Record)
    requires |rec| > OrcaHeaderLen && rec[4] == 0x0000_000D
    ensures GetChannelNum(rec) == 5 && GetBoardId(rec) == 3
  {
  }

  /** The low 16 timestamp bits: the low half of header word 1 (record word 5). */
  function GetTimeStampLo(rec: Record): (r: bv16)
    requires |rec| > OrcaHeaderLen + 1
    ensures r as bv32 == rec[5] % 0x1_0000
  {
    (rec[GetRecordOffset() + 1] & 0xffff) as bv16
  }

  /** The middle 16 timestamp bits: the high half of header word 1 (record word 5). */
  function GetTimeStampMed(rec: Record): (r: bv16)
    requires |rec| > OrcaHeaderLen + 1
    ensures r as bv32 == rec[5] / 0x1_0000
  {
    (rec[GetRecordOffset() + 1] >> 16) as bv16
  }

  /** The high 16 timestamp bits: the high half of header word 0 (record word 4). */
  function GetTimeStampHi(rec: Record): (r: bv16)
    requires |rec| > OrcaHeaderLen
    ensures r as bv32 == rec[4] / 0x1_0000
  {
    (rec[GetRecordOffset()] >> 16) as bv16
  }

  /** The 48-bit timestamp: record word 5 in the low 32 bits and the high
      half of record word 4 above it. */
  function GetTimeStamp(rec: Record): (r: bv64)
    requires |rec| > OrcaHeaderLen + 1
    ensures r == (rec[5] as bv64) | (((rec[4] >> 16) as bv64) << 32)
    ensures r < 0x1_0000_0000_0000
  {
    BitConcat(GetTimeStampLo(rec), GetTimeStampMed(rec), GetTimeStampHi(rec))
  }

  // ---------------------------------------------------------------------------
  // Trailer
  // ---------------------------------------------------------------------------

  /** The record is long enough to hold all four trailer words. */
  predicate TrailerInRecord(rec: Record)
  {
    |rec| >= OrcaHeaderLen && GetTrailerOffset(rec) + BufferTrailerLen <= |rec|
  }

  /** The maximum energy found in the gate: trailer word 0. In a record exactly as long as its
      layout says, it is word 4 counted back from the end. */
  function GetEnergyMax(rec: Record): (r: bv32)
    requires TrailerInRecord(rec)
    ensures |rec| == GetTrailerOffset(rec) + BufferTrailerLen ==> r == rec[|rec| - 4]
  {
    rec[GetTrailerOffset(rec)]
  }

  /** The energy at the first point of the gate: trailer word 1. In a record exactly as long as its
      layout says, it is word 3 counted back from the end. */
  function GetEnergyInitial(rec: Record): (r: bv32)
    requires TrailerInRecord(rec)
    ensures |rec| == GetTrailerOffset(rec) + BufferTrailerLen ==> r == rec[|rec| - 3]
  {
    rec[GetTrailerOffset(rec) + 1]
  }

  /** The flags word: trailer word 2. In a record exactly as long as its
      layout says, it is word 2 counted back from the end. */
  function GetFlags(rec: Record): (r: bv32)
    requires TrailerInRecord(rec)
    ensures |rec| == GetTrailerOffset(rec) + BufferTrailerLen ==> r == rec[|rec| - 2]
  {
    rec[GetTrailerOffset(rec) + 2]
  }

  /** The sentinel word: trailer word 3. In a record exactly as long as its
      layout says, it is word 1 counted back from the end. */
  function GetTrailer(rec: Record): (r: bv32)
    requires TrailerInRecord(rec)
    ensures |rec| == GetTrailerOffset(rec) + BufferTrailerLen ==> r == rec[|rec| - 1]
  {
    rec[GetTrailerOffset(rec) + 3]
  }

  /** The four trailer accessors read the trailer-length words that start at
      the trailer offset, in order, and those are the record's last words
      when the record is exactly as long as its layout says. */
  lemma TrailerReads(rec: Record)
    requires TrailerInRecord(rec)
    ensures [GetEnergyMax(rec), GetEnergyInitial(rec), GetFlags(rec), GetTrailer(rec)]
            == rec[GetTrailerOffset(rec) .. GetTrailerOffset(rec) + GetTrailerLen()]
    ensures |rec| == GetTrailerOffset(rec) + BufferTrailerLen ==>
      GetTrailer(rec) == rec[|rec| - 1] && GetEnergyMax(rec) == rec[|rec| - 4]
  {
    var t := GetTrailerOffset(rec);
    var trailer := rec[t .. t + BufferTrailerLen];
    assert trailer[0] == GetEnergyMax(rec) && trailer[1] == GetEnergyInitial(rec);
    assert trailer[2] == GetFlags(rec) && trailer[3] == GetTrailer(rec);
  }

  /** The record's integrity check. It is defined out of line, not in the
      decoder's header; it is assumed to compare the sentinel with
      TrailerValue and nothing else. */
  function IsValid(rec: Record): (r: bool)
    requires TrailerInRecord(rec)
    ensures r <==> rec[GetTrailerOffset(rec) + 3] == 0xDEAD_BEEF
  {
    GetTrailer(rec) == TrailerValue
  }

  // ---------------------------------------------------------------------------
  // Flags word
  // ---------------------------------------------------------------------------

  /** Pileup: bit 31 of the flags word. */
  function IsPileupFlag(rec: Record): (r: bool)
    requires TrailerInRecord(rec)
    ensures r <==> Bit32(GetFlags(rec), 31)
  {
    GetFlags(rec) & 0x8000_0000 == 0x8000_0000
  }

  /** Retrigger: bit 30 of the flags word. */
  function IsRetriggerFlag(rec: Record): (r: bool)
    requires TrailerInRecord(rec)
    ensures r <==> Bit32(GetFlags(rec), 30)
  {
    GetFlags(rec) & 0x4000_0000 == 0x4000_0000
  }

  /** Trigger of the neighbouring ADC N+1: bit 29 of the flags word. */
  function IsADCNPlusOneTriggerFlag(rec: Record): (r: bool)
    requires TrailerInRecord(rec)
    ensures r <==> Bit32(GetFlags(rec), 29)
  {
    GetFlags(rec) & 0x2000_0000 == 0x2000_0000
  }

  /** Trigger of the neighbouring ADC N-1: bit 28 of the flags word. */
  function IsADCNMinusOneTriggerFlag(rec: Record): (r: bool)
    requires TrailerInRecord(rec)
    ensures r <==> Bit32(GetFlags(rec), 28)
  {
    GetFlags(rec) & 0x1000_0000 == 0x1000_0000
  }

  /** Trigger: bit 0 of the flags word. */
  function IsTriggerFlag(rec: Record): (r: bool)
    requires TrailerInRecord(rec)
    ensures r <==> Bit32(GetFlags(rec), 0)
  {
    GetFlags(rec) & 0x1 == 0x1
  }

  /** The fast-trigger counter: bits 27..24 of the flags word. */
  function GetFastTriggerCounter(rec: Record): (r: bv16)
    requires TrailerInRecord(rec)
    ensures r <= 15
    ensures r as bv32 == GetFlags(rec) / 0x100_0000 % 16
  {
    ((GetFlags(rec) & 0x0F00_0000) >> 24) as bv16
  }

  // ---------------------------------------------------------------------------
  // Event view
  // ---------------------------------------------------------------------------

  /** Samples are 16 bits wide, two to a 32-bit record word. */
  function GetBitResolution(): (r: nat)
    ensures 2 * r == 32
  {
    16
  }

  /** A record carries exactly one event. */
  function GetNumberOfEvents(): (r: nat)
    ensures r == 1
  {
    1
  }

  /** The time of any event is the record's 48-bit timestamp: record word 5
      in the low 32 bits, the high half of record word 4 above it. */
  function GetEventTime(rec: Record, event: nat): (r: bv64)
    requires |rec| > OrcaHeaderLen + 1
    ensures r == (rec[5] as bv64) | (((rec[4] >> 16) as bv64) << 32)
  {
    GetTimeStamp(rec)
  }

  /** The energy of any event is the maximum energy, trailer word 0. */
  function GetEventEnergy(rec: Record, event: nat): (r: bv32)
    requires TrailerInRecord(rec)
    ensures r == rec[GetTrailerOffset(rec)]
  {
    GetEnergyMax(rec)
  }

  /** The channel of any event is bits 2..0 of record word 4. */
  function GetEventChannel(rec: Record, event: nat): (r: bv16)
    requires |rec| > OrcaHeaderLen
    ensures r as bv32 == rec[4] % 8
  {
    GetChannelNum(rec)
  }

  /** The waveform length of any event, in samples. */
  function GetEventWaveformLength(rec: Record, event: nat): (r: bv32)
    requires |rec| > 2
    ensures r % 2 == 0 && r / 2 == rec[2] % 0x8000_0000
  {
    GetWaveformLen(rec)
  }

  /** The flags of any event are the flags word, trailer word 2. */
  function GetEventFlags(rec: Record, event: nat): (r: bv32)
    requires TrailerInRecord(rec)
    ensures r == rec[GetTrailerOffset(rec) + 2]
  {
    GetFlags(rec)
  }

  /** Samples of this digitizer are unsigned. */
  function WaveformDataIsSigned(): (r: bool)
    ensures !r
  {
    false
  }

  /** The event view reports one event and, whatever event index it is
      asked about, the per-record values, located in the record's words. */
  lemma EventViewForwards(rec: Record, event: nat)
    requires TrailerInRecord(rec)
    ensures GetNumberOfEvents() == 1
    ensures GetEventTime(rec, event) == GetTimeStamp(rec)
    ensures GetEventEnergy(rec, event) == GetEnergyMax(rec)
    ensures GetEventChannel(rec, event) == GetChannelNum(rec)
    ensures GetEventWaveformLength(rec, event) == GetWaveformLen(rec)
    ensures GetEventFlags(rec, event) == GetFlags(rec)
    ensures !WaveformDataIsSigned() && GetBitResolution() == 16
    ensures GetEventEnergy(rec, event) == rec[GetTrailerOffset(rec)]
    ensures GetEventFlags(rec, event) == rec[GetTrailerOffset(rec) + 2]
  {
  }
}
