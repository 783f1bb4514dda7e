/** The record format seen from the writer's side: a record assembled from
    its parts, and the decoder's layout functions proved to take it apart
    again. This is the inverse against which the layout arithmetic of
    SIS3302Decoder is checked. */
module SIS3302Record {
  import opened Bits
  import opened SIS3302Decoder

  /** The parts of one digitizer record, in the order they are written. */
  datatype RecordParts = RecordParts(
    orcaWord0: bv32,          // envelope word 0: not read by the decoder
    modeWord: bv32,           // envelope word 1: bit 0 selects wrap mode
    waveformWords: bv32,      // envelope word 2: waveform length in words
    energyWords: bv32,        // envelope word 3: energy-waveform length in words
    header: seq<bv32>,        // buffer header, 2 or 4 words
    waveform: seq<bv32>,      // packed 16-bit samples, two per word
    energyWaveform: seq<bv32>,
    energyMax: bv32,
    energyInitial: bv32,
    flags: bv32,
    trailer: bv32)

  /** The header has the length the mode bit announces and both segments
      the lengths the envelope announces. The waveform word count stays
      below 2^31, where doubling it in 32 bits cannot wrap. */
  predicate WellFormed(p: RecordParts)
  {
    && |p.header| == (if p.modeWord & 1 == 1 then WrapBufferHeaderLen else NoWrapBufferHeaderLen)
    && p.waveformWords < 0x8000_0000
    && |p.waveform| == WordValue(p.waveformWords)
    && |p.energyWaveform| == WordValue(p.energyWords)
  }

  /** The words of a record, parts laid end to end. */
  function Assemble(p: RecordParts): (rec: Record)
    ensures |rec| == OrcaHeaderLen + |p.header| + |p.waveform| + |p.energyWaveform| + BufferTrailerLen
  {
    [p.orcaWord0, p.modeWord, p.waveformWords, p.energyWords]
    + p.header + p.waveform + p.energyWaveform
    + [p.energyMax, p.energyInitial, p.flags, p.trailer]
  }

  /** The parts of a record, each read where the decoder locates it. */
  function Disassemble(rec: Record): (p: RecordParts)
    requires TrailerInRecord(rec)
    ensures |p.header| == GetBufHeadLen(rec)
    ensures |p.waveform| == WordValue(GetWaveformLen(rec) / 2)
    ensures |p.energyWaveform| == GetEnergyWaveformLen(rec)
  {
    var w := WaveformDataOffset(rec);
    var e := EnergyWaveformDataOffset(rec);
    var t := GetTrailerOffset(rec);
    RecordParts(rec[0], rec[1], rec[2], rec[3],
                rec[OrcaHeaderLen..w], rec[w..e], rec[e..t],
                GetEnergyMax(rec), GetEnergyInitial(rec), GetFlags(rec), GetTrailer(rec))
  }

  /** Each of five sequences laid end to end is found again between the
      sums of the lengths before it and up to it. */
  lemma ConcatSlices<T>(a: seq<T>, b: seq<T>, c: seq<T>, d: seq<T>, e: seq<T>)
    ensures var s := a + b + c + d + e;
            && var i, j, k, l := |a|, |a| + |b|, |a| + |b| + |c|, |a| + |b| + |c| + |d|;
            && s[..i] == a && s[i..j] == b && s[j..k] == c && s[k..l] == d && s[l..] == e
  {
    var s := a + b + c + d + e;
    var i, j, k, l := |a|, |a| + |b|, |a| + |b| + |c|, |a| + |b| + |c| + |d|;
    assert s == (((a + b) + c) + d) + e;
    assert s[..l] == a + b + c + d;
    assert s[..k] == a + b + c;
    assert s[..j] == a + b;
    assert s[i..j] == (a + b)[i..];
    assert s[j..k] == (a + b + c)[j..];
    assert s[k..l] == (a + b + c + d)[k..];
  }

  /** The envelope of an assembled record holds the mode word and the two
      length words written. */
  lemma AssembledEnvelope(p: RecordParts)
    ensures |Assemble(p)| > 3
    ensures Assemble(p)[1] == p.modeWord
    ensures Assemble(p)[2] == p.waveformWords
    ensures Assemble(p)[3] == p.energyWords
  {
  }

  /** The decoder locates the segments of an assembled record where they
      were written. */
  lemma AssembledOffsets(p: RecordParts)
    requires WellFormed(p)
    ensures WaveformDataOffset(Assemble(p)) == OrcaHeaderLen + |p.header|
    ensures EnergyWaveformDataOffset(Assemble(p)) == OrcaHeaderLen + |p.header| + |p.waveform|
    ensures GetTrailerOffset(Assemble(p))
            == OrcaHeaderLen + |p.header| + |p.waveform| + |p.energyWaveform|
  {
    var rec := Assemble(p);
    AssembledEnvelope(p);
    assert p.waveformWords % 0x8000_0000 == p.waveformWords;
    var w := WaveformDataOffset(rec);
    assert w == OrcaHeaderLen + |p.header|;
    assert EnergyWaveformDataOffset(rec) == w + |p.waveform|;
  }

  /** Decoding an assembled record gives back every part. */
  lemma DisassembleAssemble(p: RecordParts)
    requires WellFormed(p)
    ensures TrailerInRecord(Assemble(p))
    ensures Disassemble(Assemble(p)) == p
  {
    var rec := Assemble(p);
    var w := OrcaHeaderLen + |p.header|;
    var e := w + |p.waveform|;
    var t := e + |p.energyWaveform|;
    AssembledOffsets(p);
    ConcatSlices([p.orcaWord0, p.modeWord, p.waveformWords, p.energyWords],
                 p.header, p.waveform, p.energyWaveform,
                 [p.energyMax, p.energyInitial, p.flags, p.trailer]);
  }

  /** A prefix of a sequence is the concatenation of its pieces between
      ascending cut points. */
  lemma SplitPrefix<T>(s: seq<T>, i: nat, j: nat, k: nat, l: nat, m: nat)
    requires i <= j <= k <= l <= m <= |s|
    ensures s[..m] == s[..i] + s[i..j] + s[j..k] + s[k..l] + s[l..m]
  {
    assert s[..j] == s[..i] + s[i..j];
    assert s[..k] == s[..j] + s[j..k];
    assert s[..l] == s[..k] + s[k..l];
    assert s[..m] == s[..l] + s[l..m];
  }

  /** The parts read from a record whose waveform word count is below 2^31
      are well formed. */
  lemma DisassembledWellFormed(rec: Record)
    requires TrailerInRecord(rec)
    requires rec[2] < 0x8000_0000
    ensures WellFormed(Disassemble(rec))
  {
    assert rec[2] % 0x8000_0000 == rec[2];
  }

  /** Assembling the parts the decoder reads gives back the record up to
      the end of its trailer. This holds for every record that holds its
      trailer, a wrapped waveform length included: word 2 is copied back
      verbatim and the segments are read where the decoder locates them. */
  lemma AssembleDisassemble(rec: Record)
    requires TrailerInRecord(rec)
    ensures Assemble(Disassemble(rec)) == rec[..GetTrailerOffset(rec) + BufferTrailerLen]
  {
    var p := Disassemble(rec);
    var w := WaveformDataOffset(rec);
    var e := EnergyWaveformDataOffset(rec);
    var t := GetTrailerOffset(rec);
    TrailerReads(rec);
    SplitPrefix(rec, OrcaHeaderLen, w, e, t, t + BufferTrailerLen);
    calc {
      Assemble(p);
      [rec[0], rec[1], rec[2], rec[3]] + rec[OrcaHeaderLen..w] + rec[w..e] + rec[e..t]
        + [GetEnergyMax(rec), GetEnergyInitial(rec), GetFlags(rec), GetTrailer(rec)];
      { assert rec[..OrcaHeaderLen] == [rec[0], rec[1], rec[2], rec[3]]; }
      rec[..OrcaHeaderLen] + rec[OrcaHeaderLen..w] + rec[w..e] + rec[e..t] + rec[t..t + BufferTrailerLen];
      rec[..t + BufferTrailerLen];
    }
  }

  /** The length accessors of an assembled record report the lengths of
      its header and energy segments. */
  lemma AssembledLengths(p: RecordParts)
    requires WellFormed(p)
    ensures TrailerInRecord(Assemble(p))
    ensures GetBufHeadLen(Assemble(p)) == |p.header|
    ensures GetEnergyWaveformLen(Assemble(p)) == |p.energyWaveform|
  {
    DisassembleAssemble(p);
    assert Disassemble(Assemble(p)) == p;
  }

  /** Half the waveform length of an assembled record is the length of its
      waveform segment. */
  lemma AssembledWaveformSegment(p: RecordParts)
    requires WellFormed(p)
    ensures WordValue(GetWaveformLen(Assemble(p)) / 2) == |p.waveform|
  {
    DisassembleAssemble(p);
    assert Disassemble(Assemble(p)) == p;
  }

  /** The trailer accessors of an assembled record report its trailer
      words, and the integrity check passes exactly when the sentinel
      written was the expected one. */
  lemma AssembledTrailer(p: RecordParts)
    requires WellFormed(p)
    ensures TrailerInRecord(Assemble(p))
    ensures GetEnergyMax(Assemble(p)) == p.energyMax
    ensures GetEnergyInitial(Assemble(p)) == p.energyInitial
    ensures GetFlags(Assemble(p)) == p.flags
    ensures GetTrailer(Assemble(p)) == p.trailer
    ensures IsValid(Assemble(p)) <==> p.trailer == TrailerValue
  {
    DisassembleAssemble(p);
    assert Disassemble(Assemble(p)) == p;
  }

  /** The wrap accessors of an assembled record report header words 2 and
      3 when the header has four words, and 0 otherwise. */
  lemma AssembledWrapFields(p: RecordParts)
    requires WellFormed(p)
    ensures |Assemble(p)| > 7 || |p.header| == 2
    ensures GetNofWrapSamples(Assemble(p)) == if |p.header| == 4 then p.header[2] else 0
    ensures GetWrapStartIndex(Assemble(p)) == if |p.header| == 4 then p.header[3] else 0
  {
    var rec := Assemble(p);
    DisassembleAssemble(p);
    assert Disassemble(rec) == p;
    assert rec[1] == p.modeWord;
    if |p.header| == 4 {
      assert rec[OrcaHeaderLen..WaveformDataOffset(rec)] == p.header;
      assert rec[6] == p.header[2] && rec[7] == p.header[3];
    }
  }

  /** A record whose sentinel is intact passes the integrity check and one
      whose sentinel is zero fails it. */
  lemma IsValidExamples()
    ensures var good := RecordParts(0, 0, 0, 0, [0, 0], [], [], 1, 2, 3, 0xDEAD_BEEF);
            IsValid(Assemble(good))
    ensures var bad := RecordParts(0, 0, 0, 0, [0, 0], [], [], 1, 2, 3, 0);
            !IsValid(Assemble(bad))
  {
    AssembledTrailer(RecordParts(0, 0, 0, 0, [0, 0], [], [], 1, 2, 3, 0xDEAD_BEEF));
    AssembledTrailer(RecordParts(0, 0, 0, 0, [0, 0], [], [], 1, 2, 3, 0));
  }

  /** A ten-word record announcing 2^31 waveform words is laid out by the
      decoder as one with no waveform at all, and it passes the integrity
      check: the doubled length has wrapped to 0. */
  lemma WrappedWaveformLength()
    ensures var rec: Record := [0, 0, 0x8000_0000, 0, 0, 0, 1, 2, 3, 0xDEAD_BEEF];
            && TrailerInRecord(rec)
            && GetWaveformLen(rec) == 0
            && GetTrailerOffset(rec) == 6
            && IsValid(rec)
  {
  }

  // ---------------------------------------------------------------------------
  // Header word 0
  // ---------------------------------------------------------------------------

  /** Header word 0 (record word 4) built from its fields: the high 16
      timestamp bits in the upper half, the board id in bits 15..2 and the
      channel in bits 2..0. The two lower fields share bit 2. */
  function EncodeHeaderWord0(boardId: bv16, channel: bv16, timeStampHi: bv16): (w: bv32)
    requires boardId < 0x4000 && channel <= 7
    ensures w >> 16 == timeStampHi as bv32
  {
    ((timeStampHi as bv32) << 16) | ((boardId as bv32) << 2) | (channel as bv32)
  }

  /** A header word built from a board id, a channel and the high timestamp
      bits is read back unchanged by the three accessors, provided the board
      id and the channel agree on the bit they share. */
  lemma HeaderWord0Fields(rec: Record, boardId: bv16, channel: bv16, timeStampHi: bv16)
    requires |rec| > OrcaHeaderLen
    requires boardId < 0x4000 && channel <= 7
    requires Bit16(boardId, 0) == Bit16(channel, 2)
    requires rec[4] == EncodeHeaderWord0(boardId, channel, timeStampHi)
    ensures GetBoardId(rec) == boardId
    ensures GetChannelNum(rec) == channel
    ensures GetTimeStampHi(rec) == timeStampHi
  {
  }

  // ---------------------------------------------------------------------------
  // Flags lanes
  // ---------------------------------------------------------------------------

  /** A flags word with the given lanes set and every other bit clear. */
  function EncodeFlags(pileup: bool, retrigger: bool, nPlusOne: bool, nMinusOne: bool,
                       fastTriggers: bv16, trigger: bool): (f: bv32)
    requires fastTriggers <= 15
    ensures f & 0x00FF_FFFE == 0
  {
    (if pileup then 0x8000_0000 else 0)
    | (if retrigger then 0x4000_0000 else 0)
    | (if nPlusOne then 0x2000_0000 else 0)
    | (if nMinusOne then 0x1000_0000 else 0)
    | ((fastTriggers as bv32) << 24)
    | (if trigger then 1 else 0)
  }

  /** The flag lanes are independent: any combination of lanes written into
      the flags word is read back unchanged by the flag accessors. */
  lemma FlagLanesIndependent(rec: Record, pileup: bool, retrigger: bool, nPlusOne: bool,
                             nMinusOne: bool, fastTriggers: bv16, trigger: bool)
    requires TrailerInRecord(rec)
    requires fastTriggers <= 15
    requires GetFlags(rec) == EncodeFlags(pileup, retrigger, nPlusOne, nMinusOne, fastTriggers, trigger)
    ensures IsPileupFlag(rec) == pileup
    ensures IsRetriggerFlag(rec) == retrigger
    ensures IsADCNPlusOneTriggerFlag(rec) == nPlusOne
    ensures IsADCNMinusOneTriggerFlag(rec) == nMinusOne
    ensures GetFastTriggerCounter(rec) == fastTriggers
    ensures IsTriggerFlag(rec) == trigger
  {
  }
}
