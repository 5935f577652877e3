/** Frames are self-delimiting: what was encoded decodes back whatever follows it,
    and no strict prefix of a frame decodes to anything. */
module FormatLaws {
  import opened Base
  import opened LittleEndian
  import opened Format
  import Lexicographic

  // ── a decoder reads nothing past the frame it returns ─────────────────

  lemma SameSlice(a: Bytes, b: Bytes, n: nat, i: nat, j: nat)
    requires i <= j <= n <= |a| && n <= |b| && a[..n] == b[..n]
    ensures a[i..j] == b[i..j]
  {
    assert a[i..j] == a[..n][i..j];
    assert b[i..j] == b[..n][i..j];
  }

  lemma SameHeader(a: Bytes, b: Bytes, limits: FormatLimits)
    requires |a| >= FRAME_HEADER_LEN && |b| >= FRAME_HEADER_LEN
    requires a[..FRAME_HEADER_LEN] == b[..FRAME_HEADER_LEN]
    ensures HeaderLengths(a, limits) == HeaderLengths(b, limits)
    ensures a[7] == b[7] && a[16..24] == b[16..24]
    ensures ReadU32(a, 24) == ReadU32(b, 24) && ReadU32(a, 28) == ReadU32(b, 28)
  {
    SameSlice(a, b, 32, 0, 4);
    SameSlice(a, b, 32, 4, 6);
    SameSlice(a, b, 32, 8, 12);
    SameSlice(a, b, 32, 12, 16);
    SameSlice(a, b, 32, 16, 24);
    SameSlice(a, b, 32, 24, 28);
    SameSlice(a, b, 32, 28, 32);
    assert a[6] == a[..32][6] && a[7] == a[..32][7];
    assert b[6] == b[..32][6] && b[7] == b[..32][7];
  }

  lemma DecodeDependsOnFrameOnly(buf: Bytes, other: Bytes, limits: FormatLimits)
    requires DecodedFrame(buf, limits).Ok? && DecodedFrame(buf, limits).value.Some?
    requires var n := DecodedFrame(buf, limits).value.value.consumed; n <= |other| && other[..n] == buf[..n]
    ensures DecodedFrame(other, limits) == DecodedFrame(buf, limits)
  {
    hide DecodedEnvelope, FrameCrc, FromBytes;
    var n := DecodedFrame(buf, limits).value.value.consumed;
    SameSlice(other, buf, n, 0, 32);
    assert other[..32] == other[0..32] && buf[..32] == buf[0..32];
    SameHeader(other, buf, limits);
    var h := HeaderLengths(buf, limits).value;
    SameSlice(other, buf, n, 32, 32 + h.1);
    SameSlice(other, buf, n, 32 + h.1, n);
  }

  /** Nor does a decoder that fails: once a buffer is as long as its header says, longer
      ones decode alike, errors included. */
  lemma DecodeReadsTotal(buf: Bytes, longer: Bytes, limits: FormatLimits)
    requires buf <= longer && FrameTotalLen(buf, limits).Ok? && FrameTotalLen(buf, limits).value.Some?
    requires FrameTotalLen(buf, limits).value.value <= |buf|
    ensures DecodedFrame(buf, limits) == DecodedFrame(longer, limits)
  {
    hide DecodedEnvelope, FrameCrc, FromBytes;
    assert buf[..32] == longer[..32];
    SameHeader(buf, longer, limits);
    var n := FrameTotalLen(buf, limits).value.value;
    if HeaderLengths(buf, limits).Ok? {
      var h := HeaderLengths(buf, limits).value;
      SameSlice(buf, longer, n, 32, 32 + h.1);
      SameSlice(buf, longer, n, 32 + h.1, n);
      SameSlice(buf, longer, n, 0, n);
      assert buf[0..n] == buf[..n] && longer[0..n] == longer[..n];
    }
  }

  /** A torn frame is incomplete, never corrupt. */
  lemma StrictPrefixIsIncomplete(buf: Bytes, k: nat, limits: FormatLimits)
    requires DecodedFrame(buf, limits).Ok? && DecodedFrame(buf, limits).value.Some?
    requires k < DecodedFrame(buf, limits).value.value.consumed
    ensures DecodedFrame(buf[..k], limits) == Ok(None)
  {
    if k >= 32 {
      assert buf[..k][..32] == buf[..32];
      SameHeader(buf[..k], buf, limits);
    }
  }

  /** The header probe and the full decoder agree on where a frame ends. */
  lemma ProbeAgreesWithDecode(buf: Bytes, limits: FormatLimits)
    ensures DecodedFrame(buf, limits).Ok? && DecodedFrame(buf, limits).value.Some?
      ==> FrameTotalLen(buf, limits) == Ok(Some(DecodedFrame(buf, limits).value.value.consumed))
    ensures DecodedFrame(buf, limits) == Ok(None) ==>
      || FrameTotalLen(buf, limits) == Ok(None)
      || (FrameTotalLen(buf, limits).Ok? && FrameTotalLen(buf, limits).value.value > |buf|)
    ensures FrameTotalLen(buf, limits).Err? ==> DecodedFrame(buf, limits) == Err(FrameTotalLen(buf, limits).error)
    ensures DecodedFrame(buf, limits).Err? ==>
      || FrameTotalLen(buf, limits) == Err(DecodedFrame(buf, limits).error)
      || (FrameTotalLen(buf, limits).Ok? && FrameTotalLen(buf, limits).value.Some?)
  {
    hide DecodedEnvelope, FrameCrc, FromBytes, ReadU32;
  }

  /** The probe looks at the header only. */
  lemma ProbeReadsHeader(a: Bytes, b: Bytes, limits: FormatLimits)
    requires |a| >= FRAME_HEADER_LEN && |b| >= FRAME_HEADER_LEN && a[..32] == b[..32]
    ensures FrameTotalLen(a, limits) == FrameTotalLen(b, limits)
  {
    hide FromBytes;
    SameSlice(a, b, 32, 0, 4);
    SameSlice(a, b, 32, 4, 6);
    SameSlice(a, b, 32, 8, 12);
    SameSlice(a, b, 32, 12, 16);
    assert a[6] == a[..32][6] && a[7] == a[..32][7];
    assert b[6] == b[..32][6] && b[7] == b[..32][7];
  }

  // ── what one field writer wrote, the matching reader takes back ───────

  lemma TakeBack(a: Bytes, rest: Bytes)
    ensures TakeBytes(a + rest, |a|) == Ok(Parsed(a, rest))
  {
    assert (a + rest)[..|a|] == a && (a + rest)[|a|..] == rest;
  }

  lemma TakeBackId(id: Id, rest: Bytes)
    ensures TakeId(id + rest) == Ok(Parsed(id, rest))
  {
    TakeBack(id, rest);
  }

  lemma TakeBackUint(value: nat, width: nat, rest: Bytes)
    requires value < Pow256(width)
    ensures TakeUint(ToBytes(value, width) + rest, width) == Ok(Parsed(value, rest))
  {
    TakeBack(ToBytes(value, width), rest);
    FromToBytes(value, width);
  }

  lemma TakeBackU16(value: u16, rest: Bytes)
    ensures TakeU16(ToBytes(value, 2) + rest) == Ok(Parsed(value, rest))
  {
    PowersOf256();
    TakeBackUint(value, 2, rest);
  }

  lemma TakeBackU32(value: u32, rest: Bytes)
    ensures TakeU32(ToBytes(value, 4) + rest) == Ok(Parsed(value, rest))
  {
    PowersOf256();
    TakeBackUint(value, 4, rest);
  }

  lemma TakeBackU64(value: u64, rest: Bytes)
    ensures TakeU64(ToBytes(value, 8) + rest) == Ok(Parsed(value, rest))
  {
    PowersOf256();
    TakeBackUint(value, 8, rest);
  }

  lemma TakeBackShort(b: Bytes, maximum: nat, rest: Bytes)
    requires ShortBytes(b).Ok? && |b| <= maximum
    ensures TakeShort(ShortBytes(b).value + rest, maximum) == Ok(Parsed(b, rest))
  {
    assert ShortBytes(b).value + rest == ToBytes(|b|, 2) + (b + rest);
    TakeBackU16(|b|, b + rest);
    TakeBack(b, rest);
  }

  lemma TakeBackEntry(e: Entry, limits: FormatLimits, rest: Bytes)
    requires EncodedEntry(e, limits).Ok? && Utf8(e.key)
    ensures TakeEntry(EncodedEntry(e, limits).value + rest, limits) == Ok(Parsed(e, rest))
  {
    hide TakeShort, TakeU32, TakeBytes, ToBytes, ValidateMetadataKey, Utf8;
    var key := ShortBytes(e.key).value;
    var tail := ToBytes(|e.value|, 4) + (e.value + rest);
    assert EncodedEntry(e, limits).value + rest == key + tail;
    TakeBackShort(e.key, limits.maxMetadataKeyBytes, tail);
    TakeBackU32(|e.value|, e.value + rest);
    TakeBack(e.value, rest);
  }

  lemma NextEncoded(m: seq<Entry>, limits: FormatLimits)
    requires EncodedMetadata(m, limits).Ok?
    ensures m == [] ==> EncodedMetadata(m, limits) == Ok([])
    ensures m != [] ==>
      && EncodedEntry(m[0], limits).Ok? && EncodedMetadata(m[1..], limits).Ok?
      && EncodedMetadata(m, limits) == Ok(EncodedEntry(m[0], limits).value + EncodedMetadata(m[1..], limits).value)
  {
    hide EncodedEntry;
  }

  lemma {:induction false} TakeBackMetadata(m: Metadata, i: nat, limits: FormatLimits, rest: Bytes)
    requires i <= |m| && EncodedMetadata(m[i..], limits).Ok?
    ensures KeysAscending(m[..i])
    ensures TakeMetadata(EncodedMetadata(m[i..], limits).value + rest, |m| - i, limits, m[..i]) == Ok(Parsed(m, rest))
    decreases |m| - i
  {
    hide TakeEntry, EncodedEntry, EncodedMetadata, Inserted, Utf8, Lexicographic.Less;
    NextEncoded(m[i..], limits);
    if i == |m| {
      assert m[..i] == m;
      assert EncodedMetadata(m[i..], limits).value + rest == rest;
    } else {
      var head := EncodedEntry(m[i], limits).value;
      var tail := EncodedMetadata(m[i + 1..], limits);
      assert m[i..][1..] == m[i + 1..];
      assert EncodedMetadata(m[i..], limits).value + rest == head + (tail.value + rest);
      assert m[i] in m;
      TakeBackEntry(m[i], limits, tail.value + rest);
      InsertedAtEnd(m[..i], m[i]);
      assert m[..i] + [m[i]] == m[..i + 1];
      TakeBackMetadata(m, i + 1, limits, rest);
    }
  }

  lemma TimestampRoundTrip(t: i64)
    ensures ToI64(FromI64(t)) == t
  {
  }

  lemma EnvelopeRoundTrip(e: Envelope, limits: FormatLimits)
    requires EncodedEnvelope(e, limits).Ok?
    ensures DecodedEnvelope(EncodedEnvelope(e, limits).value, limits) == Ok(e)
  {
    hide TakeId, TakeU16, TakeU32, TakeU64, TakeShort, TakeMetadata, EncodedMetadata, ShortBytes, ToBytes;
    var eventType := ShortBytes(e.eventType).value;
    var metadata := EncodedMetadata(e.metadata, limits).value;
    var count := ToBytes(|e.metadata|, 2) + metadata;
    var batchIndex := ToBytes(e.batchIndex, 4) + count;
    var batchId := e.batchId + batchIndex;
    var codec := ToBytes(e.codec, 4) + batchId;
    var schema := ToBytes(e.schemaVersion, 4) + codec;
    var typed := eventType + schema;
    var timestamp := ToBytes(FromI64(e.timestamp), 8) + typed;
    var revision := ToBytes(e.revision, 8) + timestamp;
    var streamId := e.streamId + revision;
    var branchId := e.branchId + streamId;
    var databaseId := e.databaseId + branchId;
    var eventId := e.eventId + databaseId;
    assert EncodedEnvelope(e, limits).value == ToBytes(ENVELOPE_VERSION, 2) + eventId;
    TakeBackU16(ENVELOPE_VERSION, eventId);
    TakeBackId(e.eventId, databaseId);
    TakeBackId(e.databaseId, branchId);
    TakeBackId(e.branchId, streamId);
    TakeBackId(e.streamId, revision);
    TakeBackU64(e.revision, timestamp);
    TakeBackU64(FromI64(e.timestamp), typed);
    TakeBackShort(e.eventType, limits.maxEventTypeBytes, schema);
    TakeBackU32(e.schemaVersion, codec);
    TakeBackU32(e.codec, batchId);
    TakeBackId(e.batchId, batchIndex);
    TakeBackU32(e.batchIndex, count);
    TakeBackU16(|e.metadata|, metadata);
    assert e.metadata[0..] == e.metadata && e.metadata[..0] == [];
    assert metadata + [] == metadata;
    TakeBackMetadata(e.metadata, 0, limits, []);
    TimestampRoundTrip(e.timestamp);
  }

  lemma HeaderFields(kind: FrameKind, envelopeLen: u32, payloadLen: u32, position: u64, crc: u32, body: Bytes, limits: FormatLimits)
    requires envelopeLen <= limits.maxEnvelopeBytes && payloadLen <= limits.maxPayloadBytes
    ensures var f := Header(kind, 0, envelopeLen, payloadLen, position, crc) + body;
      && HeaderLengths(f, limits) == Ok((kind, envelopeLen as nat, payloadLen as nat))
      && f[7] == 0 && FromBytes(f[16..24]) == position
      && ReadU32(f, 24) == crc && ReadU32(f, 28) == 0
  {
    hide ToBytes, FromBytes;
    var f := Header(kind, 0, envelopeLen, payloadLen, position, crc) + body;
    PowersOf256();
    assert f[0..4] == FRAME_MAGIC;
    assert f[4..6] == ToBytes(FRAME_VERSION, 2);
    FromToBytes(FRAME_VERSION, 2);
    assert f[8..12] == ToBytes(envelopeLen, 4);
    FromToBytes(envelopeLen, 4);
    assert f[12..16] == ToBytes(payloadLen, 4);
    FromToBytes(payloadLen, 4);
    assert f[16..24] == ToBytes(position, 8);
    FromToBytes(position, 8);
    assert f[24..28] == ToBytes(crc, 4);
    FromToBytes(crc, 4);
    assert f[28..32] == ToBytes(0, 4);
    FromToBytes(0, 4);
  }

  /** Header fields other than the checksum do not depend on the checksum. */
  lemma CrcCoversAllButItself(kind: FrameKind, flags: byte, envelopeLen: u32, payloadLen: u32, position: u64, crc: u32, body: Bytes)
    ensures FrameCrc(Header(kind, flags, envelopeLen, payloadLen, position, crc) + body)
         == FrameCrc(Header(kind, flags, envelopeLen, payloadLen, position, 0) + body)
  {
    var f := Header(kind, flags, envelopeLen, payloadLen, position, crc) + body;
    var g := Header(kind, flags, envelopeLen, payloadLen, position, 0) + body;
    assert f[..24] == g[..24] && f[28..] == g[28..];
  }

  /** What was encoded decodes back, whatever bytes follow it. */
  lemma FrameRoundTrip(r: Record, limits: FormatLimits, rest: Bytes)
    requires EncodedFrame(r, limits).Ok?
    ensures DecodedFrame(EncodedFrame(r, limits).value + rest, limits)
         == Ok(Some(Decoded(r, |EncodedFrame(r, limits).value|)))
  {
    hide DecodedEnvelope, EncodedEnvelope, FrameCrc, Header, HeaderLengths, ReadU32, FromBytes;
    var envelope := EncodedEnvelope(r.envelope, limits).value;
    var body := envelope + r.payload;
    var e, p := |envelope|, |r.payload|;
    var crc := FrameCrc(Header(r.kind, r.flags, e, p, r.position, 0) + body);
    var frame := EncodedFrame(r, limits).value;
    var buf := frame + rest;
    assert buf == Header(r.kind, 0, e, p, r.position, crc) + (body + rest);
    HeaderFields(r.kind, e, p, r.position, crc, body + rest, limits);
    assert buf[..32 + e + p] == frame;
    CrcCoversAllButItself(r.kind, r.flags, e, p, r.position, crc, body);
    assert buf[32..32 + e] == envelope;
    assert buf[32 + e..32 + e + p] == r.payload;
    EnvelopeRoundTrip(r.envelope, limits);
  }

  /** The three facts recovery rests on, for every valid record and every cut. */
  lemma FramesAreSelfDelimiting(r: Record, limits: FormatLimits, k: nat, rest: Bytes)
    requires EncodedFrame(r, limits).Ok? && k < |EncodedFrame(r, limits).value|
    ensures var f := EncodedFrame(r, limits).value;
      && DecodedFrame(f + rest, limits) == Ok(Some(Decoded(r, |f|)))
      && DecodedFrame(f[..k], limits) == Ok(None)
      && FrameTotalLen(f + rest, limits) == Ok(Some(|f|))
  {
    var f := EncodedFrame(r, limits).value;
    FrameRoundTrip(r, limits, rest);
    FrameRoundTrip(r, limits, []);
    assert f + [] == f;
    StrictPrefixIsIncomplete(f, k, limits);
    ProbeAgreesWithDecode(f + rest, limits);
  }

  // ── what a frame's checksum notices ────────────────────────────────────

  /** Two frames that differ at one byte and nowhere else. */
  predicate OneByteOff(a: Bytes, b: Bytes, i: nat) {
    |a| == |b| && i < |a| && a[i] != b[i] && a[..i] == b[..i] && a[i + 1..] == b[i + 1..]
  }

  lemma CrcIsOneFold(frame: Bytes)
    requires |frame| >= FRAME_HEADER_LEN
    ensures FrameCrc(frame) == Crc.ALL_ONES - Crc.Update(Crc.ALL_ONES, frame[..24] + frame[28..])
  {
    hide Crc.Update;
    Crc.UpdateConcat(Crc.ALL_ONES, frame[..24], frame[28..]);
  }

  /** The checksum notices a change of any one byte outside its own field. */
  lemma CrcNoticesOneByte(a: Bytes, b: Bytes, i: nat)
    requires |a| >= FRAME_HEADER_LEN && OneByteOff(a, b, i) && !(24 <= i < 28)
    ensures FrameCrc(a) != FrameCrc(b)
  {
    hide FrameCrc, Crc.Update;
    CrcIsOneFold(a);
    CrcIsOneFold(b);
    var at := if i < 24 then i else i - 4;
    var s, t := a[..24] + a[28..], b[..24] + b[28..];
    ByteOfFold(a, b, i, at);
    if FrameCrc(a) == FrameCrc(b) {
      assert s == s[..at] + [s[at]] + s[at + 1..] && t == s[..at] + [t[at]] + s[at + 1..];
      Crc.OneByteTells(Crc.ALL_ONES, s[..at], s[at], t[at], s[at + 1..]);
    }
  }

  lemma ByteOfFold(a: Bytes, b: Bytes, i: nat, at: nat)
    requires |a| >= FRAME_HEADER_LEN && OneByteOff(a, b, i) && !(24 <= i < 28) && at == (if i < 24 then i else i - 4)
    ensures OneByteOff(a[..24] + a[28..], b[..24] + b[28..], at)
  {
    var s, t := a[..24] + a[28..], b[..24] + b[28..];
    SameBut(a, b, i);
    forall j | 0 <= j < |s| && j != at ensures s[j] == t[j] {
      assert s[j] == a[if j < 24 then j else j + 4] && t[j] == b[if j < 24 then j else j + 4];
    }
    assert s[at] == a[i] && t[at] == b[i];
    assert s[..at] == t[..at] && s[at + 1..] == t[at + 1..];
  }

  lemma SameBut(a: Bytes, b: Bytes, i: nat)
    requires OneByteOff(a, b, i)
    ensures forall j :: 0 <= j < |a| && j != i ==> a[j] == b[j]
  {
    forall j | 0 <= j < |a| && j != i ensures a[j] == b[j] {
      if j < i {
        assert a[..i][j] == b[..i][j];
      } else {
        assert a[i + 1..][j - i - 1] == b[i + 1..][j - i - 1];
      }
    }
  }

  /** A DAMAGED BYTE IS REFUSED: change any one byte of a frame, its two length fields apart,
      and it decodes to an error, whatever follows it. */
  lemma DamagedByteIsRefused(frame: Bytes, other: Bytes, i: nat, rest: Bytes, limits: FormatLimits)
    requires DecodedFrame(frame, limits).Ok? && DecodedFrame(frame, limits).value.Some?
    requires DecodedFrame(frame, limits).value.value.consumed == |frame|
    requires OneByteOff(frame, other, i) && !(8 <= i < 16)
    ensures DecodedFrame(other + rest, limits).Err?
    ensures FrameTotalLen(other + rest, limits).Ok? ==> FrameTotalLen(other + rest, limits) == Ok(Some(|frame|))
  {
    hide DecodedEnvelope, FrameCrc, FromBytes;
    var buf := other + rest;
    SameBut(frame, other, i);
    SameLengths(frame, buf, i, limits);
    if HeaderLengths(buf, limits).Ok? {
      assert buf[..|frame|] == other;
      assert frame[..|frame|] == frame;
      StoredCrc(frame, other, rest, i);
      if !(24 <= i < 28) {
        CrcNoticesOneByte(frame, other, i);
      } else {
        SameFold(frame, other, i);
      }
    }
  }

  lemma SameLengths(frame: Bytes, buf: Bytes, i: nat, limits: FormatLimits)
    requires |frame| >= FRAME_HEADER_LEN && |buf| >= FRAME_HEADER_LEN && !(8 <= i < 16)
    requires forall j :: 0 <= j < FRAME_HEADER_LEN && j != i ==> frame[j] == buf[j]
    ensures ReadU32(frame, 8) == ReadU32(buf, 8) && ReadU32(frame, 12) == ReadU32(buf, 12)
    ensures HeaderLengths(frame, limits).Ok? && HeaderLengths(buf, limits).Ok? ==>
      HeaderLengths(frame, limits).value.1 == HeaderLengths(buf, limits).value.1 && HeaderLengths(frame, limits).value.2 == HeaderLengths(buf, limits).value.2
  {
    hide FromBytes;
    assert frame[8..8 + 4] == buf[8..8 + 4];
    assert frame[12..12 + 4] == buf[12..12 + 4];
  }

  lemma StoredCrc(frame: Bytes, other: Bytes, rest: Bytes, i: nat)
    requires |frame| >= FRAME_HEADER_LEN && OneByteOff(frame, other, i)
    ensures ReadU32(frame, 24) == ReadU32(other + rest, 24) <==> !(24 <= i < 28)
  {
    hide FromBytes, ToBytes;
    SameBut(frame, other, i);
    var buf := other + rest;
    if 24 <= i < 28 {
      ToFromBytes(frame[24..24 + 4]);
      ToFromBytes(buf[24..24 + 4]);
      assert frame[24..24 + 4][i - 24] != buf[24..24 + 4][i - 24];
    } else {
      assert frame[24..24 + 4] == buf[24..24 + 4];
    }
  }

  lemma SameFold(frame: Bytes, other: Bytes, i: nat)
    requires |frame| >= FRAME_HEADER_LEN && OneByteOff(frame, other, i) && 24 <= i < 28
    ensures FrameCrc(frame) == FrameCrc(other)
  {
    SameBut(frame, other, i);
    assert frame[..24] == other[..24] && frame[28..] == other[28..];
  }
}
