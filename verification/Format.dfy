/** The stable frame format: a 32-byte header, an engine envelope and an opaque
    payload, protected by one CRC32C. `EncodedFrame` and `DecodedFrame` say what
    the bytes are; the methods below compute them the way the engine does, by
    pushing to a growing buffer and by consuming a cursor. */
module Format {
  import opened Base
  import opened LittleEndian
  import Lexicographic
  import Crc

  const FRAME_MAGIC: Bytes := [0x53, 0x44, 0x42, 0x32]
  const FRAME_VERSION: u16 := 2
  const FRAME_HEADER_LEN := 32
  const ENVELOPE_VERSION: u16 := 1
  const RESERVED_METADATA_PREFIX: Bytes := Ascii("salamander.")

  /** The bytes of an ASCII literal. */
  function Ascii(s: string): Bytes {
    seq(|s|, i requires 0 <= i < |s| => s[i] as int % 0x80)
  }

  // ── the record ─────────────────────────────────────────────────────────

  datatype FrameKind = Event | System | BatchBegin | BatchCommit

  function KindByte(kind: FrameKind): byte {
    match kind
    case Event => 1
    case System => 2
    case BatchBegin => 3
    case BatchCommit => 4
  }

  function KindOf(b: byte): Result<FrameKind> {
    if b == 1 then Ok(Event)
    else if b == 2 then Ok(System)
    else if b == 3 then Ok(BatchBegin)
    else if b == 4 then Ok(BatchCommit)
    else Err(InvalidFormat)
  }

  /** Well-formed UTF-8 (RFC 3629 section 4). */
  predicate Utf8(s: Bytes) {
    s == []
    || (s[0] < 0x80 && Utf8(s[1..]))
    || (|s| >= 2 && 0xC2 <= s[0] <= 0xDF && Continuation(s[1]) && Utf8(s[2..]))
    || (|s| >= 3 && ThreeByteLead(s[0], s[1]) && Continuation(s[2]) && Utf8(s[3..]))
    || (|s| >= 4 && FourByteLead(s[0], s[1]) && Continuation(s[2]) && Continuation(s[3]) && Utf8(s[4..]))
  }

  predicate Continuation(b: byte) {
    0x80 <= b <= 0xBF
  }

  predicate ThreeByteLead(a: byte, b: byte) {
    || (a == 0xE0 && 0xA0 <= b <= 0xBF)
    || (0xE1 <= a <= 0xEC && Continuation(b))
    || (a == 0xED && 0x80 <= b <= 0x9F)
    || (0xEE <= a <= 0xEF && Continuation(b))
  }

  predicate FourByteLead(a: byte, b: byte) {
    || (a == 0xF0 && 0x90 <= b <= 0xBF)
    || (0xF1 <= a <= 0xF3 && Continuation(b))
    || (a == 0xF4 && 0x80 <= b <= 0x8F)
  }

  /** A nonempty UTF-8 string without NUL. */
  type EventType = s: Bytes | s != [] && 0 !in s && Utf8(s) witness [0x61]

  datatype Entry = Entry(key: Bytes, value: Bytes)

  ghost predicate KeysAscending(m: seq<Entry>) {
    forall i, j :: 0 <= i < j < |m| ==> Lexicographic.Less(m[i].key, m[j].key)
  }

  /** A `BTreeMap<String, Vec<u8>>`: string keys in ascending order. */
  type Metadata = m: seq<Entry> | KeysAscending(m) && forall e :: e in m ==> Utf8(e.key)

  datatype Envelope = Envelope(
    eventId: Id,
    databaseId: Id,
    branchId: Id,
    streamId: Id,
    revision: u64,
    timestamp: i64,
    eventType: EventType,
    schemaVersion: u32,
    codec: u32,
    batchId: Id,
    batchIndex: u32,
    metadata: Metadata)

  datatype Record = Record(kind: FrameKind, flags: byte, position: u64, envelope: Envelope, payload: Bytes)

  datatype FormatLimits = FormatLimits(
    maxEnvelopeBytes: u32,
    maxPayloadBytes: u32,
    maxMetadataEntries: u16,
    maxMetadataKeyBytes: u16,
    maxMetadataValueBytes: u32,
    maxEventTypeBytes: u16)

  const DEFAULT_LIMITS := FormatLimits(1024 * 1024, 16 * 1024 * 1024, 256, 1024, 64 * 1024, 1024)

  // ── map operations on metadata ─────────────────────────────────────────

  /** `BTreeMap::insert` of a key that must be new; `None` when it is present. */
  function Inserted(m: seq<Entry>, e: Entry): (r: Option<seq<Entry>>)
  {
    if m == [] then Some([e])
    else if m[0].key == e.key then None
    else if Lexicographic.Less(e.key, m[0].key) then Some([e] + m)
    else match Inserted(m[1..], e)
      case None => None
      case Some(rest) => Some([m[0]] + rest)
  }

  lemma {:induction false} InsertedKeepsOrder(m: seq<Entry>, e: Entry)
    requires KeysAscending(m)
    ensures Inserted(m, e).Some? ==> KeysAscending(Inserted(m, e).value)
    ensures Inserted(m, e).Some? ==> forall x :: x in Inserted(m, e).value <==> x == e || x in m
    ensures Inserted(m, e).None? <==> exists x :: x in m && x.key == e.key
  {
    if m != [] {
      InsertedKeepsOrder(m[1..], e);
      assert m == [m[0]] + m[1..];
      if m[0].key == e.key {
        assert m[0] in m;
      } else if Lexicographic.Less(e.key, m[0].key) {
        forall j | 0 <= j < |m| ensures Lexicographic.Less(e.key, m[j].key) {
          if j > 0 { Lexicographic.Transitive(e.key, m[0].key, m[j].key); }
        }
        forall x | x in m ensures x.key != e.key { Lexicographic.Irreflexive(e.key); }
      } else {
        Lexicographic.Trichotomy(e.key, m[0].key);
        if Inserted(m, e).Some? {
          var rest := Inserted(m[1..], e).value;
          forall j | 0 <= j < |rest| ensures Lexicographic.Less(m[0].key, rest[j].key) {
            assert rest[j] in rest;
          }
        }
      }
    }
  }

  lemma {:induction false} InsertedAtEnd(m: seq<Entry>, e: Entry)
    requires forall i :: 0 <= i < |m| ==> Lexicographic.Less(m[i].key, e.key)
    ensures Inserted(m, e) == Some(m + [e])
  {
    if m != [] {
      InsertedAtEnd(m[1..], e);
      Lexicographic.Irreflexive(e.key);
      if Lexicographic.Less(e.key, m[0].key) {
        Lexicographic.Transitive(e.key, m[0].key, e.key);
      }
      assert [m[0]] + (m[1..] + [e]) == m + [e];
    } else {
      assert m + [e] == [e];
    }
  }

  // ── validation ─────────────────────────────────────────────────────────

  function EnforceLimit(actual: nat, maximum: nat): Result<()> {
    if actual > maximum then Err(ResourceLimit) else Ok(())
  }

  function ValidateFlags(flags: byte): Result<()> {
    if flags != 0 then Err(InvalidFormat) else Ok(())
  }

  predicate IsKnownReservedKey(key: Bytes) {
    || key == Ascii("salamander.stream_name")
    || key == Ascii("salamander.v1_offset")
    || key == Ascii("salamander.v1_namespace")
    || key == Ascii("salamander.batch_count")
    || key == Ascii("salamander.batch_digest")
    || key == Ascii("salamander.idempotency_key")
    || key == Ascii("salamander.request_digest")
  }

  function ValidateMetadataKey(key: Bytes): Result<()> {
    if key == [] || 0 in key then Err(InvalidFormat)
    else if RESERVED_METADATA_PREFIX <= key && !IsKnownReservedKey(key) then Err(InvalidFormat)
    else Ok(())
  }

  // ── encoding ───────────────────────────────────────────────────────────

  function ShortBytes(b: Bytes): Result<Bytes> {
    if |b| >= 0x1_0000 then Err(ResourceLimit) else Ok(ToBytes(|b|, 2) + b)
  }

  function EncodedEntry(e: Entry, limits: FormatLimits): Result<Bytes> {
    var _ :- ValidateMetadataKey(e.key);
    var _ :- EnforceLimit(|e.key|, limits.maxMetadataKeyBytes);
    var _ :- EnforceLimit(|e.value|, limits.maxMetadataValueBytes);
    var key :- ShortBytes(e.key);
    Ok(key + (ToBytes(|e.value|, 4) + e.value))
  }

  function EncodedMetadata(m: seq<Entry>, limits: FormatLimits): Result<Bytes> {
    if m == [] then Ok([])
    else
      var head :- EncodedEntry(m[0], limits);
      var tail :- EncodedMetadata(m[1..], limits);
      Ok(head + tail)
  }

  function EncodedEnvelope(e: Envelope, limits: FormatLimits): Result<Bytes> {
    var _ :- EnforceLimit(|e.eventType|, limits.maxEventTypeBytes);
    var _ :- EnforceLimit(|e.metadata|, limits.maxMetadataEntries);
    var eventType :- ShortBytes(e.eventType);
    var metadata :- EncodedMetadata(e.metadata, limits);
    Ok(ToBytes(ENVELOPE_VERSION, 2)
       + (e.eventId + (e.databaseId + (e.branchId + (e.streamId
       + (ToBytes(e.revision, 8) + (ToBytes(FromI64(e.timestamp), 8)
       + (eventType
       + (ToBytes(e.schemaVersion, 4) + (ToBytes(e.codec, 4)
       + (e.batchId + (ToBytes(e.batchIndex, 4)
       + (ToBytes(|e.metadata|, 2) + metadata)))))))))))))
  }

  function Header(kind: FrameKind, flags: byte, envelopeLen: nat, payloadLen: nat, position: u64, crc: u32): (h: Bytes)
    ensures |h| == FRAME_HEADER_LEN
  {
    FRAME_MAGIC + ToBytes(FRAME_VERSION, 2) + [KindByte(kind), flags]
    + ToBytes(envelopeLen, 4) + ToBytes(payloadLen, 4) + ToBytes(position, 8)
    + ToBytes(crc, 4) + ToBytes(0, 4)
  }

  function FrameCrc(frame: Bytes): u32
    requires |frame| >= FRAME_HEADER_LEN
  {
    Crc.Crc32cAppend(Crc.Crc32c(frame[..24]), frame[28..])
  }

  function EncodedFrame(r: Record, limits: FormatLimits): Result<Bytes> {
    var _ :- ValidateFlags(r.flags);
    var _ :- EnforceLimit(|r.payload|, limits.maxPayloadBytes);
    var envelope :- EncodedEnvelope(r.envelope, limits);
    var _ :- EnforceLimit(|envelope|, limits.maxEnvelopeBytes);
    var body := envelope + r.payload;
    var crc := FrameCrc(Header(r.kind, r.flags, |envelope|, |r.payload|, r.position, 0) + body);
    Ok(Header(r.kind, r.flags, |envelope|, |r.payload|, r.position, crc) + body)
  }

  // ── decoding ───────────────────────────────────────────────────────────

  datatype Parsed<+T> = Parsed(value: T, rest: Bytes)

  function TakeBytes(s: Bytes, n: nat): (r: Result<Parsed<Bytes>>)
    ensures r.Ok? ==> |r.value.value| == n
  {
    if |s| < n then Err(InvalidFormat) else Ok(Parsed(s[..n], s[n..]))
  }

  function TakeId(s: Bytes): Result<Parsed<Id>> {
    var p :- TakeBytes(s, 16);
    Ok(Parsed(p.value, p.rest))
  }

  function TakeUint(s: Bytes, width: nat): (r: Result<Parsed<nat>>)
    ensures r.Ok? ==> r.value.value < Pow256(width)
  {
    var p :- TakeBytes(s, width);
    Ok(Parsed(FromBytes(p.value), p.rest))
  }

  function TakeU16(s: Bytes): Result<Parsed<u16>> {
    PowersOf256();
    var p :- TakeUint(s, 2);
    Ok(Parsed(p.value, p.rest))
  }

  function TakeU32(s: Bytes): Result<Parsed<u32>> {
    PowersOf256();
    var p :- TakeUint(s, 4);
    Ok(Parsed(p.value, p.rest))
  }

  function TakeU64(s: Bytes): Result<Parsed<u64>> {
    PowersOf256();
    var p :- TakeUint(s, 8);
    Ok(Parsed(p.value, p.rest))
  }

  function TakeShort(s: Bytes, maximum: nat): Result<Parsed<Bytes>> {
    var len :- TakeU16(s);
    var _ :- EnforceLimit(len.value, maximum);
    TakeBytes(len.rest, len.value)
  }

  function TakeEntry(s: Bytes, limits: FormatLimits): (r: Result<Parsed<Entry>>)
    ensures r.Ok? ==> Utf8(r.value.value.key)
  {
    var key :- TakeShort(s, limits.maxMetadataKeyBytes);
    if !Utf8(key.value) then Err(InvalidFormat)
    else
      var _ :- ValidateMetadataKey(key.value);
      var len :- TakeU32(key.rest);
      var _ :- EnforceLimit(len.value, limits.maxMetadataValueBytes);
      var value :- TakeBytes(len.rest, len.value);
      Ok(Parsed(Entry(key.value, value.value), value.rest))
  }

  function TakeMetadata(s: Bytes, count: nat, limits: FormatLimits, m: Metadata): Result<Parsed<Metadata>>
    decreases count
  {
    if count == 0 then Ok(Parsed(m, s))
    else
      var entry :- TakeEntry(s, limits);
      InsertedKeepsOrder(m, entry.value);
      match Inserted(m, entry.value)
      case None => Err(InvalidFormat)
      case Some(larger) => TakeMetadata(entry.rest, count - 1, limits, larger)
  }

  function DecodedEnvelope(s: Bytes, limits: FormatLimits): Result<Envelope> {
    hide TakeId, TakeU16, TakeU32, TakeU64, TakeShort, TakeMetadata, Utf8;
    var version :- TakeU16(s);
    if version.value != ENVELOPE_VERSION then Err(InvalidFormat)
    else
      var eventId :- TakeId(version.rest);
      var databaseId :- TakeId(eventId.rest);
      var branchId :- TakeId(databaseId.rest);
      var streamId :- TakeId(branchId.rest);
      var revision :- TakeU64(streamId.rest);
      var timestamp :- TakeU64(revision.rest);
      var eventType :- TakeShort(timestamp.rest, limits.maxEventTypeBytes);
      if !Utf8(eventType.value) || eventType.value == [] || 0 in eventType.value then Err(InvalidFormat)
      else
        var schemaVersion :- TakeU32(eventType.rest);
        var codec :- TakeU32(schemaVersion.rest);
        var batchId :- TakeId(codec.rest);
        var batchIndex :- TakeU32(batchId.rest);
        var count :- TakeU16(batchIndex.rest);
        var _ :- EnforceLimit(count.value, limits.maxMetadataEntries);
        var metadata :- TakeMetadata(count.rest, count.value, limits, []);
        if metadata.rest != [] then Err(InvalidFormat)
        else Ok(Envelope(eventId.value, databaseId.value, branchId.value, streamId.value, revision.value,
                         ToI64(timestamp.value), eventType.value, schemaVersion.value, codec.value,
                         batchId.value, batchIndex.value, metadata.value))
  }

  function ReadU32(buf: Bytes, at: nat): u32
    requires at + 4 <= |buf|
  {
    PowersOf256();
    FromBytes(buf[at..at + 4])
  }

  /** The decoder's header checks. */
  function HeaderLengths(buf: Bytes, limits: FormatLimits): Result<(FrameKind, nat, nat)>
    requires |buf| >= FRAME_HEADER_LEN
  {
    if buf[0..4] != FRAME_MAGIC then Err(InvalidFormat)
    else if FromBytes(buf[4..6]) != FRAME_VERSION then Err(InvalidFormat)
    else
      var kind :- KindOf(buf[6]);
      var _ :- ValidateFlags(buf[7]);
      var envelopeLen, payloadLen := ReadU32(buf, 8), ReadU32(buf, 12);
      var _ :- EnforceLimit(envelopeLen, limits.maxEnvelopeBytes);
      var _ :- EnforceLimit(payloadLen, limits.maxPayloadBytes);
      Ok((kind, envelopeLen, payloadLen))
  }

  /** How many bytes the frame at the start of `buf` spans, read off the header. The probe
      repeats the checks of its own accord; the decoder does not call it. */
  function FrameTotalLen(buf: Bytes, limits: FormatLimits): Result<Option<nat>> {
    if |buf| < FRAME_HEADER_LEN then Ok(None)
    else if buf[0..4] != FRAME_MAGIC || FromBytes(buf[4..6]) != FRAME_VERSION then Err(InvalidFormat)
    else match KindOf(buf[6])
      case Err(error) => Err(error)
      case Ok(_) =>
        var _ :- ValidateFlags(buf[7]);
        var _ :- EnforceLimit(ReadU32(buf, 8), limits.maxEnvelopeBytes);
        var _ :- EnforceLimit(ReadU32(buf, 12), limits.maxPayloadBytes);
        Ok(Some(FRAME_HEADER_LEN + ReadU32(buf, 8) + ReadU32(buf, 12)))
  }

  datatype Decoded = Decoded(record: Record, consumed: nat)

  function DecodedFrame(buf: Bytes, limits: FormatLimits): Result<Option<Decoded>> {
    if |buf| < FRAME_HEADER_LEN then Ok(None)
    else
      var h :- HeaderLengths(buf, limits);
      PowersOf256();
      var position: u64 := FromBytes(buf[16..24]);
      if ReadU32(buf, 28) != 0 then Err(InvalidFormat)
      else
        var envelopeEnd := FRAME_HEADER_LEN + h.1;
        var total := envelopeEnd + h.2;
        if |buf| < total then Ok(None)
        else if ReadU32(buf, 24) != FrameCrc(buf[..total]) then Err(Corrupt(position))
        else
          var envelope :- DecodedEnvelope(buf[FRAME_HEADER_LEN..envelopeEnd], limits);
          Ok(Some(Decoded(Record(h.0, buf[7], position, envelope, buf[envelopeEnd..total]), total)))
  }
}
