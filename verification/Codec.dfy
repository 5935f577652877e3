/** The codec as the engine runs it: `EncodeEnvelope` and `Encode` push onto a
    growing buffer and patch the checksum in afterwards, `DecodeEnvelope`
    consumes a cursor. Each computes the frame function of module `Format`. */
module Codec {
  import opened Base
  import opened LittleEndian
  import opened Format

  function After(done: Bytes, rest: Result<Bytes>): Result<Bytes> {
    match rest
    case Ok(tail) => Ok(done + tail)
    case Err(error) => Err(error)
  }

  method EncodeMetadata(m: Metadata, limits: FormatLimits, buffer: Bytes) returns (r: Result<Bytes>)
    ensures r == After(buffer, EncodedMetadata(m, limits))
  {
    hide EncodedEntry;
    var out := buffer;
    var i := 0;
    assert m[0..] == m;
    while i < |m|
      invariant 0 <= i <= |m|
      invariant After(buffer, EncodedMetadata(m, limits)) == After(out, EncodedMetadata(m[i..], limits))
    {
      ghost var rest := EncodedMetadata(m[i + 1..], limits);
      assert m[i..][1..] == m[i + 1..];
      var entry :- EncodedEntry(m[i], limits);
      assert rest.Ok? ==> out + (entry + rest.value) == (out + entry) + rest.value;
      out := out + entry;
      i := i + 1;
    }
    assert out + [] == out;
    return Ok(out);
  }

  method EncodeEnvelope(e: Envelope, limits: FormatLimits) returns (r: Result<Bytes>)
    ensures r == EncodedEnvelope(e, limits)
  {
    hide ToBytes, EncodedMetadata;
    var _ :- EnforceLimit(|e.eventType|, limits.maxEventTypeBytes);
    var _ :- EnforceLimit(|e.metadata|, limits.maxMetadataEntries);
    var out := ToBytes(ENVELOPE_VERSION, 2);
    out := out + e.eventId;
    out := out + e.databaseId;
    out := out + e.branchId;
    out := out + e.streamId;
    out := out + ToBytes(e.revision, 8);
    out := out + ToBytes(FromI64(e.timestamp), 8);
    var eventType :- ShortBytes(e.eventType);
    out := out + eventType;
    out := out + ToBytes(e.schemaVersion, 4);
    out := out + ToBytes(e.codec, 4);
    out := out + e.batchId;
    out := out + ToBytes(e.batchIndex, 4);
    out := out + ToBytes(|e.metadata|, 2);
    r := EncodeMetadata(e.metadata, limits, out);
    if r.Ok? {
      assert r.value == EncodedEnvelope(e, limits).value;
    }
  }

  method Encode(record: Record, limits: FormatLimits) returns (r: Result<Bytes>)
    ensures r == EncodedFrame(record, limits)
  {
    hide EncodedEnvelope, FrameCrc, ToBytes;
    var _ :- ValidateFlags(record.flags);
    var _ :- EnforceLimit(|record.payload|, limits.maxPayloadBytes);
    var envelope :- EncodeEnvelope(record.envelope, limits);
    var _ :- EnforceLimit(|envelope|, limits.maxEnvelopeBytes);
    var out := FRAME_MAGIC;
    out := out + ToBytes(FRAME_VERSION, 2);
    out := out + [KindByte(record.kind)];
    out := out + [record.flags];
    out := out + ToBytes(|envelope|, 4);
    out := out + ToBytes(|record.payload|, 4);
    out := out + ToBytes(record.position, 8);
    ghost var head := out;
    out := out + ToBytes(0, 4);
    out := out + ToBytes(0, 4);
    out := out + envelope;
    out := out + record.payload;
    assert out == Header(record.kind, record.flags, |envelope|, |record.payload|, record.position, 0) + (envelope + record.payload);
    var crc := FrameCrc(out);
    assert out[..24] == head && out[28..] == ToBytes(0, 4) + (envelope + record.payload);
    out := out[..24] + ToBytes(crc, 4) + out[28..];
    assert out == Header(record.kind, record.flags, |envelope|, |record.payload|, record.position, crc) + (envelope + record.payload);
    return Ok(out);
  }

  /** A consuming view of an envelope's bytes. */
  class Cursor {
    var remaining: Bytes

    constructor (bytes: Bytes)
      ensures remaining == bytes
    {
      remaining := bytes;
    }

    /** A read hands out exactly what the pure reader `p` yields; a failed read consumes nothing. */
    ghost predicate Advanced<T>(before: Bytes, p: Result<Parsed<T>>, r: Result<T>)
      reads this
    {
      match p
      case Ok(parsed) => r == Ok(parsed.value) && remaining == parsed.rest
      case Err(error) => r == Err(error)
    }

    method Take(len: nat) returns (r: Result<Bytes>)
      modifies this
      ensures Advanced(old(remaining), TakeBytes(old(remaining), len), r)
    {
      if |remaining| < len {
        return Err(InvalidFormat);
      }
      var head := remaining[..len];
      remaining := remaining[len..];
      return Ok(head);
    }

    method IdArray() returns (r: Result<Id>)
      modifies this
      ensures Advanced(old(remaining), TakeId(old(remaining)), r)
    {
      var b :- Take(16);
      return Ok(b);
    }

    method U16() returns (r: Result<u16>)
      modifies this
      ensures Advanced(old(remaining), TakeU16(old(remaining)), r)
    {
      var b :- Take(2);
      PowersOf256();
      return Ok(FromBytes(b));
    }

    method U32() returns (r: Result<u32>)
      modifies this
      ensures Advanced(old(remaining), TakeU32(old(remaining)), r)
    {
      var b :- Take(4);
      PowersOf256();
      return Ok(FromBytes(b));
    }

    method U64() returns (r: Result<u64>)
      modifies this
      ensures Advanced(old(remaining), TakeU64(old(remaining)), r)
    {
      var b :- Take(8);
      PowersOf256();
      return Ok(FromBytes(b));
    }

    method ShortByteString(maximum: nat) returns (r: Result<Bytes>)
      modifies this
      ensures Advanced(old(remaining), TakeShort(old(remaining), maximum), r)
    {
      var len :- U16();
      var _ :- EnforceLimit(len, maximum);
      r := Take(len);
    }
  }

  method DecodeEntry(cursor: Cursor, limits: FormatLimits) returns (r: Result<Entry>)
    modifies cursor
    ensures cursor.Advanced(old(cursor.remaining), TakeEntry(old(cursor.remaining), limits), r)
  {
    hide TakeU32, TakeShort, TakeBytes, Utf8;
    var key :- cursor.ShortByteString(limits.maxMetadataKeyBytes);
    if !Utf8(key) {
      return Err(InvalidFormat);
    }
    var _ :- ValidateMetadataKey(key);
    var len :- cursor.U32();
    var _ :- EnforceLimit(len, limits.maxMetadataValueBytes);
    var value :- cursor.Take(len);
    return Ok(Entry(key, value));
  }

  method DecodeMetadata(cursor: Cursor, count: nat, limits: FormatLimits) returns (r: Result<Metadata>)
    modifies cursor
    ensures cursor.Advanced(old(cursor.remaining), TakeMetadata(old(cursor.remaining), count, limits, []), r)
  {
    hide TakeEntry, Inserted;
    var metadata: Metadata := [];
    var i := 0;
    while i < count
      invariant 0 <= i <= count
      invariant TakeMetadata(old(cursor.remaining), count, limits, [])
             == TakeMetadata(cursor.remaining, count - i, limits, metadata)
    {
      var entry :- DecodeEntry(cursor, limits);
      InsertedKeepsOrder(metadata, entry);
      var larger := Inserted(metadata, entry);
      if larger.None? {
        return Err(InvalidFormat);
      }
      metadata := larger.value;
      i := i + 1;
    }
    return Ok(metadata);
  }

  method DecodeEnvelope(buf: Bytes, limits: FormatLimits) returns (r: Result<Envelope>)
    ensures r == DecodedEnvelope(buf, limits)
  {
    hide TakeId, TakeU16, TakeU32, TakeU64, TakeShort, TakeMetadata, Utf8;
    var cursor := new Cursor(buf);
    var version :- cursor.U16();
    if version != ENVELOPE_VERSION {
      return Err(InvalidFormat);
    }
    var eventId :- cursor.IdArray();
    var databaseId :- cursor.IdArray();
    var branchId :- cursor.IdArray();
    var streamId :- cursor.IdArray();
    var revision :- cursor.U64();
    var timestamp :- cursor.U64();
    var eventType :- cursor.ShortByteString(limits.maxEventTypeBytes);
    if !Utf8(eventType) || eventType == [] || 0 in eventType {
      return Err(InvalidFormat);
    }
    var schemaVersion :- cursor.U32();
    var codec :- cursor.U32();
    var batchId :- cursor.IdArray();
    var batchIndex :- cursor.U32();
    var count :- cursor.U16();
    var _ :- EnforceLimit(count, limits.maxMetadataEntries);
    var metadata :- DecodeMetadata(cursor, count, limits);
    if cursor.remaining != [] {
      return Err(InvalidFormat);
    }
    return Ok(Envelope(eventId, databaseId, branchId, streamId, revision, ToI64(timestamp), eventType,
                       schemaVersion, codec, batchId, batchIndex, metadata));
  }
}
