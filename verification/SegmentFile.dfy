/** The active segment as an object: appends push whole units, `Open` truncates the
    file to what the record walk keeps. */
module SegmentFile {
  import opened Base
  import opened LittleEndian
  import opened Format
  import opened FormatLaws
  import opened RecordWalk
  import opened RecordWalkLaws
  import Codec
  import Crc
  import Lexicographic

  /** One event as the database hands it to the log. */
  datatype Draft = Draft(envelope: Envelope, payload: Bytes)

  // ── what an append writes ──────────────────────────────────────────────

  /** `BTreeMap::insert`: add the entry or replace the value under its key. */
  function Upserted(m: seq<Entry>, e: Entry): seq<Entry> {
    if m == [] then [e]
    else if m[0].key == e.key then [e] + m[1..]
    else if Lexicographic.Less(e.key, m[0].key) then [e] + m
    else [m[0]] + Upserted(m[1..], e)
  }

  lemma {:induction false} UpsertedKeepsOrder(m: seq<Entry>, e: Entry)
    requires KeysAscending(m)
    ensures KeysAscending(Upserted(m, e))
    ensures forall x :: x in Upserted(m, e) ==> x == e || x in m
  {
    if m != [] {
      UpsertedKeepsOrder(m[1..], e);
      assert m == [m[0]] + m[1..];
      if m[0].key != e.key {
        if Lexicographic.Less(e.key, m[0].key) {
          forall j | 0 <= j < |m| ensures Lexicographic.Less(e.key, m[j].key) {
            if j > 0 {
              Lexicographic.Transitive(e.key, m[0].key, m[j].key);
            }
          }
        } else {
          Lexicographic.Trichotomy(e.key, m[0].key);
          var rest := Upserted(m[1..], e);
          forall j | 0 <= j < |rest| ensures Lexicographic.Less(m[0].key, rest[j].key) {
            assert rest[j] in rest;
          }
        }
      }
    }
  }

  function Upsert(m: Metadata, e: Entry): Metadata
    requires Utf8(e.key)
  {
    UpsertedKeepsOrder(m, e);
    Upserted(m, e)
  }

  const BATCH_CONTROL_TYPE: Bytes := Ascii("salamander.batch-control")
  const BATCH_COUNT_KEY: Bytes := Ascii("salamander.batch_count")
  const BATCH_DIGEST_KEY: Bytes := Ascii("salamander.batch_digest")

  lemma {:induction false} AsciiIsUtf8(s: string)
    ensures Utf8(Ascii(s))
    ensures |Ascii(s)| == |s|
    ensures (forall c :: c in s ==> 0 < (c as int) < 0x80) ==> 0 !in Ascii(s)
  {
    if s != [] {
      AsciiIsUtf8(s[1..]);
      assert Ascii(s)[1..] == Ascii(s[1..]);
      assert forall c :: c in s[1..] ==> c in s;
      assert s[0] in s;
    }
  }

  lemma ControlStrings()
    ensures BATCH_CONTROL_TYPE != [] && 0 !in BATCH_CONTROL_TYPE && Utf8(BATCH_CONTROL_TYPE)
    ensures Utf8(BATCH_COUNT_KEY) && Utf8(BATCH_DIGEST_KEY)
  {
    hide Utf8, Ascii;
    AsciiIsUtf8("salamander.batch-control");
    AsciiIsUtf8("salamander.batch_count");
    AsciiIsUtf8("salamander.batch_digest");
    var s := "salamander.batch-control";
    forall c | c in s ensures 0 < c as int < 0x80 {
    }
  }

  function ControlEnvelope(first: Envelope, count: u32, digest: u32): Envelope {
    hide Ascii, Utf8, Upserted, ToBytes;
    ControlStrings();
    first.(eventType := BATCH_CONTROL_TYPE,
           batchIndex := count,
           metadata := Upsert(Upsert(first.metadata, Entry(BATCH_COUNT_KEY, ToBytes(count, 4))),
                              Entry(BATCH_DIGEST_KEY, ToBytes(digest, 4))))
  }

  function EncodedKind(kind: FrameKind, position: u64, envelope: Envelope, payload: Bytes): Result<Frame> {
    var rec := Record(kind, 0, position, envelope, payload);
    var bytes :- EncodedFrame(rec, DEFAULT_LIMITS);
    Ok(Frame(bytes, rec))
  }

  /** The event frames of a batch from its `index`-th event on. */
  function EncodedEvents(first: nat, drafts: seq<Draft>, index: nat): Result<seq<Frame>>
    requires index <= |drafts| && first + |drafts| < POSITIONS
    decreases |drafts| - index
  {
    if index == |drafts| then Ok([])
    else if drafts[index].envelope.batchIndex != index then Err(InvalidFormat)
    else
      var frame :- EncodedKind(Event, first + index, drafts[index].envelope, drafts[index].payload);
      var rest :- EncodedEvents(first, drafts, index + 1);
      Ok([frame] + rest)
  }

  function WrittenBatch(first: nat, drafts: seq<Draft>): Result<Unit>
    requires first + |drafts| < POSITIONS
  {
    hide EncodedKind, EncodedEvents, ControlEnvelope, Crc.Crc32c, BatchControlPayload, FrameBytes;
    if drafts == [] then Err(InvalidArgument)
    else if |drafts| >= 0x1_0000_0000 then Err(ResourceLimit)
    else
      var events :- EncodedEvents(first, drafts, 0);
      var digest := Crc.Crc32c(FrameBytes(events));
      var payload := BatchControlPayload(|drafts|, digest);
      var envelope := ControlEnvelope(drafts[0].envelope, |drafts|, digest);
      var begin :- EncodedKind(BatchBegin, first, envelope, payload);
      var commit :- EncodedKind(BatchCommit, first, envelope, payload);
      Ok(Batch(begin, events, commit))
  }

  predicate SameBatch(drafts: seq<Draft>) {
    forall i :: 0 <= i < |drafts| ==> drafts[i].envelope.batchId == drafts[0].envelope.batchId
  }

  lemma EncodedKindIsFrame(kind: FrameKind, position: u64, envelope: Envelope, payload: Bytes)
    requires EncodedKind(kind, position, envelope, payload).Ok?
    ensures var f := EncodedKind(kind, position, envelope, payload).value;
      IsFrame(f) && f.rec == Record(kind, 0, position, envelope, payload)
  {
    hide EncodedFrame, DecodedFrame;
    var rec := Record(kind, 0, position, envelope, payload);
    FrameRoundTrip(rec, DEFAULT_LIMITS, []);
    assert EncodedFrame(rec, DEFAULT_LIMITS).value + [] == EncodedFrame(rec, DEFAULT_LIMITS).value;
  }

  lemma {:induction false} EncodedEventsAreMembers(first: nat, drafts: seq<Draft>, index: nat)
    requires index <= |drafts| && first + |drafts| < POSITIONS
    requires EncodedEvents(first, drafts, index).Ok?
    ensures var fs := EncodedEvents(first, drafts, index).value;
      && |fs| == |drafts| - index
      && forall i :: 0 <= i < |fs| ==>
           && BatchMember(fs[i], first, index + i, drafts[index + i].envelope.batchId)
           && fs[i].rec == Record(Event, 0, first + index + i, drafts[index + i].envelope, drafts[index + i].payload)
    decreases |drafts| - index
  {
    hide IsFrame, EncodedKind;
    if index < |drafts| {
      EncodedEventsAreMembers(first, drafts, index + 1);
      EncodedKindIsFrame(Event, first + index, drafts[index].envelope, drafts[index].payload);
      var fs := EncodedEvents(first, drafts, index).value;
      var rest := EncodedEvents(first, drafts, index + 1).value;
      forall i | 0 <= i < |fs|
        ensures BatchMember(fs[i], first, index + i, drafts[index + i].envelope.batchId)
        ensures fs[i].rec == Record(Event, 0, first + index + i, drafts[index + i].envelope, drafts[index + i].payload)
      {
        if i > 0 {
          assert fs[i] == rest[i - 1];
        }
      }
    }
  }

  lemma ControlFrames(first: nat, drafts: seq<Draft>)
    requires first + |drafts| < POSITIONS
    requires WrittenBatch(first, drafts).Ok?
    ensures var u := WrittenBatch(first, drafts).value;
      && u.Batch? && 0 < |u.events| == |drafts| < 0x1_0000_0000
      && EncodedEvents(first, drafts, 0) == Ok(u.events)
      && IsFrame(u.begin) && u.begin.rec.kind == BatchBegin && u.begin.rec.position == first
      && IsFrame(u.commit) && u.commit.rec.kind == BatchCommit && u.commit.rec.position == first
      && u.begin.rec.envelope.batchId == u.commit.rec.envelope.batchId == drafts[0].envelope.batchId
      && ParseBatchControl(u.begin.rec.payload) == Ok((|drafts|, Crc.Crc32c(FrameBytes(u.events))))
      && ParseBatchControl(u.commit.rec.payload) == Ok((|drafts|, Crc.Crc32c(FrameBytes(u.events))))
  {
    hide IsFrame, EncodedKind, EncodedEvents, Crc.Crc32c, BatchControlPayload, ParseBatchControl, FrameBytes, Upsert, Ascii, Utf8, BatchMember;
    var events := EncodedEvents(first, drafts, 0).value;
    EncodedEventsAreMembers(first, drafts, 0);
    var digest := Crc.Crc32c(FrameBytes(events));
    ControlRoundTrip(|drafts|, digest);
    var payload := BatchControlPayload(|drafts|, digest);
    var envelope := ControlEnvelope(drafts[0].envelope, |drafts|, digest);
    EncodedKindIsFrame(BatchBegin, first, envelope, payload);
    EncodedKindIsFrame(BatchCommit, first, envelope, payload);
  }

  /** A batch stamped with one batch ID is a unit the record walk accepts whole. */
  lemma WrittenBatchIsValid(first: nat, drafts: seq<Draft>)
    requires first + |drafts| < POSITIONS
    requires WrittenBatch(first, drafts).Ok? && SameBatch(drafts)
    ensures var u := WrittenBatch(first, drafts).value;
      && ValidUnit(u, first)
      && |UnitEvents(u)| == |drafts|
      && forall i :: 0 <= i < |drafts| ==>
           UnitEvents(u)[i] == Record(Event, 0, first + i, drafts[i].envelope, drafts[i].payload)
  {
    hide IsFrame, EncodedEvents, WrittenBatch, ParseBatchControl, Crc.Crc32c, FrameBytes;
    ControlFrames(first, drafts);
    EncodedEventsAreMembers(first, drafts, 0);
    var u := WrittenBatch(first, drafts).value;
    forall i | 0 <= i < |u.events| ensures BatchMember(u.events[i], first, i, drafts[0].envelope.batchId) {
      assert BatchMember(u.events[i], first, 0 + i, drafts[0 + i].envelope.batchId);
    }
  }

  lemma FirstForeign(drafts: seq<Draft>) returns (k: nat)
    requires !SameBatch(drafts)
    ensures 0 < k < |drafts| && drafts[k].envelope.batchId != drafts[0].envelope.batchId
    ensures forall i :: 0 <= i < k ==> drafts[i].envelope.batchId == drafts[0].envelope.batchId
  {
    k := 0;
    while drafts[k].envelope.batchId == drafts[0].envelope.batchId
      invariant k < |drafts|
      invariant forall i :: 0 <= i < k ==> drafts[i].envelope.batchId == drafts[0].envelope.batchId
      invariant exists i :: k <= i < |drafts| && drafts[i].envelope.batchId != drafts[0].envelope.batchId
      decreases |drafts| - k
    {
      k := k + 1;
    }
  }

  /** The append does not compare batch IDs, the record walk does: a batch written with
      two of them is dropped on open, and so is everything after it. */
  lemma MixedBatchIsDropped(first: nat, drafts: seq<Draft>, st: ScanState, tail: Bytes)
    requires first + |drafts| < POSITIONS
    requires WrittenBatch(first, drafts).Ok? && !SameBatch(drafts)
    requires AtBoundary(st) && st.nextOffset == first
    ensures ScanFrom(UnitBytes(WrittenBatch(first, drafts).value) + tail, st) == Ok(Finished(st, BatchMismatch))
  {
    hide IsFrame, EncodedEvents, WrittenBatch, ParseBatchControl, Crc.Crc32c, FrameBytes, ScanFrom;
    ControlFrames(first, drafts);
    EncodedEventsAreMembers(first, drafts, 0);
    var u := WrittenBatch(first, drafts).value;
    var digest := Crc.Crc32c(FrameBytes(u.events));
    var k := FirstForeign(drafts);
    var good, bad, more := u.events[..k], u.events[k], u.events[k + 1..];
    var rest := FrameBytes(more) + (u.commit.bytes + tail);
    assert u.events == good + ([bad] + more);
    assert FrameBytes(u.events) == FrameBytes(good) + (bad.bytes + FrameBytes(more)) by {
      FrameBytesConcat(good, [bad] + more);
      FrameBytesOfSome([bad] + more);
      assert ([bad] + more)[1..] == more;
    }
    assert UnitBytes(u) + tail == u.begin.bytes + (FrameBytes(good) + (bad.bytes + rest));
    OpensBatch(st, u.begin, |drafts|, digest, FrameBytes(good) + (bad.bytes + rest));
    forall i | 0 <= i < |good| ensures BatchMember(good[i], u.begin.rec.position, 0 + i, u.begin.rec.envelope.batchId) {
      assert BatchMember(u.events[i], first, 0 + i, drafts[0 + i].envelope.batchId);
    }
    ReadsMembers(st, u.begin, [], good, |drafts|, digest, bad.bytes + rest);
    assert [] + good == good;
    var at := InBatch(st, u.begin, good, |drafts|, digest);
    assert BatchMember(bad, first, 0 + k, drafts[0 + k].envelope.batchId);
    DecodeFirst(bad, rest);
    UnfoldScan(bad.bytes + rest, at);
  }

  function Behind(done: seq<Frame>, rest: Result<seq<Frame>>): Result<seq<Frame>> {
    match rest
    case Ok(more) => Ok(done + more)
    case Err(error) => Err(error)
  }

  lemma SameImageSameEvents(us: seq<Unit>, vs: seq<Unit>, base: nat)
    requires ValidUnits(us, base) && ValidUnits(vs, base) && Image(us) == Image(vs)
    ensures Events(us) == Events(vs)
  {
    hide Scan, ValidUnits, Image, Events;
    ScanOfImage(us, base);
    ScanOfImage(vs, base);
  }

  method EncodeKind(kind: FrameKind, position: u64, envelope: Envelope, payload: Bytes) returns (r: Result<Frame>)
    ensures r == EncodedKind(kind, position, envelope, payload)
  {
    var rec := Record(kind, 0, position, envelope, payload);
    var bytes :- Codec.Encode(rec, DEFAULT_LIMITS);
    return Ok(Frame(bytes, rec));
  }

  /** The event frames of a batch and their bytes, one event after the other. */
  method EncodeEvents(first: nat, drafts: seq<Draft>) returns (r: Result<(seq<Frame>, Bytes)>)
    requires first + |drafts| < POSITIONS
    ensures match EncodedEvents(first, drafts, 0)
      case Err(error) => r == Err(error)
      case Ok(events) => r == Ok((events, FrameBytes(events)))
  {
    hide EncodedKind, EncodedEvents, FrameBytes;
    var events: seq<Frame> := [];
    var encodedEvents: Bytes := [];
    var index := 0;
    FrameBytesOfNone();
    NothingBehind(EncodedEvents(first, drafts, 0));
    while index < |drafts|
      invariant 0 <= index <= |drafts|
      invariant encodedEvents == FrameBytes(events)
      invariant EncodedEvents(first, drafts, 0) == Behind(events, EncodedEvents(first, drafts, index))
    {
      NextEvent(first, drafts, index);
      if drafts[index].envelope.batchIndex != index {
        return Err(InvalidFormat);
      }
      var frame :- EncodeKind(Event, first + index, drafts[index].envelope, drafts[index].payload);
      FrameBytesSnoc(events, frame);
      OneMoreBehind(events, frame, EncodedEvents(first, drafts, index + 1));
      events := events + [frame];
      encodedEvents := encodedEvents + frame.bytes;
      index := index + 1;
    }
    LastEvent(first, drafts);
    assert events + [] == events;
    return Ok((events, encodedEvents));
  }

  lemma NothingBehind(rest: Result<seq<Frame>>)
    ensures Behind([], rest) == rest
  {
    assert rest.Ok? ==> [] + rest.value == rest.value;
  }

  lemma OneMoreBehind(done: seq<Frame>, frame: Frame, rest: Result<seq<Frame>>)
    ensures Behind(done, Behind([frame], rest)) == Behind(done + [frame], rest)
  {
    assert rest.Ok? ==> done + ([frame] + rest.value) == (done + [frame]) + rest.value;
  }

  lemma NextEvent(first: nat, drafts: seq<Draft>, index: nat)
    requires index < |drafts| && first + |drafts| < POSITIONS
    ensures EncodedEvents(first, drafts, index) ==
      if drafts[index].envelope.batchIndex != index then Err(InvalidFormat)
      else match EncodedKind(Event, first + index, drafts[index].envelope, drafts[index].payload) {
        case Err(error) => Err(error)
        case Ok(frame) => Behind([frame], EncodedEvents(first, drafts, index + 1))
      }
  {
    hide EncodedKind;
  }

  lemma LastEvent(first: nat, drafts: seq<Draft>)
    requires first + |drafts| < POSITIONS
    ensures EncodedEvents(first, drafts, |drafts|) == Ok([])
  {
  }

  method EncodeBatch(first: nat, drafts: seq<Draft>) returns (r: Result<Unit>)
    requires first + |drafts| < POSITIONS
    ensures r == WrittenBatch(first, drafts) && (r.Ok? ==> drafts != [])
  {
    hide EncodedKind, EncodedEvents, FrameBytes, ControlEnvelope, Crc.Crc32c, BatchControlPayload;
    if drafts == [] {
      return Err(InvalidArgument);
    }
    if |drafts| >= 0x1_0000_0000 {
      return Err(ResourceLimit);
    }
    var events :- EncodeEvents(first, drafts);
    var digest := Crc.Crc32c(events.1);
    var payload := BatchControlPayload(|drafts|, digest);
    var envelope := ControlEnvelope(drafts[0].envelope, |drafts|, digest);
    var begin :- EncodeKind(BatchBegin, first, envelope, payload);
    var commit :- EncodeKind(BatchCommit, first, envelope, payload);
    return Ok(Batch(begin, events.0, commit));
  }

  // ── the object ─────────────────────────────────────────────────────────

  class Segment {
    var file: Bytes
    var baseOffset: nat
    var lenBytes: nat
    var nextOffset: nat
    /** The units the file holds, and how many of them the last sync covered. */
    ghost var units: seq<Unit>
    ghost var syncedUnits: nat

    ghost predicate Valid()
      reads this
    {
      && file == Image(units) && ValidUnits(units, baseOffset)
      && lenBytes == |file|
      && nextOffset == baseOffset + |Events(units)|
      && syncedUnits <= |units|
    }

    lemma Facts()
      requires Valid()
      ensures file == Image(units) && lenBytes == |Image(units)| == |file|
      ensures nextOffset == baseOffset + |Events(units)| && syncedUnits <= |units|
    {
    }

    constructor Create(base: nat)
      ensures Valid() && baseOffset == base && units == [] && syncedUnits == 0
    {
      file, baseOffset, lenBytes, nextOffset := [], base, 0, base;
      units, syncedUnits := [], 0;
    }

    /** Recovery: scan, then truncate and sync the truncation. A clean scan syncs
        nothing, so only the `durable` units stay known to be on disk. `written` may
        name the units the bytes were written from. */
    constructor Recover(buf: Bytes, base: nat, ghost durable: nat, ghost written: seq<Unit>)
      requires Scan(buf, base).Ok?
      ensures Valid() && baseOffset == base
      ensures file == buf[..Min(Scan(buf, base).value.validBytes, |buf|)]
      ensures nextOffset == Scan(buf, base).value.nextOffset
      ensures Scan(file, base) == Ok(Scan(buf, base).value.(stop := CleanEof))
      ensures file == Image(written) && ValidUnits(written, base) ==> units == written
      ensures syncedUnits == if |file| < |buf| then |units| else Min(durable, |units|)
    {
      hide Image, ValidUnits, Events, Scan;
      var scanned := ScanRecords(buf, base);
      ghost var us := RecoveryIsFixpoint(buf, base);
      var pos := scanned.value.validBytes;
      var kept := if pos < |buf| then buf[..pos] else buf;
      assert kept == buf[..pos];
      ghost var known := if kept == Image(written) && ValidUnits(written, base) then written else us;
      if known == written {
        SameImageSameEvents(us, written, base);
      }
      file := kept;
      baseOffset, lenBytes, nextOffset := base, pos, scanned.value.nextOffset;
      units, syncedUnits := known, if |kept| < |buf| then |known| else Min(durable, |known|);
    }

    /** `Segment::open`: fails only when the scan does. */
    static method Open(buf: Bytes, base: nat, ghost durable: nat, ghost written: seq<Unit>) returns (r: Result<Segment>)
      ensures r.Ok? <==> Scan(buf, base).Ok?
      ensures r.Err? ==> Scan(buf, base) == Err(r.error)
      ensures r.Ok? ==> fresh(r.value) && r.value.Valid() && r.value.baseOffset == base
      ensures r.Ok? ==> r.value.file == buf[..Min(Scan(buf, base).value.validBytes, |buf|)]
      ensures r.Ok? ==> r.value.nextOffset == Scan(buf, base).value.nextOffset
      ensures r.Ok? && r.value.file == Image(written) && ValidUnits(written, base) ==> r.value.units == written
      ensures r.Ok? ==> r.value.syncedUnits == if |r.value.file| < |buf| then |r.value.units| else Min(durable, |r.value.units|)
    {
      hide Image, ValidUnits, Scan;
      var scanned := ScanRecords(buf, base);
      if scanned.Err? {
        return Err(scanned.error);
      }
      var segment := new Segment.Recover(buf, base, durable, written);
      return Ok(segment);
    }

    method AppendBatch(drafts: seq<Draft>) returns (r: Result<(nat, nat)>)
      requires Valid() && nextOffset + |drafts| < POSITIONS
      modifies this
      ensures baseOffset == old(baseOffset) && syncedUnits == old(syncedUnits)
      ensures match WrittenBatch(old(nextOffset), drafts)
        case Err(error) => r == Err(error) && file == old(file) && units == old(units) && Valid()
        case Ok(u) =>
          && r == Ok((old(nextOffset), old(nextOffset) + |drafts| - 1))
          && file == old(file) + UnitBytes(u) && units == old(units) + [u]
          && (SameBatch(drafts) ==> Valid() && nextOffset == old(nextOffset) + |drafts|)
    {
      hide EncodedKind, WrittenBatch, ValidUnit, UnitEvents, Image, ValidUnits, Events, IsFrame;
      var first := nextOffset;
      var unit :- EncodeBatch(first, drafts);
      file := file + UnitBytes(unit);
      lenBytes := lenBytes + |UnitBytes(unit)|;
      nextOffset := nextOffset + |drafts|;
      UnitsSnoc(units, unit, baseOffset);
      units := units + [unit];
      if SameBatch(drafts) {
        WrittenBatchIsValid(first, drafts);
      }
      return Ok((first, nextOffset - 1));
    }

    method AppendSystem(envelope: Envelope, payload: Bytes) returns (r: Result<()>)
      requires Valid() && nextOffset < POSITIONS
      modifies this
      ensures Valid() && baseOffset == old(baseOffset) && syncedUnits == old(syncedUnits)
      ensures match EncodedKind(System, old(nextOffset), envelope, payload)
        case Err(error) => r == Err(error) && units == old(units)
        case Ok(f) => r == Ok(()) && units == old(units) + [Sys(f)]
    {
      hide EncodedKind, Image, ValidUnits, Events, IsFrame, FrameBytes, BatchMember;
      var frame :- EncodeKind(System, nextOffset, envelope, payload);
      file := file + frame.bytes;
      lenBytes := lenBytes + |frame.bytes|;
      EncodedKindIsFrame(System, nextOffset, envelope, payload);
      UnitsSnoc(units, Sys(frame), baseOffset);
      units := units + [Sys(frame)];
      return Ok(());
    }

    method AppendEnveloped(envelope: Envelope, payload: Bytes) returns (r: Result<nat>)
      requires Valid() && nextOffset < POSITIONS
      modifies this
      ensures Valid() && baseOffset == old(baseOffset) && syncedUnits == old(syncedUnits)
      ensures match EncodedKind(Event, old(nextOffset), envelope, payload)
        case Err(error) => r == Err(error) && units == old(units)
        case Ok(f) => r == Ok(old(nextOffset)) && units == old(units) + [Single(f)]
    {
      hide EncodedKind, Image, ValidUnits, Events, IsFrame, FrameBytes, BatchMember;
      var offset := nextOffset;
      var frame :- EncodeKind(Event, offset, envelope, payload);
      file := file + frame.bytes;
      lenBytes := lenBytes + |frame.bytes|;
      nextOffset := nextOffset + 1;
      EncodedKindIsFrame(Event, offset, envelope, payload);
      UnitsSnoc(units, Single(frame), baseOffset);
      units := units + [Single(frame)];
      return Ok(offset);
    }

    method Sync()
      requires Valid()
      modifies this`syncedUnits
      ensures Valid() && syncedUnits == |units|
    {
      syncedUnits := |units|;
    }
  }
}
