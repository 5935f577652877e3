/** One segment file: what an append writes, and the one record walk that decides
    on open which prefix of the bytes is kept. */
module RecordWalk {
  import opened Base
  import opened LittleEndian
  import opened Format
  import opened FormatLaws
  import Crc

  function Decode(buf: Bytes): (r: Result<Option<Decoded>>)
    ensures r.Ok? && r.value.Some? ==> FRAME_HEADER_LEN <= r.value.value.consumed <= |buf|
  {
    DecodedFrame(buf, DEFAULT_LIMITS)
  }

  // ── the shape of a segment: frames grouped into units ─────────────────

  datatype Frame = Frame(bytes: Bytes, rec: Record)

  /** The bytes are exactly one frame and decode to the record. */
  predicate IsFrame(f: Frame) {
    Decode(f.bytes) == Ok(Some(Decoded(f.rec, |f.bytes|)))
  }

  function FrameBytes(fs: seq<Frame>): Bytes {
    if fs == [] then [] else fs[0].bytes + FrameBytes(fs[1..])
  }

  /** What one append call adds to a segment; a crash keeps a unit or loses it. */
  datatype Unit =
    | Single(frame: Frame)
    | Sys(frame: Frame)
    | Batch(begin: Frame, events: seq<Frame>, commit: Frame)

  function UnitFrames(u: Unit): seq<Frame> {
    match u
    case Single(f) => [f]
    case Sys(f) => [f]
    case Batch(begin, events, commit) => [begin] + events + [commit]
  }

  function UnitBytes(u: Unit): Bytes {
    match u
    case Single(f) => f.bytes
    case Sys(f) => f.bytes
    case Batch(begin, events, commit) => begin.bytes + (FrameBytes(events) + commit.bytes)
  }

  function Records(fs: seq<Frame>): (rs: seq<Record>)
    ensures |rs| == |fs| && forall i :: 0 <= i < |fs| ==> rs[i] == fs[i].rec
  {
    seq(|fs|, i requires 0 <= i < |fs| => fs[i].rec)
  }

  function UnitEvents(u: Unit): seq<Record> {
    match u
    case Single(f) => [f.rec]
    case Sys(_) => []
    case Batch(_, events, _) => Records(events)
  }

  function UnitSystems(u: Unit): seq<Record> {
    if u.Sys? then [u.frame.rec] else []
  }

  function Image(us: seq<Unit>): Bytes {
    if us == [] then [] else UnitBytes(us[0]) + Image(us[1..])
  }

  function Events(us: seq<Unit>): seq<Record> {
    if us == [] then [] else UnitEvents(us[0]) + Events(us[1..])
  }

  function Systems(us: seq<Unit>): seq<Record> {
    if us == [] then [] else UnitSystems(us[0]) + Systems(us[1..])
  }

  predicate BatchMember(f: Frame, first: nat, index: nat, batchId: Id) {
    && IsFrame(f)
    && f.rec.kind == Event
    && f.rec.position == first + index
    && f.rec.envelope.batchId == batchId
    && f.rec.envelope.batchIndex == index
  }

  predicate ValidUnit(u: Unit, next: nat) {
    match u
    case Single(f) => IsFrame(f) && f.rec.kind == Event && f.rec.position == next
    case Sys(f) => IsFrame(f) && f.rec.kind == System && f.rec.position == next
    case Batch(begin, events, commit) =>
      && IsFrame(begin) && begin.rec.kind == BatchBegin && begin.rec.position == next
      && IsFrame(commit) && commit.rec.kind == BatchCommit && commit.rec.position == next
      && commit.rec.envelope.batchId == begin.rec.envelope.batchId
      && (forall i :: 0 <= i < |events| ==> BatchMember(events[i], next, i, begin.rec.envelope.batchId))
      && |events| < 0x1_0000_0000
      && events != []
      && ParseBatchControl(begin.rec.payload) == Ok((|events|, Crc.Crc32c(FrameBytes(events))))
      && ParseBatchControl(commit.rec.payload) == Ok((|events|, Crc.Crc32c(FrameBytes(events))))
  }

  predicate ValidUnits(us: seq<Unit>, base: nat) {
    us == [] || (ValidUnit(us[0], base) && ValidUnits(us[1..], base + |UnitEvents(us[0])|))
  }

  function BatchControlPayload(count: u32, digest: u32): Bytes {
    ToBytes(count, 4) + ToBytes(digest, 4)
  }

  function ParseBatchControl(payload: Bytes): Result<(u32, u32)> {
    if |payload| != 8 then Err(InvalidFormat)
    else
      var count, digest := ReadU32(payload, 0), ReadU32(payload, 4);
      if count == 0 then Err(InvalidFormat) else Ok((count, digest))
  }

  lemma ControlRoundTrip(count: u32, digest: u32)
    requires count != 0
    ensures ParseBatchControl(BatchControlPayload(count, digest)) == Ok((count, digest))
  {
    PowersOf256();
    var p := BatchControlPayload(count, digest);
    assert p[0..4] == ToBytes(count, 4) && p[4..8] == ToBytes(digest, 4);
    FromToBytes(count, 4);
    FromToBytes(digest, 4);
  }

  // ── the record walk ────────────────────────────────────────────────────

  datatype Pending = Pending(
    startByte: nat,
    first: nat,
    batchId: Id,
    count: nat,
    digest: u32,
    eventBytes: Bytes,
    events: seq<Record>)

  datatype ScanState = ScanState(
    pos: nat,
    validBytes: nat,
    nextOffset: nat,
    records: seq<Record>,
    systems: seq<Record>,
    pending: Option<Pending>)

  datatype ScanStop = CleanEof | TornTail | CrcError | OffsetMismatch | BatchMismatch

  datatype ScanResult = ScanResult(
    records: seq<Record>,
    systems: seq<Record>,
    validBytes: nat,
    nextOffset: nat,
    stop: ScanStop)

  datatype Outcome = Continue(state: ScanState) | Break(state: ScanState, stop: ScanStop) | Fail(error: Error)

  function StartScan(base: nat): ScanState {
    ScanState(0, 0, base, [], [], None)
  }

  function Rewound(st: ScanState): ScanState {
    if st.pending.Some? then st.(pos := st.pending.value.startByte, pending := None) else st
  }

  function Finished(st: ScanState, stop: ScanStop): ScanResult {
    ScanResult(st.records, st.systems, Min(st.validBytes, st.pos), st.nextOffset, stop)
  }

  /** One decoded frame: `bytes` are its bytes, `st` the state before it. */
  function OnFrame(st: ScanState, rec: Record, bytes: Bytes): Outcome {
    var after := st.(pos := st.pos + |bytes|);
    match rec.kind
    case BatchBegin =>
      if st.pending.Some? || rec.position != st.nextOffset then Break(after, OffsetMismatch)
      else (match ParseBatchControl(rec.payload)
            case Err(error) => Fail(error)
            case Ok(control) =>
              Continue(after.(pending := Some(
                Pending(st.pos, rec.position, rec.envelope.batchId, control.0, control.1, [], [])))))
    case Event =>
      if st.pending.Some? then
        var batch := st.pending.value;
        var index := |batch.events|;
        if || rec.position != batch.first + index
           || rec.envelope.batchId != batch.batchId
           || rec.envelope.batchIndex != index
           || index >= batch.count
        then Break(st.(pos := batch.startByte), BatchMismatch)
        else Continue(after.(pending := Some(
               batch.(eventBytes := batch.eventBytes + bytes, events := batch.events + [rec]))))
      else if rec.position == st.nextOffset then
        Continue(after.(records := st.records + [rec], nextOffset := st.nextOffset + 1, validBytes := after.pos))
      else Break(after, OffsetMismatch)
    case BatchCommit =>
      if st.pending.None? then Break(after, BatchMismatch)
      else
        var batch := st.pending.value;
        (match ParseBatchControl(rec.payload)
         case Err(error) => Fail(error)
         case Ok(control) =>
           if && rec.position == batch.first
              && rec.envelope.batchId == batch.batchId
              && control.0 == batch.count
              && control.1 == batch.digest
              && |batch.events| == batch.count
              && Crc.Crc32c(batch.eventBytes) == batch.digest
           then Continue(after.(nextOffset := st.nextOffset + batch.count, records := st.records + batch.events,
                                validBytes := after.pos, pending := None))
           else Break(st.(pos := batch.startByte, pending := None), BatchMismatch))
    case System =>
      if st.pending.Some? || rec.position != st.nextOffset then Break(after, OffsetMismatch)
      else Continue(after.(systems := st.systems + [rec], validBytes := after.pos))
  }

  function ScanFrom(rest: Bytes, st: ScanState): Result<ScanResult>
    decreases |rest|
  {
    match Decode(rest)
    case Err(error) => if error.Corrupt? then Ok(Finished(Rewound(st), CrcError)) else Err(error)
    case Ok(None) =>
      Ok(Finished(Rewound(st), if rest == [] && st.pending.None? then CleanEof else TornTail))
    case Ok(Some(d)) =>
      match OnFrame(st, d.record, rest[..d.consumed])
      case Fail(error) => Err(error)
      case Break(final, stop) => Ok(Finished(final, stop))
      case Continue(next) => ScanFrom(rest[d.consumed..], next)
  }

  function Scan(buf: Bytes, base: nat): Result<ScanResult> {
    ScanFrom(buf, StartScan(base))
  }

  lemma UnfoldScan(rest: Bytes, st: ScanState)
    requires Decode(rest).Ok? && Decode(rest).value.Some?
    ensures var d := Decode(rest).value.value;
      ScanFrom(rest, st) == match OnFrame(st, d.record, rest[..d.consumed]) {
        case Fail(error) => Err(error)
        case Break(final, stop) => Ok(Finished(final, stop))
        case Continue(next) => ScanFrom(rest[d.consumed..], next)
      }
  {
  }

  lemma UnfoldStop(rest: Bytes, st: ScanState)
    ensures Decode(rest) == Ok(None) ==>
      ScanFrom(rest, st) == Ok(Finished(Rewound(st), if rest == [] && st.pending.None? then CleanEof else TornTail))
    ensures Decode(rest).Err? ==>
      ScanFrom(rest, st) == if Decode(rest).error.Corrupt? then Ok(Finished(Rewound(st), CrcError)) else Err(Decode(rest).error)
  {
  }

  /** The walk as the engine runs it, one mutable cursor over the whole buffer. */
  method ScanRecords(buf: Bytes, base: nat) returns (r: Result<ScanResult>)
    ensures r == Scan(buf, base)
  {
    hide ScanFrom, DecodedFrame, ParseBatchControl, Crc.Crc32c;
    var pos: nat, validBytes: nat, nextOffset: nat := 0, 0, base;
    var records: seq<Record> := [];
    var systems: seq<Record> := [];
    var pending: Option<Pending> := None;
    var stop := CleanEof;
    assert buf[0..] == buf;
    while true
      invariant 0 <= pos <= |buf|
      invariant pending.Some? ==> pending.value.startByte < pos
      invariant Scan(buf, base) == ScanFrom(buf[pos..], ScanState(pos, validBytes, nextOffset, records, systems, pending))
      decreases |buf| - pos
    {
      var decoded := Decode(buf[pos..]);
      ghost var before := ScanState(pos, validBytes, nextOffset, records, systems, pending);
      UnfoldStop(buf[pos..], before);
      if decoded.Ok? && decoded.value.Some? {
        UnfoldScan(buf[pos..], before);
        var rec, frameStart := decoded.value.value.record, pos;
        pos := pos + decoded.value.value.consumed;
        assert buf[frameStart..][..decoded.value.value.consumed] == buf[frameStart..pos];
        assert buf[frameStart..][decoded.value.value.consumed..] == buf[pos..];
        match rec.kind
        case BatchBegin =>
          if pending.Some? || rec.position != nextOffset {
            stop := OffsetMismatch;
            break;
          }
          var control :- ParseBatchControl(rec.payload);
          pending := Some(Pending(frameStart, rec.position, rec.envelope.batchId, control.0, control.1, [], []));
        case Event =>
          if pending.Some? {
            var batch := pending.value;
            var index := |batch.events|;
            if || rec.position != batch.first + index
               || rec.envelope.batchId != batch.batchId
               || rec.envelope.batchIndex != index
               || index >= batch.count
            {
              pos := batch.startByte;
              stop := BatchMismatch;
              break;
            }
            pending := Some(batch.(eventBytes := batch.eventBytes + buf[frameStart..pos],
                                   events := batch.events + [rec]));
          } else if rec.position == nextOffset {
            records := records + [rec];
            nextOffset := nextOffset + 1;
            validBytes := pos;
          } else {
            stop := OffsetMismatch;
            break;
          }
        case BatchCommit =>
          if pending.None? {
            stop := BatchMismatch;
            break;
          }
          var batch := pending.value;
          pending := None;
          var control :- ParseBatchControl(rec.payload);
          var valid :=
            && rec.position == batch.first
            && rec.envelope.batchId == batch.batchId
            && control.0 == batch.count
            && control.1 == batch.digest
            && |batch.events| == batch.count
            && Crc.Crc32c(batch.eventBytes) == batch.digest;
          if !valid {
            pos := batch.startByte;
            stop := BatchMismatch;
            break;
          }
          nextOffset := nextOffset + batch.count;
          records := records + batch.events;
          validBytes := pos;
        case System =>
          if pending.Some? || rec.position != nextOffset {
            stop := OffsetMismatch;
            break;
          }
          systems := systems + [rec];
          validBytes := pos;
      } else if decoded.Ok? {
        if pending.Some? {
          pos := pending.value.startByte;
          pending := None;
        }
        stop := if pos == |buf| then CleanEof else TornTail;
        break;
      } else if decoded.error.Corrupt? {
        if pending.Some? {
          pos := pending.value.startByte;
          pending := None;
        }
        stop := CrcError;
        break;
      } else {
        return Err(decoded.error);
      }
    }
    return Ok(ScanResult(records, systems, Min(validBytes, pos), nextOffset, stop));
  }
}
