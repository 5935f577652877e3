/** Concrete inputs at which the failures proved elsewhere do happen. */
module Occurrences {
  import opened Base
  import opened LittleEndian
  import opened Format
  import opened RecordWalk
  import opened RecordWalkLaws
  import opened SegmentFile
  import LM = LogMachine
  import LogSafety
  import Durability
  import Crc
  import Log
  import Streams
  import M = AppendMachine
  import AL = AppendLaws
  import Retries
  import Replication
  import Feed

  const OTHER_ID: Id := [1] + ZERO_ID[1..]
  const NAME: Streams.StreamName := [0x61]
  const LETTER: EventType := [0x61]

  function Plain(batchId: Id, index: u32): Envelope {
    Envelope(ZERO_ID, ZERO_ID, ZERO_ID, ZERO_ID, 0, 0, LETTER, 1, 1, batchId, index, [])
  }

  // ── small frames encode ────────────────────────────────────────────────

  predicate SmallEntry(e: Entry) {
    ValidateMetadataKey(e.key).Ok? && |e.key| <= 1024 && |e.value| <= 0x1_0000
  }

  lemma SmallEntryEncodes(e: Entry)
    requires SmallEntry(e)
    ensures EncodedEntry(e, DEFAULT_LIMITS).Ok? && |EncodedEntry(e, DEFAULT_LIMITS).value| <= 0x1_0500
  {
    hide ValidateMetadataKey;
  }

  lemma {:induction false} SmallMetadataEncodes(m: seq<Entry>)
    requires forall e :: e in m ==> SmallEntry(e)
    ensures EncodedMetadata(m, DEFAULT_LIMITS).Ok? && |EncodedMetadata(m, DEFAULT_LIMITS).value| <= |m| * 0x1_0500
  {
    hide SmallEntry, EncodedEntry;
    if m != [] {
      assert m[0] in m;
      SmallEntryEncodes(m[0]);
      SmallMetadataEncodes(m[1..]);
    }
  }

  lemma SmallFrameEncodes(kind: FrameKind, position: u64, e: Envelope, payload: Bytes)
    requires |e.eventType| <= 1024 && |e.metadata| <= 2 && |payload| <= 1024 && forall x :: x in e.metadata ==> SmallEntry(x)
    ensures EncodedKind(kind, position, e, payload).Ok? && EncodedKind(kind, position, e, payload).value.bytes != []
  {
    hide EncodedMetadata, FrameCrc, SmallEntry, ToBytes;
    SmallMetadataEncodes(e.metadata);
  }

  lemma {:induction false} UpsertedGrowsByOne(m: seq<Entry>, e: Entry)
    ensures |Upserted(m, e)| <= |m| + 1
  {
    if m != [] {
      UpsertedGrowsByOne(m[1..], e);
    }
  }

  lemma ControlKeysAreSmall(value: Bytes)
    requires |value| == 4
    ensures SmallEntry(Entry(BATCH_COUNT_KEY, value)) && SmallEntry(Entry(BATCH_DIGEST_KEY, value))
    ensures |BATCH_CONTROL_TYPE| <= 1024
  {
    hide Ascii, Utf8;
    AsciiIsUtf8("salamander.batch_count");
    AsciiIsUtf8("salamander.batch_digest");
    AsciiIsUtf8("salamander.batch-control");
    forall c | c in "salamander.batch_count" ensures 0 < c as int < 0x80 {
    }
    forall c | c in "salamander.batch_digest" ensures 0 < c as int < 0x80 {
    }
  }

  lemma ControlEncodes(kind: FrameKind, position: u64, first: Envelope, count: u32, digest: u32, payload: Bytes)
    requires first.metadata == [] && |payload| <= 1024
    ensures EncodedKind(kind, position, ControlEnvelope(first, count, digest), payload).Ok?
  {
    hide Ascii, Utf8, Upserted, SmallEntry, EncodedKind, ToBytes;
    ControlStrings();
    var one, two := Entry(BATCH_COUNT_KEY, ToBytes(count, 4)), Entry(BATCH_DIGEST_KEY, ToBytes(digest, 4));
    ControlKeysAreSmall(ToBytes(count, 4));
    ControlKeysAreSmall(ToBytes(digest, 4));
    UpsertedKeepsOrder([], one);
    UpsertedKeepsOrder(Upserted([], one), two);
    UpsertedGrowsByOne([], one);
    UpsertedGrowsByOne(Upserted([], one), two);
    SmallFrameEncodes(kind, position, ControlEnvelope(first, count, digest), payload);
  }

  /** Two events under two batch IDs. */
  const MIXED: seq<Draft> := [Draft(Plain(ZERO_ID, 0), []), Draft(Plain(OTHER_ID, 1), [])]

  predicate SmallDraft(d: Draft, index: nat) {
    |d.envelope.eventType| <= 1024 && d.envelope.metadata == [] && |d.payload| <= 1024 && d.envelope.batchIndex == index
  }

  lemma {:induction false} PlainEventsEncode(first: nat, drafts: seq<Draft>, index: nat)
    requires index <= |drafts| && first + |drafts| < POSITIONS
    requires forall i :: 0 <= i < |drafts| ==> SmallDraft(drafts[i], i)
    ensures EncodedEvents(first, drafts, index).Ok?
    decreases |drafts| - index
  {
    hide EncodedKind;
    if index < |drafts| {
      assert SmallDraft(drafts[index], index);
      SmallFrameEncodes(Event, first + index, drafts[index].envelope, drafts[index].payload);
      PlainEventsEncode(first, drafts, index + 1);
    }
  }

  lemma PlainBatchIsWritten(first: nat, drafts: seq<Draft>)
    requires 0 < |drafts| < 0x1_0000_0000 && first + |drafts| < POSITIONS
    requires forall i :: 0 <= i < |drafts| ==> SmallDraft(drafts[i], i)
    ensures WrittenBatch(first, drafts).Ok?
  {
    hide EncodedKind, EncodedEvents, ControlEnvelope, Crc.Crc32c, BatchControlPayload, FrameBytes;
    assert SmallDraft(drafts[0], 0);
    PlainEventsEncode(first, drafts, 0);
    var digest := Crc.Crc32c(FrameBytes(EncodedEvents(first, drafts, 0).value));
    ShortPayload(|drafts|, digest);
    ControlEncodes(BatchBegin, first, drafts[0].envelope, |drafts|, digest, BatchControlPayload(|drafts|, digest));
    ControlEncodes(BatchCommit, first, drafts[0].envelope, |drafts|, digest, BatchControlPayload(|drafts|, digest));
  }

  lemma ShortPayload(count: u32, digest: u32)
    ensures |BatchControlPayload(count, digest)| == 8
  {
  }

  /** A MIXED BATCH is written without an error, and the next open drops it. */
  lemma MixedBatchHappens(st: ScanState, tail: Bytes)
    requires AtBoundary(st) && st.nextOffset == 0
    ensures WrittenBatch(0, MIXED).Ok? && !SameBatch(MIXED)
    ensures ScanFrom(UnitBytes(WrittenBatch(0, MIXED).value) + tail, st) == Ok(Finished(st, BatchMismatch))
  {
    hide WrittenBatch, ScanFrom;
    PlainBatchIsWritten(0, MIXED);
    assert OTHER_ID[0] == 1 && ZERO_ID[0] == 0;
    assert MIXED[1].envelope.batchId != MIXED[0].envelope.batchId;
    MixedBatchIsDropped(0, MIXED, st, tail);
  }

  // ── an unsynced head ───────────────────────────────────────────────────

  const ONE_EVENT: seq<Draft> := [Draft(Plain(ZERO_ID, 0), [])]

  /** AN UNSYNCED HEAD is lost: one batch in a fresh log, a crash that spares it, a reopen
      that reports head 1, a second crash, and head 0. */
  lemma UnsyncedHeadHappens()
    ensures WrittenBatch(0, ONE_EVENT).Ok?
    ensures var written := LM.Apply(LM.FreshLog(), LM.Append(WrittenBatch(0, ONE_EVENT).value));
      var reopened := LM.Apply(written, Durability.Mildest(written));
      && LM.Reachable(reopened) && LM.Head(reopened) == 1
      && reopened.active.synced <= |reopened.active.units| && LM.Enabled(reopened, Durability.Worst(reopened))
      && LM.Head(LM.Apply(reopened, Durability.Worst(reopened))) == 0
  {
    hide WrittenBatch, LM.LogInv, ValidUnit, ValidUnits, LM.Apply, LM.Enabled, LM.Head, LM.Reachable, UnitEvents, Image, Events, LM.SyncedHead;
    PlainBatchIsWritten(0, ONE_EVENT);
    WrittenBatchIsValid(0, ONE_EVENT);
    var u := WrittenBatch(0, ONE_EVENT).value;
    LogSafety.FreshIsInv();
    FreshIsReachable();
    FreshAccepts(u);
    Durability.UnsyncedHeadIsLost(LM.FreshLog(), u);
    var written := LM.Apply(LM.FreshLog(), LM.Append(u));
    OneMore(LM.FreshLog(), LM.Append(u));
    OneMore(written, Durability.Mildest(written));
    Durability.CrashExtremes(LM.Apply(written, Durability.Mildest(written)));
  }

  lemma FreshAccepts(u: Unit)
    requires ValidUnit(u, 0)
    ensures LM.Enabled(LM.FreshLog(), LM.Append(u)) && LM.Head(LM.FreshLog()) == 0 && LM.SyncedHead(LM.FreshLog()) == 0
  {
    hide ValidUnit;
  }

  lemma FreshIsReachable()
    ensures LM.Reachable(LM.FreshLog())
  {
    assert LM.RunFrom(LM.FreshLog(), []) && LM.After(LM.FreshLog(), []) == LM.FreshLog();
  }

  lemma {:induction false} LongerRun(s: LM.LogState, steps: seq<LM.Step>, step: LM.Step)
    requires LM.RunFrom(s, steps) && LM.Enabled(LM.After(s, steps), step)
    ensures LM.RunFrom(s, steps + [step]) && LM.After(s, steps + [step]) == LM.Apply(LM.After(s, steps), step)
    decreases |steps|
  {
    hide LM.Enabled, LM.Apply;
    if steps == [] {
      assert [] + [step] == [step] && [step][1..] == [];
    } else {
      assert (steps + [step])[1..] == steps[1..] + [step];
      LongerRun(LM.Apply(s, steps[0]), steps[1..], step);
    }
  }

  lemma OneMore(s: LM.LogState, step: LM.Step)
    requires LM.Reachable(s) && LM.Enabled(s, step)
    ensures LM.Reachable(LM.Apply(s, step))
  {
    hide LM.Enabled, LM.Apply, LM.RunFrom, LM.After;
    var steps :| LM.RunFrom(LM.FreshLog(), steps) && LM.After(LM.FreshLog(), steps) == s;
    LongerRun(LM.FreshLog(), steps, step);
    assert LM.After(LM.FreshLog(), steps + [step]) == LM.Apply(s, step);
  }

  // ── a stuck segment ────────────────────────────────────────────────────

  function SystemOnly(f: Frame, n: nat): LM.LogState {
    LM.FreshLog().(active := LM.Seg(0, seq(n, _ => Sys(f)), 0))
  }

  lemma {:induction false} SystemFramesPileUp(f: Frame, n: nat)
    requires IsFrame(f) && f.rec.kind == System && f.rec.position == 0 && f.bytes != []
    ensures LM.Reachable(SystemOnly(f, n)) && LM.Head(SystemOnly(f, n)) == 0 && |Image(SystemOnly(f, n).active.units)| >= n
    decreases n
  {
    hide IsFrame, LM.Reachable, Image, Events, LM.Apply, LM.Enabled;
    if n == 0 {
      FreshIsReachable();
      LogSafety.NoUnits(0);
      assert SystemOnly(f, 0) == LM.FreshLog();
    } else {
      var s := SystemOnly(f, n - 1);
      SystemFramesPileUp(f, n - 1);
      UnitsSnoc(s.active.units, Sys(f), 0);
      assert SystemOnly(f, n).active.units == s.active.units + [Sys(f)] && UnitEvents(Sys(f)) == [];
      AddsFrame(f, n - 1);
      OneMore(s, LM.Append(Sys(f)));
    }
  }

  lemma AddsFrame(f: Frame, n: nat)
    requires IsFrame(f) && f.rec.kind == System && f.rec.position == 0 && LM.Head(SystemOnly(f, n)) == 0
    ensures LM.Enabled(SystemOnly(f, n), LM.Append(Sys(f)))
    ensures LM.Apply(SystemOnly(f, n), LM.Append(Sys(f))) == SystemOnly(f, n + 1)
  {
    hide IsFrame, LM.Head;
  }

  /** A STUCK LOG is reachable for every segment size: forks before the first event fill the
      first segment with frames that take no position. From there on it stays stuck. */
  lemma StuckHappens(maxBytes: nat) returns (s: LM.LogState)
    ensures LM.Reachable(s) && Log.Stuck(s, maxBytes) && s.stage.Idle?
    ensures forall calls :: Log.AllCallable(s, calls) ==> Log.AllRefused(Log.Answers(s, maxBytes, calls).0, calls)
  {
    hide EncodedKind, IsFrame, Image, LM.Head, LM.Reachable, Log.Stuck, Log.Answers, Log.AllCallable, Log.AllRefused;
    SmallFrameEncodes(System, 0, Plain(ZERO_ID, 0), []);
    EncodedKindIsFrame(System, 0, Plain(ZERO_ID, 0), []);
    var f := EncodedKind(System, 0, Plain(ZERO_ID, 0), []).value;
    s := SystemOnly(f, maxBytes);
    SystemFramesPileUp(f, maxBytes);
    FullAndEmpty(s, maxBytes);
    forall calls | Log.AllCallable(s, calls) ensures Log.AllRefused(Log.Answers(s, maxBytes, calls).0, calls) {
      Log.StuckForever(s, maxBytes, calls);
    }
  }

  lemma FullAndEmpty(s: LM.LogState, maxBytes: nat)
    requires |Image(s.active.units)| >= maxBytes && LM.Head(s) == s.active.base
    ensures Log.Stuck(s, maxBytes)
  {
  }

  // ── a foreign key ──────────────────────────────────────────────────────

  const AN_EVENT := M.NewEvent(None, LETTER, 1, [], [])
  const KEYED := M.Request(ZERO_ID, NAME, M.AnyRevision, Some([0x6b]), [AN_EVENT], Streams.Buffered)
  const AMBIENT := M.Ambient(ZERO_ID, OTHER_ID, OTHER_ID, [OTHER_ID], 7, 0, false)
  const REPLICA_AMBIENT := AMBIENT.(eventIds := [ZERO_ID])

  /** One event on the default branch of a fresh database is always written. */
  lemma FirstAppendIsWritten(req: M.Request, supplied: Option<Id>, amb: M.Ambient)
    requires |req.events| == 1 == |amb.eventIds| && req.branch == ZERO_ID && req.expected == M.AnyRevision
    requires req.events[0].eventId != Some(amb.eventIds[0])
    ensures AL.Writable(M.FreshDb(), req, supplied, amb) && M.Fits(Streams.EMPTY, 0, req, amb) && M.Head(M.FreshDb()) == 0
  {
    hide Streams.EventFingerprint, M.NewBatch;
    assert !M.Conflicting(Streams.EMPTY, M.NewBatch(Streams.EMPTY, 0, req, supplied, amb));
  }

  /** A FOREIGN KEY arrives by ingesting a keyed batch of another database; the replica's
      live catalog and its rebuild then disagree. */
  lemma ForeignKeyHappens()
    ensures AL.Writable(M.FreshDb(), KEYED, None, AMBIENT)
    ensures M.Fits(Streams.EMPTY, 0, KEYED, AMBIENT)
    ensures var b := Feed.Committed(M.NewBatch(Streams.EMPTY, 0, KEYED, None, AMBIENT));
      && Replication.IngestRequest(b).Ok?
      && var req := Replication.IngestRequest(b).value;
         && AL.Writable(M.FreshDb(), req, Some(b.batchId), REPLICA_AMBIENT) && !Retries.BringsNoForeignKey(req)
         && AL.DbInv(M.FreshDb()) && Retries.CatalogAgrees(M.FreshDb())
         && M.Fits(Streams.EMPTY, 0, req, REPLICA_AMBIENT)
         && !Retries.CatalogAgrees(M.AfterAppend(M.FreshDb(), req, Some(b.batchId), REPLICA_AMBIENT, None).1)
  {
    hide M.NewBatch, AL.Writable, M.Judge, AL.DbInv, Retries.CatalogAgrees, Replication.IngestRequest, M.AfterAppend, Retries.BringsNoForeignKey, M.Fits;
    KeyedIsIngestible();
    var b := Feed.Committed(M.NewBatch(Streams.EMPTY, 0, KEYED, None, AMBIENT));
    var req := Replication.IngestRequest(b).value;
    AL.FreshIsInv();
    FreshAgrees();
    Retries.AppendAgreement(M.FreshDb(), req, Some(b.batchId), REPLICA_AMBIENT);
  }

  /** The keyed batch passes the replica's checks as a request that brings the key. */
  lemma KeyedIsIngestible()
    ensures AL.Writable(M.FreshDb(), KEYED, None, AMBIENT) && M.Fits(Streams.EMPTY, 0, KEYED, AMBIENT)
    ensures M.Head(M.FreshDb()) == 0
    ensures var b := Feed.Committed(M.NewBatch(Streams.EMPTY, 0, KEYED, None, AMBIENT));
      && Replication.IngestRequest(b).Ok?
      && var req := Replication.IngestRequest(b).value;
         && M.Fits(Streams.EMPTY, 0, req, REPLICA_AMBIENT)
         && AL.Writable(M.FreshDb(), req, Some(b.batchId), REPLICA_AMBIENT) && !Retries.BringsNoForeignKey(req)
  {
    hide M.NewBatch, AL.Writable, Streams.RequestOf, Replication.IngestRequest, Streams.Uniform, Retries.BringsNoForeignKey, M.Fits, M.Head;
    FirstAppendIsWritten(KEYED, None, AMBIENT);
    KeyedIsStored();
    OneIsIngestible(M.NewBatch(Streams.EMPTY, 0, KEYED, None, AMBIENT));
  }

  /** A stored batch of one keyed event is new to a fresh replica, key and all. */
  lemma OneIsIngestible(batch: seq<Record>)
    requires |batch| == 1 && Streams.Uniform(batch, NAME) && Streams.RequestOf(batch[0].envelope.metadata).Some?
    requires batch[0].envelope.branchId == ZERO_ID && batch[0].envelope.eventId == OTHER_ID
    ensures var b := Feed.Committed(batch);
      && Replication.IngestRequest(b).Ok?
      && var req := Replication.IngestRequest(b).value;
         && M.Fits(Streams.EMPTY, 0, req, REPLICA_AMBIENT)
         && AL.Writable(M.FreshDb(), req, Some(b.batchId), REPLICA_AMBIENT) && !Retries.BringsNoForeignKey(req)
  {
    hide AL.Writable, Streams.RequestOf, Replication.IngestRequest, Streams.Uniform, Retries.BringsNoForeignKey, M.Fits, M.Head;
    NameIsValid();
    Replication.KeyedBatchBringsKey(batch, NAME);
    assert OTHER_ID[0] == 1 && ZERO_ID[0] == 0;
    var b := Feed.Committed(batch);
    FirstAppendIsWritten(Replication.IngestRequest(b).value, Some(b.batchId), REPLICA_AMBIENT);
  }

  /** The one record of the keyed request. */
  lemma KeyedIsStored()
    ensures M.Fits(Streams.EMPTY, 0, KEYED, AMBIENT)
    ensures var batch := M.NewBatch(Streams.EMPTY, 0, KEYED, None, AMBIENT);
      && |batch| == 1 && Streams.Uniform(batch, NAME) && Streams.RequestOf(batch[0].envelope.metadata).Some?
      && batch[0].envelope.branchId == ZERO_ID && batch[0].envelope.eventId == OTHER_ID
  {
    hide M.NewBatch, Streams.StreamNameOf, Streams.RequestOf, Utf8, Streams.EventFingerprint, AL.ContentDigest, Streams.Uniform, M.StreamIdFor, M.BatchIdFor;
    AL.NewBatchShape(Streams.EMPTY, 0, KEYED, None, AMBIENT);
    AL.NewRecordAt(Streams.EMPTY, 0, KEYED, None, AMBIENT, 0);
  }

  lemma NameIsValid()
    ensures Replication.ValidName(NAME)
  {
  }

  lemma FreshAgrees()
    ensures Retries.CatalogAgrees(M.FreshDb())
  {
    assert Streams.Rebuilt(M.Flat([])) == Ok(Streams.EMPTY);
  }
}
