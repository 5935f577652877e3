/** Ingesting a batch another database committed: the request it becomes, what the replica
    stores, and what a redelivery is answered with. */
module Replication {
  import opened Base
  import opened Format
  import opened Streams
  import opened AppendMachine
  import opened AppendLaws
  import opened AppendSafety
  import opened Retries
  import opened Database
  import Rebuild
  import Branches
  import Crc
  import Feed

  type CommittedBatch = Feed.CommittedBatch

  // ── the request a batch becomes ────────────────────────────────────────

  /** The events agree with the batch they came in, one by one. */
  predicate Consistent(b: CommittedBatch, name: Bytes, i: nat)
    requires i < |b.events|
  {
    var r := b.events[i];
    && r.envelope.databaseId == b.databaseId && r.envelope.batchId == b.batchId && r.envelope.batchIndex == i
    && r.position == b.first + i && r.envelope.branchId == b.branchId && r.envelope.streamId in b.streamIds
    && StreamNameOf(r) == Ok(name)
  }

  predicate ValidName(name: Bytes) {
    1 <= |name| <= 1024 && 0 !in name && Utf8(name)
  }

  function Redelivered(r: Record): NewEvent {
    NewEvent(Some(r.envelope.eventId), r.envelope.eventType, r.envelope.schemaVersion, r.envelope.metadata, r.payload)
  }

  function RedeliveredAll(rs: seq<Record>): (es: seq<NewEvent>)
    ensures |es| == |rs| && forall i :: 0 <= i < |rs| ==> es[i] == Redelivered(rs[i])
  {
    seq(|rs|, i requires 0 <= i < |rs| => Redelivered(rs[i]))
  }

  function IngestRequest(b: CommittedBatch): Result<AppendMachine.Request> {
    if b.events == [] then Err(InvalidArgument)
    else if b.first > b.last || |b.events| != b.last - b.first + 1 then Err(InvalidArgument)
    else if StreamNameOf(b.events[0]).Err? then Err(InvalidArgument)
    else
      var name := StreamNameOf(b.events[0]).value;
      if exists i :: 0 <= i < |b.events| && !Consistent(b, name, i) then Err(InvalidArgument)
      else if name != [] && |name| > 1024 then Err(ResourceLimit)
      else if !ValidName(name) then Err(InvalidArgument)
      else Ok(AppendMachine.Request(b.branchId, name, AnyRevision, None, RedeliveredAll(b.events), Streams.Synced))
  }

  method CheckBatch(b: CommittedBatch) returns (r: Result<AppendMachine.Request>)
    ensures r == IngestRequest(b)
  {
    hide StreamNameOf, Utf8;
    if b.events == [] {
      return Err(InvalidArgument);
    }
    if b.first > b.last || |b.events| != b.last - b.first + 1 {
      return Err(InvalidArgument);
    }
    if StreamNameOf(b.events[0]).Err? {
      return Err(InvalidArgument);
    }
    var name := StreamNameOf(b.events[0]).value;
    var events: seq<NewEvent> := [];
    for i := 0 to |b.events|
      invariant forall k :: 0 <= k < i ==> Consistent(b, name, k)
      invariant events == RedeliveredAll(b.events)[..i]
    {
      if !Consistent(b, name, i) {
        return Err(InvalidArgument);
      }
      events := events + [Redelivered(b.events[i])];
    }
    assert events == RedeliveredAll(b.events);
    if name != [] && |name| > 1024 {
      return Err(ResourceLimit);
    }
    if !ValidName(name) {
      return Err(InvalidArgument);
    }
    return Ok(AppendMachine.Request(b.branchId, name, AnyRevision, None, events, Streams.Synced));
  }

  /** Check the batch, then append it under its own batch ID. */
  method IngestBatch(db: Salamander, b: CommittedBatch, amb: AppendMachine.Ambient) returns (r: Result<Receipt>)
    requires db.Valid()
    requires IngestRequest(b).Ok? ==>
               Fits(db.catalog.View(), Head(db.View()), IngestRequest(b).value, amb)
               && GeneratedAreFresh(db.catalog.View(), IngestRequest(b).value, amb)
    modifies db`durableHead, db`batches, db.log, db.log.active, db.catalog
    ensures db.Valid()
    ensures IngestRequest(b).Err? ==> r == Err(IngestRequest(b).error) && db.View() == old(db.View())
    ensures r.Ok? ==> r.value.durability == Streams.Synced && r.value.last < db.durableHead
    ensures IngestRequest(b).Ok? ==>
      exists refused :: (r, db.View()) == AfterAppend(old(db.View()), IngestRequest(b).value, Some(b.batchId), amb, refused)
  {
    hide DbInv, Rebuild.Journaled, Salamander.LogHolds, IngestRequest, AfterAppend, AppendRefusal, Fits, GeneratedAreFresh, Flat;
    var request :- CheckBatch(b);
    OnlyBatchesAreIngested(b);
    r := db.AppendBatchWithId(request, Some(b.batchId), amb);
  }

  // ── what ingestion means ───────────────────────────────────────────────

  /** A stored batch, as the feed hands it out, is accepted for ingestion. */
  lemma StoredBatchIsIngestible(batch: seq<Record>, name: Bytes)
    requires Uniform(batch, name) && ValidName(name)
    requires forall i :: 0 <= i < |batch| ==> batch[i].envelope.databaseId == batch[0].envelope.databaseId
    ensures IngestRequest(Feed.Committed(batch)).Ok?
    ensures IngestRequest(Feed.Committed(batch)).value.events == RedeliveredAll(batch)
    ensures IngestRequest(Feed.Committed(batch)).value.stream == name
  {
    hide StreamNameOf, Utf8;
    var b := Feed.Committed(batch);
    forall i | 0 <= i < |b.events| ensures Consistent(b, name, i) {
      assert batch[i] in batch;
      assert batch[i].envelope.streamId in b.streamIds;
    }
  }

  /** ONLY BATCHES ARE INGESTED: what is accepted is what a database would hand out of its own
      events, but for stream IDs that none of them has: one batch, neighbours counting from
      zero, one branch and one stream name. */
  lemma OnlyBatchesAreIngested(b: CommittedBatch)
    requires IngestRequest(b).Ok?
    ensures b.events != [] && Feed.Committed(b.events) == b.(streamIds := Feed.Committed(b.events).streamIds)
    ensures Feed.Committed(b.events).streamIds <= b.streamIds
    ensures forall i :: 0 <= i < |b.events| ==>
      && b.events[i].position == b.first + i && b.events[i].envelope.batchIndex == i
      && b.events[i].envelope.batchId == b.batchId && b.events[i].envelope.branchId == b.branchId
      && b.events[i].envelope.databaseId == b.databaseId && StreamNameOf(b.events[i]) == Ok(IngestRequest(b).value.stream)
    ensures IngestRequest(b).value.events == RedeliveredAll(b.events) && IngestRequest(b).value.branch == b.branchId
    ensures ValidName(IngestRequest(b).value.stream) && IngestRequest(b).value.durability == Streams.Synced
  {
    hide StreamNameOf, Utf8;
    var name := IngestRequest(b).value.stream;
    assert forall i :: 0 <= i < |b.events| ==> Consistent(b, name, i);
    assert Consistent(b, name, 0) && Consistent(b, name, |b.events| - 1);
    forall id | id in Feed.Committed(b.events).streamIds ensures id in b.streamIds {
      var r :| r in b.events && r.envelope.streamId == id;
      var i :| 0 <= i < |b.events| && b.events[i] == r;
      assert Consistent(b, name, i);
    }
    forall i | 0 <= i < |b.events|
      ensures b.events[i].position == b.first + i && b.events[i].envelope.batchIndex == i
      ensures b.events[i].envelope.batchId == b.batchId && b.events[i].envelope.branchId == b.branchId
      ensures b.events[i].envelope.databaseId == b.databaseId && StreamNameOf(b.events[i]) == Ok(name)
    {
      assert Consistent(b, name, i);
    }
  }

  /** A KEY TRAVELS: a batch appended under an idempotency key is ingested as a request that
      has none of its own but brings that key along in its metadata. */
  lemma KeyedBatchBringsKey(batch: seq<Record>, name: Bytes)
    requires Uniform(batch, name) && ValidName(name)
    requires forall i :: 0 <= i < |batch| ==> batch[i].envelope.databaseId == batch[0].envelope.databaseId
    requires batch != [] && RequestOf(batch[0].envelope.metadata).Some?
    ensures IngestRequest(Feed.Committed(batch)).Ok? && !BringsNoForeignKey(IngestRequest(Feed.Committed(batch)).value)
    ensures var req := IngestRequest(Feed.Committed(batch)).value;
      && req.key.None? && req.branch == batch[0].envelope.branchId && req.expected == AnyRevision && req.stream == name
      && req.events == RedeliveredAll(batch)
  {
    hide StreamNameOf, Utf8, RequestOf, Uniform;
    StoredBatchIsIngestible(batch, name);
    IngestKeepsBranch(batch, name);
    var req := IngestRequest(Feed.Committed(batch)).value;
    assert req.events[0] == Redelivered(batch[0]);
  }

  lemma IngestKeepsBranch(batch: seq<Record>, name: Bytes)
    requires Uniform(batch, name) && IngestRequest(Feed.Committed(batch)).Ok?
    ensures var req := IngestRequest(Feed.Committed(batch)).value;
      req.key.None? && batch != [] && req.branch == batch[0].envelope.branchId && req.expected == AnyRevision
  {
    hide StreamNameOf, Utf8, RequestOf;
  }

  /** REPLICATION: what the replica stores for an ingested batch carries the same events in
      the same order: IDs, types, contents, batch ID and indexes; only positions, revisions
      and clocks are its own. */
  lemma ReplicaStoresTheSameEvents(db: Db, b: CommittedBatch, amb: AppendMachine.Ambient, i: nat)
    requires IngestRequest(b).Ok? && Fits(db.catalog, Head(db), IngestRequest(b).value, amb) && |b.events| <= MAX_EVENTS && i < |b.events|
    ensures var copy := NewBatch(db.catalog, Head(db), IngestRequest(b).value, Some(b.batchId), amb);
      && |copy| == |b.events|
      && copy[i].envelope.eventId == b.events[i].envelope.eventId
      && copy[i].envelope.batchId == b.batchId && copy[i].envelope.batchIndex == b.events[i].envelope.batchIndex
      && copy[i].envelope.branchId == b.branchId && StreamNameOf(copy[i]) == StreamNameOf(b.events[i])
      && EventFingerprint(copy[i]) == EventFingerprint(b.events[i])
  {
    hide StreamNameOf, Utf8, Crc.Crc32c, NewBatch, Fits, OwnMetadata, RequestOf, NextRevision, StreamIdFor, Flat;
    var req := IngestRequest(b).value;
    NewRecordAt(db.catalog, Head(db), req, Some(b.batchId), amb, i);
    assert Consistent(b, req.stream, i);
  }

  /** REDELIVERED BATCHES get the first receipt again, or are refused; nothing is stored twice. */
  lemma RedeliveredBatchIsNotStoredAgain(db: Db, b: CommittedBatch, amb: AppendMachine.Ambient, ops: seq<Op>, amb': AppendMachine.Ambient)
    requires DbInv(db) && IngestRequest(b).Ok? && Writable(db, IngestRequest(b).value, Some(b.batchId), amb)
    requires RunFrom(AfterAppend(db, IngestRequest(b).value, Some(b.batchId), amb, None).1, ops)
    requires var later := After(AfterAppend(db, IngestRequest(b).value, Some(b.batchId), amb, None).1, ops);
      Fits(later.catalog, Head(later), IngestRequest(b).value, amb')
    ensures var (answer, next) := AfterAppend(db, IngestRequest(b).value, Some(b.batchId), amb, None);
      var later := After(next, ops);
      && answer.Ok? && b.branchId in later.branches.byId
      && Judge(later, IngestRequest(b).value, Some(b.batchId), amb') ==
         (if later.branches.byId[b.branchId].status == Branches.Archived then Refuse(BranchArchived) else Replay(answer.value))
      && AfterAppend(later, IngestRequest(b).value, Some(b.batchId), amb', None).1.batches == later.batches
  {
    hide DbInv, Writable, AfterAppend, After, RunFrom, Fits, Flat, Judge, ContentDigest, Repeats, Grows, RepeatVerdict;
    var req := IngestRequest(b).value;
    JudgedWrite(db, req, Some(b.batchId), amb);
    WrittenUnder(db, req, Some(b.batchId), amb);
    forall i | 0 <= i < |req.events| ensures Repeats(req.events[i], req.events) {
      RepeatsItself(req.events, i);
    }
    WriteKeeps(db, req, Some(b.batchId), amb);
    RunKeeps(AfterAppend(db, req, Some(b.batchId), amb, None).1, ops);
    BranchStays(AfterAppend(db, req, Some(b.batchId), amb, None).1, After(AfterAppend(db, req, Some(b.batchId), amb, None).1, ops), b.branchId);
    RedeliveryIsAnsweredAsBefore(db, req, Some(b.batchId), amb, ops, req, Some(b.batchId), amb');
    PlainVerdict(After(AfterAppend(db, req, Some(b.batchId), amb, None).1, ops), req, Some(b.batchId), amb', AfterAppend(db, req, Some(b.batchId), amb, None).0.value);
  }

  lemma RepeatsItself(events: seq<NewEvent>, i: nat)
    requires i < |events| && events[i].eventId.Some?
    ensures Repeats(events[i], events)
  {
  }

  lemma WrittenUnder(db: Db, req: AppendMachine.Request, supplied: Option<Id>, amb: AppendMachine.Ambient)
    requires Writable(db, req, supplied, amb)
    ensures Fits(db.catalog, Head(db), req, amb)
    ensures var (answer, next) := AfterAppend(db, req, supplied, amb, None);
      answer.Ok? && answer.value.batchId == BatchIdFor(supplied, amb) && req.branch in next.branches.byId
  {
    hide Judge, NewBatch, WithDigests, Flat, Recorded, Fits, GeneratedAreFresh;
    JudgedWrite(db, req, supplied, amb);
    WritableParts(db, req, supplied, amb);
  }
}
