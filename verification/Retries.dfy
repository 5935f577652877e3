/** Over whole runs: the live catalog against the one a rebuild arrives at, and what a
    retried or redelivered request is answered with. */
module Retries {
  import opened Base
  import opened Format
  import opened Streams
  import opened Branches
  import opened AppendMachine
  import opened AppendLaws
  import opened AppendSafety
  import BranchCatalogs

  // ── catalog agreement ──────────────────────────────────────────────────

  /** A rebuild of the log succeeds and finds what the live catalog holds, up to the
      durability its receipts report. */
  ghost predicate CatalogAgrees(db: Db) {
    Rebuilt(Flat(db.batches)).Ok? && Agree(db.catalog, Rebuilt(Flat(db.batches)).value)
  }

  /** A request without its own key brings no stored key along in its metadata. */
  predicate BringsNoForeignKey(req: Request) {
    req.key.Some? || forall i :: 0 <= i < |req.events| ==> RequestOf(req.events[i].metadata).None?
  }

  lemma KeysRecorded(c: Streams.Catalog)
    requires KeysIndexed(c)
    ensures KeysAreRecorded(c)
  {
  }

  lemma RebuiltSnoc(batches: Batches, batch: seq<Record>, name: Bytes)
    requires Rebuilt(Flat(batches)).Ok? && Continues(Rebuilt(Flat(batches)).value, batch, name)
    ensures Rebuilt(Flat(batches + [batch])) == Ok(WithBatch(Rebuilt(Flat(batches)).value, batch, name))
  {
    hide Flat, Continues, WithBatch, RebuiltFrom;
    FlatSnoc(batches, batch);
    RebuiltConcat(EMPTY, Flat(batches), batch);
    RebuildOfBatch(Rebuilt(Flat(batches)).value, batch, name, |batch|);
    assert batch[..|batch|] == batch;
  }

  lemma AgreementParts(a: Streams.Catalog, b: Streams.Catalog)
    requires Agree(a, b)
    ensures b.streams == a.streams && b.eventIds == a.eventIds && b.receipts.Keys == a.receipts.Keys
  {
  }

  /** The live update and the replayed batch side by side. */
  lemma UpdatesAgree(live: Streams.Catalog, rebuilt: Streams.Catalog, batch: seq<Record>, name: Bytes, request: Option<(Bytes, u32)>, receipt: Receipt)
    requires Agree(live, rebuilt) && KeysIndexed(live) && Continues(rebuilt, batch, name) && SameReceipt(receipt, ReceiptOver(batch))
    requires NameIn(batch) == name
    requires request.Some? ==> forall i :: 0 <= i < |batch| ==> RequestOf(batch[i].envelope.metadata) == request
    ensures Agree(CatalogAfter(live, batch, request, receipt), WithBatch(rebuilt, batch, name))
       <==> request.Some? || forall i :: 0 <= i < |batch| ==> RequestOf(batch[i].envelope.metadata).None?
  {
    hide Agree, RequestOf, Recorded, WithBatch, ReceiptOver, SameReceipt, KeysAreRecorded, NameIn, EventFingerprint, Uniform;
    UniformIsSome(batch, name);
    KeysRecorded(live);
    if request.Some? {
      KeyedAppendAgrees(live, rebuilt, batch, name, request.value, receipt);
    } else {
      KeylessAppendAgrees(live, rebuilt, batch, name, receipt);
    }
  }

  /** CATALOG AGREEMENT: an accepted append leaves the live catalog equal to a rebuild
      exactly if it brings no foreign idempotency key; the rebuild itself never fails. */
  lemma AppendAgreement(db: Db, req: Request, supplied: Option<Id>, amb: Ambient)
    requires DbInv(db) && CatalogAgrees(db) && Writable(db, req, supplied, amb)
    ensures var next := AfterAppend(db, req, supplied, amb, None).1;
      Rebuilt(Flat(next.batches)).Ok? && (CatalogAgrees(next) <==> BringsNoForeignKey(req))
  {
    hide Judge, NewBatch, AllPlaced, Writable, Flat, Fits, Agree, Continues, Recorded, WithBatch, Rebuilt, NewReceipt, SameReceipt,
         BranchCatalogs.ValidBranches, OnBranches, ForksAtBoundaries, IsBoundary, RequestOf, StreamsIndexed, StreamIdsIndexed,
         EventsIndexed, ReceiptsIndexed, KeysIndexed, NameIn, ReceiptOver, CatalogAfter, Uniform;
    var rebuilt := Rebuilt(Flat(db.batches)).value;
    JudgedWrite(db, req, supplied, amb);
    AgreementParts(db.catalog, rebuilt);
    NewBatchContinues(db, req, supplied, amb, rebuilt);
    var batch := NewBatch(db.catalog, Head(db), req, supplied, amb);
    NewReceiptFits(db, req, supplied, amb);
    RecordedIsBatch(db, req, supplied, amb);
    NewBatchShape(db.catalog, Head(db), req, supplied, amb);
    RebuiltSnoc(db.batches, batch, req.stream);
    RequestsStored(db, req, supplied, amb);
    UpdatesAgree(db.catalog, rebuilt, batch, req.stream, RequestStamp(req, amb), NewReceipt(db, req, supplied, amb));
  }

  lemma RequestsStored(db: Db, req: Request, supplied: Option<Id>, amb: Ambient)
    requires Fits(db.catalog, Head(db), req, amb) && |req.events| <= MAX_EVENTS
    ensures var batch := NewBatch(db.catalog, Head(db), req, supplied, amb);
      forall i :: 0 <= i < |batch| ==>
        RequestOf(batch[i].envelope.metadata) == if req.key.Some? then Some((req.key.value, amb.digest)) else RequestOf(req.events[i].metadata)
  {
    hide NewBatch, Flat, Fits, RequestOf, StreamNameOf, EventFingerprint, ContentDigest, BatchIdFor, NextRevision, StreamIdFor, EventIdAt;
    forall i | 0 <= i < |req.events|
      ensures RequestOf(NewBatch(db.catalog, Head(db), req, supplied, amb)[i].envelope.metadata)
           == if req.key.Some? then Some((req.key.value, amb.digest)) else RequestOf(req.events[i].metadata)
    {
      NewRecordAt(db.catalog, Head(db), req, supplied, amb, i);
    }
  }

  ghost predicate AllClean(ops: seq<Op>) {
    forall i :: 0 <= i < |ops| && ops[i].Append? ==> BringsNoForeignKey(ops[i].req)
  }

  lemma StepAgrees(db: Db, op: Op)
    requires DbInv(db) && CatalogAgrees(db) && Enabled(db, op)
    requires op.Append? ==> BringsNoForeignKey(op.req)
    ensures CatalogAgrees(Apply(db, op))
  {
    hide DbInv, Judge, Recorded, NewBatch, NewReceipt, Flat, Agree, Rebuilt, BoundaryAccepted, BranchCatalogs.WithBranch, Fits, GeneratedAreFresh;
    if op.Append? && Judge(db, op.req, op.supplied, op.amb).Write? && op.refused.None? {
      AppendAgreement(db, op.req, op.supplied, op.amb);
    }
  }

  lemma {:induction false} RunAgrees(db: Db, ops: seq<Op>)
    requires DbInv(db) && CatalogAgrees(db) && RunFrom(db, ops) && AllClean(ops)
    ensures CatalogAgrees(After(db, ops))
    decreases |ops|
  {
    hide DbInv, CatalogAgrees, Apply, Enabled, BringsNoForeignKey;
    if ops != [] {
      StepAgrees(db, ops[0]);
      StepKeeps(db, ops[0]);
      RunAgrees(Apply(db, ops[0]), ops[1..]);
    }
  }

  lemma CleanRunsAgree(ops: seq<Op>)
    requires RunFrom(FreshDb(), ops) && AllClean(ops)
    ensures CatalogAgrees(After(FreshDb(), ops))
  {
    hide DbInv;
    FreshIsInv();
    RunAgrees(FreshDb(), ops);
  }

  // ── retries ────────────────────────────────────────────────────────────

  lemma BranchStays(a: Db, b: Db, id: Id)
    requires Grows(a, b) && id in a.branches.byId
    ensures id in b.branches.byId
  {
  }

  lemma KeyIsRemembered(db: Db, req: Request, supplied: Option<Id>, amb: Ambient)
    requires Writable(db, req, supplied, amb) && req.key.Some?
    ensures Judge(db, req, supplied, amb) == Write && 0 < |req.events| <= MAX_EVENTS
    ensures var (answer, next) := AfterAppend(db, req, supplied, amb, None);
      answer.Ok? && req.branch in next.branches.byId && (req.branch, req.key.value) in next.catalog.idempotency
      && next.catalog.idempotency[(req.branch, req.key.value)] == KeyEntry(amb.digest, answer.value)
  {
    hide Judge, NewBatch, WithDigests, Flat, NewReceipt, Fits, GeneratedAreFresh, Writable;
    JudgedWrite(db, req, supplied, amb);
    WritableParts(db, req, supplied, amb);
  }

  /** IDEMPOTENT RETRY: whatever happened since, the same key is answered with the very
      receipt of the first append, or refused; nothing is written either way. */
  lemma RetryIsAnsweredAsBefore(db: Db, req: Request, supplied: Option<Id>, amb: Ambient, ops: seq<Op>,
                                again: Request, supplied': Option<Id>, amb': Ambient)
    requires DbInv(db) && Writable(db, req, supplied, amb) && req.key.Some?
    requires RunFrom(AfterAppend(db, req, supplied, amb, None).1, ops)
    requires var later := After(AfterAppend(db, req, supplied, amb, None).1, ops); Fits(later.catalog, Head(later), again, amb')
    requires again.branch == req.branch && again.key == req.key && 0 < |again.events| <= MAX_EVENTS
    ensures var (answer, next) := AfterAppend(db, req, supplied, amb, None);
      var later := After(next, ops);
      && answer.Ok? && req.branch in later.branches.byId
      && Judge(later, again, supplied', amb') ==
         (if later.branches.byId[req.branch].status == Archived then Refuse(BranchArchived)
          else if amb'.digest != amb.digest then Refuse(IdempotencyConflict)
          else Replay(answer.value))
      && AfterAppend(later, again, supplied', amb', None).1.batches == later.batches
  {
    hide DbInv, Writable, AfterAppend, After, RunFrom, Fits, Flat, NewBatch, Conflicting, AnySeen, AllOfOneBatch;
    JudgedWrite(db, req, supplied, amb);
    var (answer, next) := AfterAppend(db, req, supplied, amb, None);
    KeyIsRemembered(db, req, supplied, amb);
    WriteKeeps(db, req, supplied, amb);
    RunKeeps(next, ops);
    var later := After(next, ops);
    KeyStays(next, later, (req.branch, req.key.value));
    BranchStays(next, later, req.branch);
    OnlyWritesWrite(later, again, supplied', amb');
  }

  lemma KeyStays(a: Db, b: Db, k: (Id, Bytes))
    requires Grows(a, b) && k in a.catalog.idempotency
    ensures k in b.catalog.idempotency && b.catalog.idempotency[k] == a.catalog.idempotency[k]
  {
  }

  lemma OnlyWritesWrite(db: Db, req: Request, supplied: Option<Id>, amb: Ambient)
    requires Fits(db.catalog, Head(db), req, amb)
    ensures !Judge(db, req, supplied, amb).Write? ==> AfterAppend(db, req, supplied, amb, None).1.batches == db.batches
  {
    hide Judge, Fits, NewBatch, NewReceipt, Recorded;
  }

  /** The event is one of a request's: same ID, same content. */
  predicate Repeats(event: NewEvent, events: seq<NewEvent>) {
    event.eventId.Some? && exists j :: 0 <= j < |events| && events[j].eventId == event.eventId && ContentDigest(events[j]) == ContentDigest(event)
  }

  lemma EventIsRemembered(db: Db, req: Request, supplied: Option<Id>, amb: Ambient, event: NewEvent)
    requires DbInv(db) && Writable(db, req, supplied, amb) && Repeats(event, req.events)
    ensures Judge(db, req, supplied, amb) == Write && 0 < |req.events| <= MAX_EVENTS
    ensures var (answer, next) := AfterAppend(db, req, supplied, amb, None);
      && answer.Ok? && answer.value.batchId in next.catalog.receipts && next.catalog.receipts[answer.value.batchId] == answer.value
      && event.eventId.value in next.catalog.eventIds
      && next.catalog.eventIds[event.eventId.value] == (ContentDigest(event), answer.value.batchId)
  {
    hide DbInv, Judge, NewBatch, WithDigests, Flat, Fits, GeneratedAreFresh, Writable, EventFingerprint, ContentDigest, CatalogIndexes,
         StreamNameOf, RequestOf, StreamIdFor, NextRevision, BatchIdFor, NameIn, RequestStamp;
    JudgedWrite(db, req, supplied, amb);
    WriteKeeps(db, req, supplied, amb);
    NewBatchShape(db.catalog, Head(db), req, supplied, amb);
    var j :| 0 <= j < |req.events| && req.events[j].eventId == event.eventId && ContentDigest(req.events[j]) == ContentDigest(event);
    NewRecordAt(db.catalog, Head(db), req, supplied, amb, j);
    var next := AfterAppend(db, req, supplied, amb, None).1;
    LastBatchIndexed(next, j);
  }

  lemma LastBatchIndexed(db: Db, j: nat)
    requires DbInv(db) && db.batches != [] && j < |db.batches[|db.batches| - 1]|
    ensures EventIndexed(db.catalog, db.batches[|db.batches| - 1][j])
  {
    hide AllPlaced, Flat, EventIndexed, StreamsIndexed, StreamIdsIndexed, ReceiptsIndexed, KeysIndexed, BranchCatalogs.ValidBranches, OnBranches,
         ForksAtBoundaries, IsBoundary;
  }

  ghost predicate AllRemembered(c: Streams.Catalog, events: seq<NewEvent>, batchId: Id) {
    forall i :: 0 <= i < |events| ==>
      && events[i].eventId.Some? && events[i].eventId.value in c.eventIds
      && c.eventIds[events[i].eventId.value] == (ContentDigest(events[i]), batchId)
  }

  /** How a request made of events of one stored batch is answered: its key and its
      expectation are looked at first, then the batch it repeats. */
  function RepeatVerdict(db: Db, req: Request, supplied: Option<Id>, amb: Ambient, original: Receipt): Verdict {
    if req.branch !in db.branches.byId then Refuse(BranchNotFound)
    else if db.branches.byId[req.branch].status == Archived then Refuse(BranchArchived)
    else if req.key.Some? && (req.branch, req.key.value) in db.catalog.idempotency then
      var entry := db.catalog.idempotency[(req.branch, req.key.value)];
      if entry.digest != amb.digest then Refuse(IdempotencyConflict) else Replay(entry.receipt)
    else if !Expectation(req.expected, PreviousRevision(db.catalog, req.branch, req.stream)) then Refuse(RevisionConflict)
    else if supplied.Some? && supplied.value != original.batchId then Refuse(BatchIdConflict)
    else Replay(original)
  }

  lemma PlainVerdict(db: Db, req: Request, supplied: Option<Id>, amb: Ambient, original: Receipt)
    requires req.branch in db.branches.byId && req.key.None? && req.expected == AnyRevision
    requires supplied.Some? ==> supplied.value == original.batchId
    ensures RepeatVerdict(db, req, supplied, amb, original) ==
      if db.branches.byId[req.branch].status == Archived then Refuse(BranchArchived) else Replay(original)
  {
    hide PreviousRevision;
  }

  /** A request made of remembered events conflicts with nothing and finds its batch. */
  lemma RememberedIsReplayed(db: Db, req: Request, supplied: Option<Id>, amb: Ambient, batchId: Id)
    requires Fits(db.catalog, Head(db), req, amb) && 0 < |req.events| <= MAX_EVENTS
    requires AllRemembered(db.catalog, req.events, batchId) && batchId in db.catalog.receipts
    requires db.catalog.receipts[batchId].batchId == batchId
    ensures Judge(db, req, supplied, amb) == RepeatVerdict(db, req, supplied, amb, db.catalog.receipts[batchId])
  {
    hide Fits, Flat, NewBatch, EventFingerprint, ContentDigest, BatchIdFor, Conflicting, AnySeen, AllOfOneBatch;
    RememberedFitsIn(db.catalog, Head(db), req, supplied, amb, batchId);
    assert req.events[0].eventId.value in db.catalog.eventIds;
  }

  lemma RememberedFitsIn(c: Streams.Catalog, head: nat, req: Request, supplied: Option<Id>, amb: Ambient, batchId: Id)
    requires Fits(c, head, req, amb) && 0 < |req.events| <= MAX_EVENTS
    requires AllRemembered(c, req.events, batchId) && batchId in c.receipts
    ensures !Conflicting(c, NewBatch(c, head, req, supplied, amb))
    ensures AnySeen(c, req.events) && AllOfOneBatch(c, req.events)
  {
    hide Fits, NewBatch, EventFingerprint, ContentDigest, BatchIdFor, StreamNameOf, RequestOf, StreamIdFor, NextRevision, RequestStamp;
    var batch := NewBatch(c, head, req, supplied, amb);
    forall i | 0 <= i < |batch|
      ensures batch[i].envelope.eventId in c.eventIds && c.eventIds[batch[i].envelope.eventId].0 == EventFingerprint(batch[i])
    {
      NewRecordAt(c, head, req, supplied, amb, i);
    }
    assert Seen(c, req.events[0]);
  }

  /** REDELIVERY: whatever happened since, a request made of events of an earlier one is
      answered with that batch's receipt, or its own known key's, or refused; whatever it
      expects and under whatever key, nothing is written. */
  lemma RedeliveryIsAnsweredAsBefore(db: Db, req: Request, supplied: Option<Id>, amb: Ambient, ops: seq<Op>,
                                     again: Request, supplied': Option<Id>, amb': Ambient)
    requires DbInv(db) && Writable(db, req, supplied, amb)
    requires RunFrom(AfterAppend(db, req, supplied, amb, None).1, ops)
    requires var later := After(AfterAppend(db, req, supplied, amb, None).1, ops); Fits(later.catalog, Head(later), again, amb')
    requires 0 < |again.events| <= MAX_EVENTS && forall i :: 0 <= i < |again.events| ==> Repeats(again.events[i], req.events)
    ensures var (answer, next) := AfterAppend(db, req, supplied, amb, None);
      var later := After(next, ops);
      && answer.Ok?
      && Judge(later, again, supplied', amb') == RepeatVerdict(later, again, supplied', amb', answer.value)
      && AfterAppend(later, again, supplied', amb', None).1.batches == later.batches
  {
    hide DbInv, Writable, AfterAppend, After, RunFrom, Fits, Flat, NewBatch, Conflicting, AnySeen, AllOfOneBatch, ContentDigest, Judge, Repeats, Grows;
    JudgedWrite(db, req, supplied, amb);
    var (answer, next) := AfterAppend(db, req, supplied, amb, None);
    RepeatsSome(again.events[0], req.events);
    EventIsRemembered(db, req, supplied, amb, again.events[0]);
    WriteKeeps(db, req, supplied, amb);
    RunKeeps(next, ops);
    var later := After(next, ops);
    forall i | 0 <= i < |again.events|
      ensures again.events[i].eventId.Some? && again.events[i].eventId.value in later.catalog.eventIds
      ensures later.catalog.eventIds[again.events[i].eventId.value] == (ContentDigest(again.events[i]), answer.value.batchId)
    {
      RepeatsSome(again.events[i], req.events);
      EventIsRemembered(db, req, supplied, amb, again.events[i]);
      EventStays(next, later, again.events[i].eventId.value);
    }
    ReceiptStays(next, later, answer.value.batchId);
    OnlyWritesWrite(later, again, supplied', amb');
    RememberedIsReplayed(later, again, supplied', amb', answer.value.batchId);
  }

  /** A receipt names a stored batch, says `Synced` only of positions below the durable one,
      and says it if it was asked for. */
  predicate Honest(answer: Result<Receipt>, req: Request, next: Db) {
    answer.Ok? ==>
      && answer.value.batchId in next.catalog.receipts
      && PartReceipt(answer.value, next.catalog.receipts[answer.value.batchId])
      && (answer.value.durability == Synced ==> answer.value.last < next.durable)
      && (req.durability == Synced ==> answer.value.durability == Synced)
  }

  /** SYNCED MEANS DURABLE: every append is answered honestly, retries included. */
  lemma SyncedAnswers(db: Db, req: Request, supplied: Option<Id>, amb: Ambient, refused: Option<Error>)
    requires DbInv(db) && Fits(db.catalog, Head(db), req, amb)
    ensures var (answer, next) := AfterAppend(db, req, supplied, amb, refused); Honest(answer, req, next)
  {
    hide DbInv, Judge, Flat, Head, Fits, NewBatch, WithDigests, PreviousRevision, RequestStamp, NextRevision, StreamIdFor, BatchIdFor;
    match Judge(db, req, supplied, amb)
    case Refuse(_) =>
    case Replay(receipt) =>
      ReplayIsKnown(db, req, supplied, amb, receipt);
    case Write =>
      NothingToWrite(db, req, supplied, amb);
  }

  lemma NothingToWrite(db: Db, req: Request, supplied: Option<Id>, amb: Ambient)
    requires Fits(db.catalog, Head(db), req, amb)
    ensures Judge(db, req, supplied, amb).Write? ==> 0 < |req.events| <= MAX_EVENTS
  {
    hide Fits, NewBatch, Conflicting, AnySeen, KnownVerdict, Expectation;
  }

  /** SYNC WHEN DUE: a written append is synced, receipt and durable head alike, exactly if the
      request asks for it or the commit policy says so. */
  lemma WrittenIsSyncedWhenDue(db: Db, req: Request, supplied: Option<Id>, amb: Ambient)
    requires DbInv(db) && Writable(db, req, supplied, amb)
    ensures var (answer, next) := AfterAppend(db, req, supplied, amb, None);
      && answer.Ok? && next.durable == (if req.durability == Synced || amb.due then Head(next) else db.durable)
      && (answer.value.durability == Synced <==> req.durability == Synced || amb.due)
      && (req.durability == Synced || amb.due <==> answer.value.last < next.durable)
  {
    hide AllPlaced, CatalogIndexes, BranchCatalogs.ValidBranches, OnBranches, ForksAtBoundaries, IsBoundary, SyncedIsDurable,
         Judge, Writable, Flat, Fits, NewBatch, Recorded, PreviousRevision, RequestStamp, NextRevision, StreamIdFor, BatchIdFor;
    JudgedWrite(db, req, supplied, amb);
    BoundaryWithin(db.batches, db.durable);
    FlatSnoc(db.batches, NewBatch(db.catalog, Head(db), req, supplied, amb));
  }

  /** A replayed receipt is a recorded one. */
  lemma ReplayIsKnown(db: Db, req: Request, supplied: Option<Id>, amb: Ambient, receipt: Receipt)
    requires DbInv(db) && Fits(db.catalog, Head(db), req, amb) && Judge(db, req, supplied, amb) == Replay(receipt)
    ensures receipt.batchId in db.catalog.receipts && PartReceipt(receipt, db.catalog.receipts[receipt.batchId])
    ensures receipt.last < Head(db) && (receipt.durability == Synced ==> receipt.last < db.durable)
  {
    hide AllPlaced, StreamsIndexed, StreamIdsIndexed, EventsIndexed, ReceiptsIndexed, BranchCatalogs.ValidBranches, OnBranches,
         ForksAtBoundaries, IsBoundary, Flat, Fits, NewBatch, Conflicting, Expectation, PreviousRevision;
    ReceiptsBelowHead(db.catalog, db.batches);
    IndexedReceipts(db);
  }

  /** KNOWN EVENTS are never written again: a request that names the ID of a stored event,
      at any later time, with whatever other events, expectation, key and batch ID, stores
      nothing. */
  lemma KnownEventIsNeverWritten(db: Db, later: Db, id: Id, req: Request, supplied: Option<Id>, amb: Ambient, refused: Option<Error>)
    requires DbInv(later) && Grows(db, later) && id in db.catalog.eventIds
    requires Fits(later.catalog, Head(later), req, amb)
    requires exists i :: 0 <= i < |req.events| && req.events[i].eventId == Some(id)
    ensures !Judge(later, req, supplied, amb).Write?
    ensures AfterAppend(later, req, supplied, amb, refused).1.batches == later.batches
  {
    hide DbInv, Fits, Flat, NewBatch, Conflicting, AllOfOneBatch, NewReceipt, Recorded, EventFingerprint, Grows, Expectation;
    EventStays(db, later, id);
    KnownHasReceipt(later, id);
    var i :| 0 <= i < |req.events| && req.events[i].eventId == Some(id);
    assert Seen(later.catalog, req.events[i]);
  }

  lemma KnownHasReceipt(db: Db, id: Id)
    requires DbInv(db)
    ensures id in db.catalog.eventIds ==> db.catalog.eventIds[id].1 in db.catalog.receipts
  {
    hide AllPlaced, StreamsIndexed, StreamIdsIndexed, EventsIndexed, ReceiptsIndexed, KeysIndexed, BranchCatalogs.ValidBranches, OnBranches,
         ForksAtBoundaries, IsBoundary, Flat;
    EventsHaveReceipts(db.catalog, db.batches, id);
  }

  lemma RepeatsSome(event: NewEvent, events: seq<NewEvent>)
    requires Repeats(event, events)
    ensures event.eventId.Some?
  {
  }

  lemma EventStays(a: Db, b: Db, id: Id)
    requires Grows(a, b) && id in a.catalog.eventIds
    ensures id in b.catalog.eventIds && b.catalog.eventIds[id] == a.catalog.eventIds[id]
  {
  }

  lemma ReceiptStays(a: Db, b: Db, id: Id)
    requires Grows(a, b) && id in a.catalog.receipts
    ensures id in b.catalog.receipts && b.catalog.receipts[id] == a.catalog.receipts[id]
  {
  }
}
