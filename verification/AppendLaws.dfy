/** What every reachable database keeps: dense positions, gapless revisions, contiguous
    batches, one batch per event ID, and a catalog that indexes exactly what is stored. */
module AppendLaws {
  import opened Base
  import opened Format
  import opened Streams
  import opened Branches
  import opened AppendMachine
  import BranchCatalogs
  import Crc
  import LittleEndian

  // ── the invariant ──────────────────────────────────────────────────────

  function NameIn(batch: seq<Record>): Bytes
    requires batch != []
  {
    if StreamNameOf(batch[0]).Ok? then StreamNameOf(batch[0]).value else []
  }

  predicate OnStream(r: Record, branch: Id, name: Bytes) {
    r.envelope.branchId == branch && StreamNameOf(r) == Ok(name)
  }

  /** How many of the records belong to a stream. */
  function CountIn(rs: seq<Record>, branch: Id, name: Bytes): nat
    decreases |rs|
  {
    if rs == [] then 0
    else CountIn(rs[..|rs| - 1], branch, name) + if OnStream(rs[|rs| - 1], branch, name) then 1 else 0
  }

  /** One batch sits at its position and carries the next revisions of its stream. */
  ghost predicate Placed(batches: Batches, k: nat)
    requires k < |batches|
  {
    var batch := batches[k];
    && batch != [] && Uniform(batch, NameIn(batch))
    && batch[0].position == Start(batches, k)
    && batch[0].envelope.revision == CountIn(Flat(batches[..k]), batch[0].envelope.branchId, NameIn(batch))
  }

  ghost predicate AllPlaced(batches: Batches) {
    forall k :: 0 <= k < |batches| ==> batches[k] != [] && Placed(batches, k)
  }

  /** The stream index: the last revision is one less than the number of records. */
  ghost predicate StreamsIndexed(c: Streams.Catalog, batches: Batches) {
    forall branch: Id, name: Bytes :: NextRevision(c, branch, name) == CountIn(Flat(batches), branch, name)
  }

  ghost predicate StreamIdsIndexed(c: Streams.Catalog, batches: Batches)
    requires AllPlaced(batches)
  {
    forall k :: 0 <= k < |batches| ==> StreamIdIndexed(c, batches[k])
  }

  predicate StreamIdIndexed(c: Streams.Catalog, batch: seq<Record>)
    requires batch != []
  {
    var key := (batch[0].envelope.branchId, NameIn(batch));
    key in c.streams && c.streams[key].id == batch[0].envelope.streamId
  }

  /** The event index: every stored event under its fingerprint and batch, nothing else. */
  ghost predicate EventsIndexed(c: Streams.Catalog, batches: Batches) {
    && (forall k, i :: 0 <= k < |batches| && 0 <= i < |batches[k]| ==> EventIndexed(c, batches[k][i]))
    && (forall id :: id in c.eventIds ==> exists k :: 0 <= k < |batches| && Mentions(batches[k], id))
  }

  predicate EventIndexed(c: Streams.Catalog, r: Record) {
    r.envelope.eventId in c.eventIds && c.eventIds[r.envelope.eventId] == (EventFingerprint(r), r.envelope.batchId)
  }

  /** The receipts: one per batch, saying where it lies. */
  ghost predicate ReceiptsIndexed(c: Streams.Catalog, batches: Batches)
    requires AllPlaced(batches)
  {
    && (forall k :: 0 <= k < |batches| ==> ReceiptIndexed(c, batches[k]))
    && (forall id :: id in c.receipts ==> exists k :: 0 <= k < |batches| && batches[k][0].envelope.batchId == id)
    && (forall i, k :: 0 <= i < k < |batches| ==> batches[i][0].envelope.batchId != batches[k][0].envelope.batchId)
  }

  predicate ReceiptIndexed(c: Streams.Catalog, batch: seq<Record>)
    requires batch != []
  {
    batch[0].envelope.batchId in c.receipts && SameReceipt(c.receipts[batch[0].envelope.batchId], ReceiptOver(batch))
  }

  /** A receipt over the leading part of a batch. */
  predicate PartReceipt(part: Receipt, whole: Receipt) {
    && part.(last := whole.last, current := whole.current, durability := whole.durability) == whole
    && part.last <= whole.last && part.current <= whole.current
  }

  /** Idempotency entries name a recorded batch: a live catalog notes its whole receipt, a
      rebuilt one the part up to the last event that carried the key. */
  ghost predicate KeysIndexed(c: Streams.Catalog) {
    forall k :: k in c.idempotency ==>
      && c.idempotency[k].receipt.batchId in c.receipts
      && PartReceipt(c.idempotency[k].receipt, c.receipts[c.idempotency[k].receipt.batchId])
  }

  /** What live appends keep beyond that: every entry repeats its batch's receipt. */
  ghost predicate KeysRepeatReceipts(c: Streams.Catalog) {
    forall k :: k in c.idempotency ==>
      && c.idempotency[k].receipt.batchId in c.receipts
      && SameReceipt(c.idempotency[k].receipt, c.receipts[c.idempotency[k].receipt.batchId])
  }

  ghost predicate CatalogIndexes(c: Streams.Catalog, batches: Batches)
    requires AllPlaced(batches)
  {
    StreamsIndexed(c, batches) && StreamIdsIndexed(c, batches) && EventsIndexed(c, batches) && ReceiptsIndexed(c, batches) && KeysIndexed(c)
  }

  /** Batches lie on known branches, at or above the branch's fork. */
  ghost predicate OnBranches(branches: BranchMap, batches: Batches)
    requires AllPlaced(batches)
  {
    forall k :: 0 <= k < |batches| ==>
      && batches[k][0].envelope.branchId in branches
      && var info := branches[batches[k][0].envelope.branchId];
         info.forkPosition.Some? ==> info.forkPosition.value <= Start(batches, k)
  }

  ghost predicate IsBoundary(batches: Batches, at: nat) {
    exists k :: 0 <= k <= |batches| && Start(batches, k) == at
  }

  ghost predicate ForksAtBoundaries(branches: BranchMap, batches: Batches) {
    forall id :: id in branches && branches[id].forkPosition.Some? ==> IsBoundary(batches, branches[id].forkPosition.value)
  }

  /** No receipt claims more than the database: what is called synced lies below the durable
      position. */
  ghost predicate SyncedIsDurable(c: Streams.Catalog, durable: nat) {
    && (forall id :: id in c.receipts && c.receipts[id].durability == Synced ==> c.receipts[id].last < durable)
    && (forall k :: k in c.idempotency && c.idempotency[k].receipt.durability == Synced ==> c.idempotency[k].receipt.last < durable)
  }

  ghost predicate DbInv(db: Db) {
    && AllPlaced(db.batches)
    && CatalogIndexes(db.catalog, db.batches)
    && BranchCatalogs.ValidBranches(db.branches.byId)
    && OnBranches(db.branches.byId, db.batches)
    && ForksAtBoundaries(db.branches.byId, db.batches)
    && IsBoundary(db.batches, db.durable)
    && SyncedIsDurable(db.catalog, db.durable)
  }

  // ── flattening ─────────────────────────────────────────────────────────

  lemma FlatSnoc(batches: Batches, batch: seq<Record>)
    ensures Flat(batches + [batch]) == Flat(batches) + batch
    ensures forall k :: 0 <= k <= |batches| ==> (batches + [batch])[..k] == batches[..k]
  {
    assert (batches + [batch])[..|batches|] == batches;
  }

  lemma {:induction false} StartsAscend(batches: Batches, i: nat, k: nat)
    requires i <= k <= |batches|
    ensures Flat(batches[..i]) <= Flat(batches[..k])
    decreases k
  {
    if i < k {
      StartsAscend(batches, i, k - 1);
      assert batches[..k][..k - 1] == batches[..k - 1];
    }
  }

  lemma StartNext(batches: Batches, k: nat)
    requires k < |batches|
    ensures Flat(batches[..k + 1]) == Flat(batches[..k]) + batches[k]
    ensures Start(batches, k + 1) == Start(batches, k) + |batches[k]|
  {
    assert batches[..k + 1][..k] == batches[..k];
  }

  lemma WholeFlat(batches: Batches)
    ensures batches[..|batches|] == batches && Start(batches, |batches|) == |Flat(batches)|
  {
  }

  /** Which batch a position falls into. */
  lemma Locate(batches: Batches, p: nat) returns (k: nat)
    requires p < |Flat(batches)|
    ensures k < |batches| && Start(batches, k) <= p < Start(batches, k) + |batches[k]|
    ensures Flat(batches)[p] == batches[k][p - Start(batches, k)]
  {
    WholeFlat(batches);
    k := |batches|;
    while Start(batches, k) > p
      invariant 0 <= k <= |batches|
      invariant k < |batches| ==> p < Start(batches, k + 1)
      decreases k
    {
      k := k - 1;
      StartNext(batches, k);
    }
    StartNext(batches, k);
    StartsAscend(batches, k + 1, |batches|);
  }

  lemma InFlat(batches: Batches, k: nat, i: nat)
    requires k < |batches| && i < |batches[k]|
    ensures Start(batches, k) + i < |Flat(batches)| && Flat(batches)[Start(batches, k) + i] == batches[k][i]
  {
    WholeFlat(batches);
    StartNext(batches, k);
    StartsAscend(batches, k + 1, |batches|);
  }

  // ── counting ───────────────────────────────────────────────────────────

  lemma {:induction false} CountConcat(a: seq<Record>, b: seq<Record>, branch: Id, name: Bytes)
    ensures CountIn(a + b, branch, name) == CountIn(a, branch, name) + CountIn(b, branch, name)
    decreases |b|
  {
    hide OnStream;
    if b == [] {
      assert a + b == a;
    } else {
      assert (a + b)[..|a + b| - 1] == a + b[..|b| - 1];
      CountConcat(a, b[..|b| - 1], branch, name);
    }
  }

  lemma {:induction false} CountUniform(batch: seq<Record>, branch: Id, name: Bytes, n: nat)
    requires batch != [] && Uniform(batch, NameIn(batch)) && n <= |batch|
    ensures CountIn(batch[..n], branch, name) == if branch == batch[0].envelope.branchId && name == NameIn(batch) then n else 0
    decreases n
  {
    hide StreamNameOf;
    if n > 0 {
      CountUniform(batch, branch, name, n - 1);
      assert batch[..n][..n - 1] == batch[..n - 1];
      assert StreamNameOf(batch[n - 1]) == Ok(NameIn(batch));
    }
  }

  // ── one accepted append ────────────────────────────────────────────────

  /** What `Judge` found out before a batch is written. */
  ghost predicate Writable(db: Db, req: Request, supplied: Option<Id>, amb: Ambient) {
    && Fits(db.catalog, Head(db), req, amb) && GeneratedAreFresh(db.catalog, req, amb)
    && Judge(db, req, supplied, amb) == Write
  }

  /** The stored form of one event of a request. */
  lemma NewRecordAt(c: Streams.Catalog, head: nat, req: Request, supplied: Option<Id>, amb: Ambient, i: nat)
    requires Fits(c, head, req, amb) && i < |req.events| <= MAX_EVENTS
    ensures var r := NewBatch(c, head, req, supplied, amb)[i];
      && r.kind == Event && r.position == head + i
      && r.envelope.revision == NextRevision(c, req.branch, req.stream) + i
      && r.envelope.batchIndex == i && r.envelope.batchId == BatchIdFor(supplied, amb)
      && r.envelope.branchId == req.branch && r.envelope.streamId == StreamIdFor(c, req, amb)
      && r.envelope.eventId == EventIdAt(req, amb, i)
      && StreamNameOf(r) == Ok(req.stream)
      && RequestOf(r.envelope.metadata) == (if req.key.Some? then RequestStamp(req, amb) else RequestOf(req.events[i].metadata))
      && EventFingerprint(r) == ContentDigest(req.events[i])
      && SameEvent(r, req.events[i])
      && r.envelope.databaseId == amb.databaseId && r.envelope.timestamp == amb.timestamp && r.envelope.codec == RUST_BINCODE_V1
  {
    hide Stamped, Lookup, StreamIdFor, NextRevision, BatchIdFor, Utf8, OwnMetadata, RequestOf, Crc.Crc32c;
    StampedEntries(req.events[i].metadata, req.stream, RequestStamp(req, amb));
  }

  /** The record holds the event: its type, version, body and every entry of its own. */
  predicate SameEvent(r: Record, e: NewEvent) {
    && r.envelope.eventType == e.eventType && r.envelope.schemaVersion == e.schemaVersion && r.payload == e.body
    && OwnMetadata(r.envelope.metadata) == OwnMetadata(e.metadata)
  }

  function EventIdAt(req: Request, amb: Ambient, i: nat): Id
    requires i < |req.events| == |amb.eventIds|
  {
    if req.events[i].eventId.Some? then req.events[i].eventId.value else amb.eventIds[i]
  }

  /** Only the event's own content decides its fingerprint, not where and how it is stored. */
  function ContentDigest(e: NewEvent): u32 {
    Crc.Crc32c(e.eventType + LittleEndian.ToBytes(e.schemaVersion, 4) + OwnMetadata(e.metadata) + e.body)
  }

  lemma NewBatchShape(c: Streams.Catalog, head: nat, req: Request, supplied: Option<Id>, amb: Ambient)
    requires Fits(c, head, req, amb) && 0 < |req.events| <= MAX_EVENTS
    ensures var batch := NewBatch(c, head, req, supplied, amb);
      && Uniform(batch, req.stream) && NameIn(batch) == req.stream
      && batch[0].position == head && batch[0].envelope.revision == NextRevision(c, req.branch, req.stream)
      && batch[0].envelope.branchId == req.branch && batch[0].envelope.streamId == StreamIdFor(c, req, amb)
      && batch[0].envelope.batchId == BatchIdFor(supplied, amb)
  {
    hide NewBatch, StreamNameOf, StreamIdFor, NextRevision, BatchIdFor, RequestOf, RequestStamp, EventFingerprint, ContentDigest, Fits, EventIdAt;
    forall i | 0 <= i < |req.events|
      ensures var r := NewBatch(c, head, req, supplied, amb)[i];
        && r.kind == Event && r.position == head + i
        && r.envelope.revision == NextRevision(c, req.branch, req.stream) + i
        && r.envelope.batchIndex == i && r.envelope.batchId == BatchIdFor(supplied, amb)
        && r.envelope.branchId == req.branch && r.envelope.streamId == StreamIdFor(c, req, amb)
        && StreamNameOf(r) == Ok(req.stream)
    {
      NewRecordAt(c, head, req, supplied, amb, i);
    }
  }

  lemma WritableParts(db: Db, req: Request, supplied: Option<Id>, amb: Ambient)
    requires Writable(db, req, supplied, amb)
    ensures 0 < |req.events| <= MAX_EVENTS
    ensures req.branch in db.branches.byId && db.branches.byId[req.branch].status == Active
    ensures BatchIdFor(supplied, amb) !in db.catalog.receipts
    ensures !Conflicting(db.catalog, NewBatch(db.catalog, Head(db), req, supplied, amb))
    ensures !AnySeen(db.catalog, req.events)
    ensures req.key.Some? ==> (req.branch, req.key.value) !in db.catalog.idempotency
    ensures Expectation(req.expected, PreviousRevision(db.catalog, req.branch, req.stream))
  {
    hide Conflicting, AnySeen, AllOfOneBatch, NewBatch;
  }

  /** None of the new batch's event IDs was known. */
  lemma NewEventsAreNew(db: Db, req: Request, supplied: Option<Id>, amb: Ambient)
    requires Writable(db, req, supplied, amb) && AllPlaced(db.batches)
    requires EventsIndexed(db.catalog, db.batches) && ReceiptsIndexed(db.catalog, db.batches)
    ensures 0 < |req.events| <= MAX_EVENTS
    ensures var batch := NewBatch(db.catalog, Head(db), req, supplied, amb);
      forall i :: 0 <= i < |batch| ==> batch[i].envelope.eventId !in db.catalog.eventIds
  {
    hide Judge, EventFingerprint, Uniform, Stamped;
    WritableParts(db, req, supplied, amb);
    var batch := NewBatch(db.catalog, Head(db), req, supplied, amb);
    forall i | 0 <= i < |batch| ensures batch[i].envelope.eventId !in db.catalog.eventIds {
      if req.events[i].eventId.Some? {
        assert !Seen(db.catalog, req.events[i]);
        EventsHaveReceipts(db.catalog, db.batches, req.events[i].eventId.value);
      }
    }
  }

  lemma EventsHaveReceipts(c: Streams.Catalog, batches: Batches, id: Id)
    requires AllPlaced(batches) && EventsIndexed(c, batches) && ReceiptsIndexed(c, batches)
    ensures id in c.eventIds ==> c.eventIds[id].1 in c.receipts
  {
    hide EventFingerprint, AllPlaced, EventsIndexed, ReceiptsIndexed;
    if id in c.eventIds {
      var k, i := WhereMentioned(c, batches, id);
      HasReceipt(c, batches, k);
      OneBatchId(batches, k, i);
    }
  }

  lemma WhereMentioned(c: Streams.Catalog, batches: Batches, id: Id) returns (k: nat, i: nat)
    requires EventsIndexed(c, batches) && id in c.eventIds
    ensures k < |batches| && i < |batches[k]| && batches[k][i].envelope.eventId == id && EventIndexed(c, batches[k][i])
  {
    hide EventFingerprint;
    k :| 0 <= k < |batches| && Mentions(batches[k], id);
    i :| 0 <= i < |batches[k]| && batches[k][i].envelope.eventId == id;
  }

  lemma HasReceipt(c: Streams.Catalog, batches: Batches, k: nat)
    requires AllPlaced(batches) && ReceiptsIndexed(c, batches) && k < |batches|
    ensures batches[k] != [] && batches[k][0].envelope.batchId in c.receipts
  {
    hide Placed, SameReceipt, ReceiptOver;
    assert ReceiptIndexed(c, batches[k]);
  }

  lemma OneBatchId(batches: Batches, k: nat, i: nat)
    requires AllPlaced(batches) && k < |batches| && i < |batches[k]|
    ensures batches[k][i].envelope.batchId == batches[k][0].envelope.batchId
  {
    hide Flat, CountIn, StreamNameOf;
    assert Placed(batches, k);
  }

  lemma NoConflicts(c: Streams.Catalog, batch: seq<Record>)
    requires !Conflicting(c, batch)
    ensures forall i :: 0 <= i < |batch| && batch[i].envelope.eventId in c.eventIds ==>
              c.eventIds[batch[i].envelope.eventId].0 == EventFingerprint(batch[i])
    ensures forall i, j :: 0 <= i < j < |batch| && batch[i].envelope.eventId == batch[j].envelope.eventId ==>
              EventFingerprint(batch[i]) == EventFingerprint(batch[j])
  {
    hide EventFingerprint;
    forall i | 0 <= i < |batch|
      ensures batch[i].envelope.eventId in c.eventIds ==> c.eventIds[batch[i].envelope.eventId].0 == EventFingerprint(batch[i])
      ensures forall j :: 0 <= j < i && batch[j].envelope.eventId == batch[i].envelope.eventId ==> EventFingerprint(batch[j]) == EventFingerprint(batch[i])
    {
      assert !ConflictsAt(c, batch, i);
    }
  }

  /** An accepted batch fits the catalog the log rebuilds to. */
  lemma NewBatchContinues(db: Db, req: Request, supplied: Option<Id>, amb: Ambient, rebuilt: Streams.Catalog)
    requires Writable(db, req, supplied, amb)
    requires rebuilt.streams == db.catalog.streams && rebuilt.eventIds == db.catalog.eventIds && rebuilt.receipts.Keys == db.catalog.receipts.Keys
    ensures 0 < |req.events| <= MAX_EVENTS
    ensures Continues(rebuilt, NewBatch(db.catalog, Head(db), req, supplied, amb), req.stream)
  {
    hide Judge, EventFingerprint, Uniform, NewBatch, Conflicting, BatchIdFor, AnySeen;
    WritableParts(db, req, supplied, amb);
    NewBatchShape(db.catalog, Head(db), req, supplied, amb);
    var batch := NewBatch(db.catalog, Head(db), req, supplied, amb);
    assert BatchIdFor(supplied, amb) !in rebuilt.receipts.Keys;
    NoConflicts(db.catalog, batch);
  }

  // ── an accepted append keeps the invariant ─────────────────────────────

  /** A batch that extends what is stored: right place, right revisions, new IDs. */
  ghost predicate Extends(c: Streams.Catalog, batches: Batches, batch: seq<Record>) {
    && batch != [] && Uniform(batch, NameIn(batch))
    && batch[0].position == |Flat(batches)|
    && batch[0].envelope.revision == NextRevision(c, batch[0].envelope.branchId, NameIn(batch))
    && batch[0].envelope.batchId !in c.receipts
    && ((batch[0].envelope.branchId, NameIn(batch)) in c.streams ==>
          c.streams[(batch[0].envelope.branchId, NameIn(batch))].id == batch[0].envelope.streamId)
    && (forall i :: 0 <= i < |batch| ==> batch[i].envelope.eventId !in c.eventIds)
    && (forall i, j :: 0 <= i < j < |batch| && batch[i].envelope.eventId == batch[j].envelope.eventId ==>
          EventFingerprint(batch[i]) == EventFingerprint(batch[j]))
  }

  lemma SnocPlaced(c: Streams.Catalog, batches: Batches, batch: seq<Record>)
    requires AllPlaced(batches) && StreamsIndexed(c, batches) && Extends(c, batches, batch)
    ensures AllPlaced(batches + [batch])
  {
    hide Uniform, NextRevision, CountIn, EventFingerprint, StreamNameOf;
    var more := batches + [batch];
    FlatSnoc(batches, batch);
    forall k | 0 <= k < |more| ensures more[k] != [] && Placed(more, k) {
      assert more[..k] == batches[..k];
      if k < |batches| {
        assert Placed(batches, k) && more[k] == batches[k];
      } else {
        assert batches[..k] == batches;
        assert NextRevision(c, batch[0].envelope.branchId, NameIn(batch)) == CountIn(Flat(batches), batch[0].envelope.branchId, NameIn(batch));
      }
    }
  }

  lemma SnocStreams(c: Streams.Catalog, d: Streams.Catalog, batches: Batches, batch: seq<Record>)
    requires StreamsIndexed(c, batches) && Extends(c, batches, batch)
    requires d.streams == c.streams[(batch[0].envelope.branchId, NameIn(batch)) :=
                                      StreamEntry(batch[0].envelope.streamId, batch[|batch| - 1].envelope.revision)]
    ensures StreamsIndexed(d, batches + [batch])
  {
    hide CountIn, EventFingerprint, StreamNameOf, NameIn, Flat;
    FlatSnoc(batches, batch);
    forall branch: Id, name: Bytes
      ensures NextRevision(d, branch, name) == CountIn(Flat(batches + [batch]), branch, name)
    {
      CountConcat(Flat(batches), batch, branch, name);
      CountUniform(batch, branch, name, |batch|);
      assert batch[..|batch|] == batch;
      assert NextRevision(c, branch, name) == CountIn(Flat(batches), branch, name);
    }
  }

  lemma SnocStreamIds(c: Streams.Catalog, d: Streams.Catalog, batches: Batches, batch: seq<Record>)
    requires AllPlaced(batches) && AllPlaced(batches + [batch]) && StreamIdsIndexed(c, batches) && Extends(c, batches, batch)
    requires d.streams == c.streams[(batch[0].envelope.branchId, NameIn(batch)) :=
                                      StreamEntry(batch[0].envelope.streamId, batch[|batch| - 1].envelope.revision)]
    ensures StreamIdsIndexed(d, batches + [batch])
  {
    hide Uniform, NameIn, Placed, NextRevision, Flat, EventFingerprint;
    var more := batches + [batch];
    forall k | 0 <= k < |more| ensures StreamIdIndexed(d, more[k]) {
      if k < |batches| {
        assert more[k] == batches[k] && StreamIdIndexed(c, batches[k]);
      }
    }
  }

  lemma OldEventStays(c: Streams.Catalog, d: Streams.Catalog, batch: seq<Record>, r: Record)
    requires EventIndexed(c, r) && d.eventIds == WithEvents(c.eventIds, batch)
    requires forall i :: 0 <= i < |batch| ==> batch[i].envelope.eventId !in c.eventIds
    ensures EventIndexed(d, r)
  {
    hide EventFingerprint, WithEvents;
    EventOfBatch(c.eventIds, batch, r.envelope.eventId);
  }

  lemma NewEventEnters(c: Streams.Catalog, d: Streams.Catalog, batches: Batches, batch: seq<Record>, i: nat)
    requires Extends(c, batches, batch) && i < |batch| && d.eventIds == WithEvents(c.eventIds, batch)
    ensures EventIndexed(d, batch[i])
  {
    hide EventFingerprint, WithEvents, NextRevision, NameIn, Flat, Extends;
    var id := batch[i].envelope.eventId;
    EventOfBatch(c.eventIds, batch, id);
    assert Mentions(batch, id);
    var j :| 0 <= j < |batch| && batch[j].envelope.eventId == id && d.eventIds[id] == (EventFingerprint(batch[j]), batch[j].envelope.batchId);
    SameEventSamePrint(c, batches, batch, i, j);
  }

  lemma SnocEvents(c: Streams.Catalog, d: Streams.Catalog, batches: Batches, batch: seq<Record>)
    requires EventsIndexed(c, batches) && Extends(c, batches, batch)
    requires d.eventIds == WithEvents(c.eventIds, batch)
    ensures EventsIndexed(d, batches + [batch])
  {
    hide EventFingerprint, WithEvents, NextRevision, NameIn, Flat, Uniform, EventIndexed, Mentions;
    var more := batches + [batch];
    forall k, i | 0 <= k < |more| && 0 <= i < |more[k]| ensures EventIndexed(d, more[k][i]) {
      if k < |batches| {
        assert more[k] == batches[k] && EventIndexed(c, batches[k][i]);
        OldEventStays(c, d, batch, more[k][i]);
      } else {
        NewEventEnters(c, d, batches, batch, i);
      }
    }
    forall id | id in d.eventIds ensures exists k :: 0 <= k < |more| && Mentions(more[k], id) {
      EventOfBatch(c.eventIds, batch, id);
      if Mentions(batch, id) {
        assert Mentions(more[|batches|], id);
      } else {
        var k :| 0 <= k < |batches| && Mentions(batches[k], id);
        assert Mentions(more[k], id);
      }
    }
  }

  lemma SameEventSamePrint(c: Streams.Catalog, batches: Batches, batch: seq<Record>, i: nat, j: nat)
    requires Extends(c, batches, batch) && i < |batch| && j < |batch| && batch[i].envelope.eventId == batch[j].envelope.eventId
    ensures EventFingerprint(batch[i]) == EventFingerprint(batch[j]) && batch[i].envelope.batchId == batch[j].envelope.batchId
  {
    hide EventFingerprint, StreamNameOf, NextRevision, NameIn, Flat;
    if j < i {
      assert batch[j].envelope.eventId == batch[i].envelope.eventId;
    }
  }

  lemma SnocReceiptAt(c: Streams.Catalog, d: Streams.Catalog, batches: Batches, batch: seq<Record>, receipt: Receipt, k: nat)
    requires AllPlaced(batches) && AllPlaced(batches + [batch]) && ReceiptsIndexed(c, batches) && Extends(c, batches, batch)
    requires SameReceipt(receipt, ReceiptOver(batch)) && d.receipts == c.receipts[receipt.batchId := receipt] && k <= |batches|
    ensures var more := batches + [batch];
      && ReceiptIndexed(d, more[k])
      && forall i :: 0 <= i < k ==> more[i][0].envelope.batchId != more[k][0].envelope.batchId
  {
    hide Uniform, NameIn, Placed, NextRevision, Flat, EventFingerprint, Extends;
    var more := batches + [batch];
    ExtendsIsNew(c, batches, batch);
    assert receipt.batchId == batch[0].envelope.batchId;
    if k < |batches| {
      assert more[k] == batches[k] && ReceiptIndexed(c, batches[k]);
      assert forall i :: 0 <= i < k ==> more[i] == batches[i];
    } else {
      forall i | 0 <= i < k ensures more[i][0].envelope.batchId != more[k][0].envelope.batchId {
        assert more[i] == batches[i] && ReceiptIndexed(c, batches[i]);
      }
    }
  }

  lemma SnocReceipts(c: Streams.Catalog, d: Streams.Catalog, batches: Batches, batch: seq<Record>, receipt: Receipt)
    requires AllPlaced(batches) && AllPlaced(batches + [batch]) && ReceiptsIndexed(c, batches) && Extends(c, batches, batch)
    requires SameReceipt(receipt, ReceiptOver(batch)) && d.receipts == c.receipts[receipt.batchId := receipt]
    ensures ReceiptsIndexed(d, batches + [batch])
  {
    hide Uniform, NameIn, Placed, NextRevision, Flat, EventFingerprint, Extends, ReceiptIndexed;
    var more := batches + [batch];
    ExtendsIsNew(c, batches, batch);
    forall k | 0 <= k < |more|
      ensures ReceiptIndexed(d, more[k])
      ensures forall i :: 0 <= i < k ==> more[i][0].envelope.batchId != more[k][0].envelope.batchId
    {
      SnocReceiptAt(c, d, batches, batch, receipt, k);
    }
    forall id | id in d.receipts ensures exists k :: 0 <= k < |more| && more[k][0].envelope.batchId == id {
      SnocReceiptHasBatch(c, d, batches, batch, receipt, id);
    }
  }

  lemma SnocReceiptHasBatch(c: Streams.Catalog, d: Streams.Catalog, batches: Batches, batch: seq<Record>, receipt: Receipt, id: Id)
    requires AllPlaced(batches) && AllPlaced(batches + [batch]) && ReceiptsIndexed(c, batches)
    requires batch != [] && receipt.batchId == batch[0].envelope.batchId && d.receipts == c.receipts[receipt.batchId := receipt] && id in d.receipts
    ensures var more: Batches := batches + [batch]; exists k :: 0 <= k < |more| && more[k][0].envelope.batchId == id
  {
    hide Placed, ReceiptIndexed;
    var more: Batches := batches + [batch];
    if id == receipt.batchId {
      assert more[|batches|][0].envelope.batchId == id;
    } else {
      var k :| 0 <= k < |batches| && batches[k][0].envelope.batchId == id;
      assert more[k] == batches[k];
    }
  }

  lemma ExtendsIsNew(c: Streams.Catalog, batches: Batches, batch: seq<Record>)
    requires Extends(c, batches, batch)
    ensures batch != [] && batch[0].envelope.batchId !in c.receipts
  {
  }

  lemma SnocKeys(c: Streams.Catalog, d: Streams.Catalog, branch: Id, request: Option<(Bytes, u32)>, receipt: Receipt)
    requires KeysIndexed(c) && receipt.batchId !in c.receipts
    requires d.receipts == c.receipts[receipt.batchId := receipt]
    requires d.idempotency == if request.Some? then c.idempotency[(branch, request.value.0) := KeyEntry(request.value.1, receipt)] else c.idempotency
    ensures KeysIndexed(d)
    ensures KeysRepeatReceipts(c) ==> KeysRepeatReceipts(d)
  {
    forall k | k in d.idempotency
      ensures d.idempotency[k].receipt.batchId in d.receipts
      ensures PartReceipt(d.idempotency[k].receipt, d.receipts[d.idempotency[k].receipt.batchId])
      ensures KeysRepeatReceipts(c) ==> SameReceipt(d.idempotency[k].receipt, d.receipts[d.idempotency[k].receipt.batchId])
    {
      if request.None? || k != (branch, request.value.0) {
        assert k in c.idempotency;
      }
    }
  }

  // ── every step keeps the invariant ─────────────────────────────────────

  lemma WriteExtends(db: Db, req: Request, supplied: Option<Id>, amb: Ambient)
    requires DbInv(db) && Writable(db, req, supplied, amb)
    ensures 0 < |req.events| <= MAX_EVENTS
    ensures Extends(db.catalog, db.batches, NewBatch(db.catalog, Head(db), req, supplied, amb))
  {
    hide Judge, NewBatch, Continues, Extends, AllPlaced, EventsIndexed, ReceiptsIndexed, StreamsIndexed, StreamIdsIndexed, KeysIndexed,
         NameIn, BatchIdFor, NextRevision, Writable, Flat, Uniform, StreamIdFor, Fits, EventFingerprint,
         BranchCatalogs.ValidBranches, OnBranches, ForksAtBoundaries, IsBoundary;
    JudgedWrite(db, req, supplied, amb);
    NewEventsAreNew(db, req, supplied, amb);
    NewBatchContinues(db, req, supplied, amb, db.catalog);
    NewBatchShape(db.catalog, Head(db), req, supplied, amb);
    ContinuingExtends(db.catalog, db.batches, NewBatch(db.catalog, Head(db), req, supplied, amb), req.stream);
  }

  lemma ContinuingExtends(c: Streams.Catalog, batches: Batches, batch: seq<Record>, name: Bytes)
    requires Continues(c, batch, name) && NameIn(batch) == name && batch[0].position == |Flat(batches)|
    requires forall i :: 0 <= i < |batch| ==> batch[i].envelope.eventId !in c.eventIds
    ensures Extends(c, batches, batch)
  {
    hide EventFingerprint, Uniform, Flat, NameIn;
    UniformIsSome(batch, name);
  }

  lemma UniformIsSome(batch: seq<Record>, name: Bytes)
    requires Uniform(batch, name)
    ensures batch != []
  {
  }

  lemma NewReceiptFits(db: Db, req: Request, supplied: Option<Id>, amb: Ambient)
    requires Fits(db.catalog, Head(db), req, amb) && 0 < |req.events| <= MAX_EVENTS
    ensures SameReceipt(NewReceipt(db, req, supplied, amb), ReceiptOver(NewBatch(db.catalog, Head(db), req, supplied, amb)))
  {
    hide EventFingerprint, Stamped, RequestOf, StreamIdFor, BatchIdFor, ContentDigest, StreamNameOf, RequestStamp, EventIdAt, NewBatch;
    NewRecordAt(db.catalog, Head(db), req, supplied, amb, 0);
    NewRecordAt(db.catalog, Head(db), req, supplied, amb, |req.events| - 1);
  }

  lemma WriteKeeps(db: Db, req: Request, supplied: Option<Id>, amb: Ambient)
    requires DbInv(db) && Writable(db, req, supplied, amb)
    ensures DbInv(AfterAppend(db, req, supplied, amb, None).1)
    ensures KeysRepeatReceipts(db.catalog) ==> KeysRepeatReceipts(AfterAppend(db, req, supplied, amb, None).1.catalog)
  {
    hide Judge, EventFingerprint, Uniform, NewBatch, Placed, NextRevision, NameIn, BatchIdFor, Writable, Extends, SameReceipt,
         ReceiptOver, WithEvents, WithDigests, StreamsIndexed, StreamIdsIndexed, EventsIndexed, ReceiptsIndexed, KeysIndexed, KeysRepeatReceipts,
         OnBranches, ForksAtBoundaries, IsBoundary, BranchCatalogs.ValidBranches, Flat, AllPlaced, NewReceipt, RequestStamp, Fits, GeneratedAreFresh;
    JudgedWrite(db, req, supplied, amb);
    WriteExtends(db, req, supplied, amb);
    NewReceiptFits(db, req, supplied, amb);
    var next := AfterAppend(db, req, supplied, amb, None).1;
    var batch := NewBatch(db.catalog, Head(db), req, supplied, amb);
    RecordedIndexes(db.catalog, db.batches, batch, RequestStamp(req, amb), NewReceipt(db, req, supplied, amb));
    RecordedIsBatch(db, req, supplied, amb);
    WriteKeepsBranches(db, req, supplied, amb);
    WriteIsDurable(db, req, supplied, amb);
  }

  lemma WriteIsDurable(db: Db, req: Request, supplied: Option<Id>, amb: Ambient)
    requires SyncedIsDurable(db.catalog, db.durable) && IsBoundary(db.batches, db.durable) && Writable(db, req, supplied, amb)
    ensures var next := AfterAppend(db, req, supplied, amb, None).1; SyncedIsDurable(next.catalog, next.durable)
  {
    hide Judge, NewBatch, Writable, Flat, WithDigests, Fits, GeneratedAreFresh, RequestStamp, StreamIdFor, BatchIdFor, IsBoundary;
    JudgedWrite(db, req, supplied, amb);
    BoundaryWithin(db.batches, db.durable);
  }

  /** What a catalog of the stored batches has receipts for lies below the head. */
  lemma ReceiptsBelowHead(c: Streams.Catalog, batches: Batches)
    requires AllPlaced(batches) && ReceiptsIndexed(c, batches) && KeysIndexed(c)
    ensures forall id :: id in c.receipts ==> c.receipts[id].last < |Flat(batches)|
    ensures forall k :: k in c.idempotency ==> c.idempotency[k].receipt.last < |Flat(batches)|
  {
    hide Flat, NameIn, CountIn;
    forall id | id in c.receipts ensures c.receipts[id].last < |Flat(batches)| {
      var k :| 0 <= k < |batches| && batches[k][0].envelope.batchId == id;
      assert ReceiptIndexed(c, batches[k]) && Placed(batches, k);
      InFlat(batches, k, |batches[k]| - 1);
    }
  }

  lemma HeadIsDurable(c: Streams.Catalog, batches: Batches, durable: nat)
    requires AllPlaced(batches) && CatalogIndexes(c, batches) && durable >= |Flat(batches)|
    ensures SyncedIsDurable(c, durable)
  {
    hide AllPlaced, StreamsIndexed, StreamIdsIndexed, EventsIndexed, ReceiptsIndexed, KeysIndexed, Flat;
    ReceiptsBelowHead(c, batches);
  }

  lemma JudgedWrite(db: Db, req: Request, supplied: Option<Id>, amb: Ambient)
    requires Writable(db, req, supplied, amb)
    ensures Fits(db.catalog, Head(db), req, amb) && Judge(db, req, supplied, amb) == Write && GeneratedAreFresh(db.catalog, req, amb)
    ensures 0 < |req.events| <= MAX_EVENTS
  {
    hide Conflicting, AnySeen, AllOfOneBatch, NewBatch, GeneratedAreFresh;
  }

  /** The catalog update of a batch that extends the log. */
  function CatalogAfter(c: Streams.Catalog, batch: seq<Record>, request: Option<(Bytes, u32)>, receipt: Receipt): Streams.Catalog
    requires batch != []
  {
    Recorded(c, batch[0].envelope.branchId, NameIn(batch), batch[0].envelope.streamId, DigestsOf(batch), request, receipt)
  }

  lemma RecordedIsBatch(db: Db, req: Request, supplied: Option<Id>, amb: Ambient)
    requires Fits(db.catalog, Head(db), req, amb) && Judge(db, req, supplied, amb) == Write && 0 < |req.events| <= MAX_EVENTS
    ensures AfterAppend(db, req, supplied, amb, None).1.catalog ==
            CatalogAfter(db.catalog, NewBatch(db.catalog, Head(db), req, supplied, amb), RequestStamp(req, amb), NewReceipt(db, req, supplied, amb))
  {
    hide Judge, EventFingerprint, Uniform, NewBatch, NameIn, WithDigests, Flat, RequestStamp, Fits, Recorded, BatchIdFor;
    NewBatchShape(db.catalog, Head(db), req, supplied, amb);
  }

  lemma RecordedIndexes(c: Streams.Catalog, batches: Batches, batch: seq<Record>, request: Option<(Bytes, u32)>, receipt: Receipt)
    requires AllPlaced(batches) && CatalogIndexes(c, batches) && Extends(c, batches, batch) && SameReceipt(receipt, ReceiptOver(batch))
    ensures AllPlaced(batches + [batch]) && CatalogIndexes(CatalogAfter(c, batch, request, receipt), batches + [batch])
    ensures KeysRepeatReceipts(c) ==> KeysRepeatReceipts(CatalogAfter(c, batch, request, receipt))
  {
    hide EventFingerprint, Uniform, Placed, NextRevision, NameIn, WithEvents, WithDigests, StreamsIndexed, StreamIdsIndexed, EventsIndexed,
         ReceiptsIndexed, KeysIndexed, KeysRepeatReceipts, Flat, AllPlaced, Extends;
    ExtendsIsNew(c, batches, batch);
    ExtendsIsUniform(c, batches, batch);
    var d := CatalogAfter(c, batch, request, receipt);
    DigestsAreEvents(c.eventIds, batch, receipt.batchId);
    SnocPlaced(c, batches, batch);
    SnocStreams(c, d, batches, batch);
    SnocStreamIds(c, d, batches, batch);
    SnocEvents(c, d, batches, batch);
    SnocReceipts(c, d, batches, batch, receipt);
    SnocKeys(c, d, batch[0].envelope.branchId, request, receipt);
  }

  lemma ExtendsIsUniform(c: Streams.Catalog, batches: Batches, batch: seq<Record>)
    requires Extends(c, batches, batch)
    ensures batch != [] && forall i :: 0 <= i < |batch| ==> batch[i].envelope.batchId == batch[0].envelope.batchId
  {
  }

  lemma WriteKeepsBranches(db: Db, req: Request, supplied: Option<Id>, amb: Ambient)
    requires AllPlaced(db.batches) && OnBranches(db.branches.byId, db.batches) && ForksAtBoundaries(db.branches.byId, db.batches)
    requires IsBoundary(db.batches, db.durable) && Writable(db, req, supplied, amb)
    ensures 0 < |req.events| <= MAX_EVENTS && Judge(db, req, supplied, amb) == Write
    ensures var next := AfterAppend(db, req, supplied, amb, None).1;
      && (AllPlaced(next.batches) ==> OnBranches(next.branches.byId, next.batches))
      && ForksAtBoundaries(next.branches.byId, next.batches) && IsBoundary(next.batches, next.durable)
  {
    hide Judge, EventFingerprint, Uniform, NewBatch, Placed, NameIn, Writable, Flat, RequestStamp, Recorded, NewReceipt;
    JudgedWrite(db, req, supplied, amb);
    WritableParts(db, req, supplied, amb);
    NewBatchShape(db.catalog, Head(db), req, supplied, amb);
    var batch := NewBatch(db.catalog, Head(db), req, supplied, amb);
    SnocBranches(db.branches.byId, db.batches, batch);
    BoundariesStay(db.batches, batch);
  }

  lemma SnocBranches(branches: BranchMap, batches: Batches, batch: seq<Record>)
    requires AllPlaced(batches) && OnBranches(branches, batches) && ForksAtBoundaries(branches, batches)
    requires batch != [] && batch[0].envelope.branchId in branches
    ensures AllPlaced(batches + [batch]) ==> OnBranches(branches, batches + [batch])
    ensures ForksAtBoundaries(branches, batches + [batch])
  {
    hide Placed, Flat;
    var more := batches + [batch];
    BoundariesStay(batches, batch);
    if AllPlaced(more) {
      forall k | 0 <= k < |more|
        ensures more[k][0].envelope.branchId in branches
        ensures var fork := branches[more[k][0].envelope.branchId].forkPosition; fork.Some? ==> fork.value <= Start(more, k)
      {
        assert more[..k] == batches[..k];
        if k < |batches| {
          assert more[k] == batches[k];
        } else if branches[more[k][0].envelope.branchId].forkPosition.Some? {
          BoundaryWithin(batches, branches[more[k][0].envelope.branchId].forkPosition.value);
          assert batches[..k] == batches;
        }
      }
    }
  }

  lemma BoundaryWithin(batches: Batches, at: nat)
    requires IsBoundary(batches, at)
    ensures at <= |Flat(batches)|
  {
    var k :| 0 <= k <= |batches| && Start(batches, k) == at;
    StartsAscend(batches, k, |batches|);
    WholeFlat(batches);
  }

  /** BOUNDARIES STAY: what was a batch boundary stays one as the log grows, and the new
      head is one. */
  lemma BoundariesStay(batches: Batches, batch: seq<Record>)
    ensures forall at :: IsBoundary(batches, at) ==> IsBoundary(batches + [batch], at)
    ensures IsBoundary(batches + [batch], |Flat(batches + [batch])|) && IsBoundary(batches + [batch], |Flat(batches)| + |batch|)
  {
    var more := batches + [batch];
    FlatSnoc(batches, batch);
    WholeFlat(more);
    assert Start(more, |more|) == |Flat(more)|;
    forall at | IsBoundary(batches, at) ensures IsBoundary(more, at) {
      var k :| 0 <= k <= |batches| && Start(batches, k) == at;
      assert more[..k] == batches[..k];
      assert Start(more, k) == at;
    }
  }

  lemma HeadIsBoundary(batches: Batches)
    ensures IsBoundary(batches, |Flat(batches)|)
  {
    WholeFlat(batches);
    assert Start(batches, |batches|) == |Flat(batches)|;
  }

  lemma FreshIsInv()
    ensures DbInv(FreshDb())
  {
    BranchCatalogs.DefaultIsValid();
    HeadIsBoundary([]);
    assert forall branch: Id, name: Bytes :: CountIn(Flat([]), branch, name) == 0;
  }
}
