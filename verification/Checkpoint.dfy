/** The checkpoint of the stream catalog: what each operation publishes, and when a catalog
    adopted from it on open stands for the whole log. */
module Checkpoints {
  import opened Base
  import opened Format
  import opened Streams
  import opened Branches
  import opened AppendMachine
  import opened AppendLaws
  import opened AppendSafety
  import opened Rebuild
  import BC = BranchCatalogs

  /** A catalog stamped with the head of the commit that published it. */
  datatype Checkpoint = Checkpoint(head: nat, catalog: Streams.Catalog)

  predicate Matches(db: Db, checkpoint: Option<Checkpoint>) {
    checkpoint.Some? && checkpoint.value.head == Head(db)
  }

  /** Opening takes the catalog of a checkpoint whose head is the log's, unread, and counts
      the head as durable. */
  function Adopted(db: Db, checkpoint: Option<Checkpoint>): Db {
    if Matches(db, checkpoint) then db.(catalog := checkpoint.value.catalog, durable := Head(db)) else db
  }

  /** The checkpoints an operation publishes, in order. An append that syncs publishes twice:
      its commit runs before the batch is in the catalog. */
  ghost function Published(db: Db, op: Op): seq<Checkpoint>
    requires Enabled(db, op)
  {
    match op
    case Append(req, supplied, amb, refused) =>
      (match Judge(db, req, supplied, amb)
       case Refuse(_) => []
       case Replay(receipt) => if req.durability == Synced && receipt.durability != Synced then [Checkpoint(Head(db), db.catalog)] else []
       case Write =>
         if refused.None? && (req.durability == Synced || amb.due) then
           var next := Apply(db, op);
           [Checkpoint(Head(next), db.catalog), Checkpoint(Head(next), next.catalog)]
         else [])
    case Commit => [Checkpoint(Head(db), db.catalog)]
    case Fork(f, refused) => if AfterFork(db, f, refused).0.Ok? then [Checkpoint(Head(db), db.catalog)] else []
    case Archive(id, refused) =>
      if AfterArchive(db, id, refused).0.Ok? && AfterArchive(db, id, refused).1 != db then [Checkpoint(Head(db), db.catalog)] else []
  }

  ghost predicate IndexesPrefix(c: Streams.Catalog, batches: Batches, k: nat) {
    k <= |batches| && AllPlaced(batches[..k]) && CatalogIndexes(c, batches[..k])
  }

  lemma WholeIsIndexed(db: Db)
    requires DbInv(db)
    ensures IndexesPrefix(db.catalog, db.batches, |db.batches|)
  {
    hide AllPlaced, CatalogIndexes, BC.ValidBranches, OnBranches, ForksAtBoundaries, IsBoundary;
    assert db.batches[..|db.batches|] == db.batches;
  }

  /** Every published checkpoint carries the head after its operation and indexes all batches
      up to it, but for the first of two, which misses the batch just written. */
  lemma PublishedIndexes(db: Db, op: Op, i: nat)
    requires DbInv(db) && Enabled(db, op) && i < |Published(db, op)|
    ensures var next, all := Apply(db, op), Published(db, op);
      && DbInv(next) && all[i].head == Head(next)
      && (|all| == 2 ==> next.batches != [])
      && IndexesPrefix(all[i].catalog, next.batches, if |all| == 2 && i == 0 then |next.batches| - 1 else |next.batches|)
  {
    hide DbInv, IndexesPrefix, Judge, NewBatch, NewReceipt, Recorded, Flat, Fits, GeneratedAreFresh, Grows, BC.WithBranch, BoundaryAccepted;
    StepKeeps(db, op);
    WholeIsIndexed(db);
    WholeIsIndexed(Apply(db, op));
    if |Published(db, op)| == 2 {
      PrefixIndexed(db.catalog, db.batches, Apply(db, op).batches);
    }
  }

  lemma PrefixIndexed(c: Streams.Catalog, batches: Batches, longer: Batches)
    requires IndexesPrefix(c, batches, |batches|) && |longer| >= |batches| && longer[..|batches|] == batches
    ensures IndexesPrefix(c, longer, |batches|)
  {
    hide AllPlaced, CatalogIndexes;
    assert batches[..|batches|] == batches;
  }

  // ── adopting it ────────────────────────────────────────────────────────

  /** The receipts of the catalog reach the log's head. */
  ghost predicate ReachesHead(c: Streams.Catalog, head: nat) {
    head == 0 || exists id :: id in c.receipts && c.receipts[id].last + 1 == head
  }

  lemma {:induction false} CountPositive(rs: seq<Record>, branch: Id, name: Bytes) returns (i: nat)
    requires CountIn(rs, branch, name) > 0
    ensures i < |rs| && OnStream(rs[i], branch, name)
    decreases |rs|
  {
    hide OnStream;
    if OnStream(rs[|rs| - 1], branch, name) {
      i := |rs| - 1;
    } else {
      i := CountPositive(rs[..|rs| - 1], branch, name);
    }
  }

  /** A stream in the catalog has a batch, which says its ID. */
  lemma StreamHasBatch(c: Streams.Catalog, batches: Batches, branch: Id, name: Bytes) returns (k: nat)
    requires AllPlaced(batches) && StreamsIndexed(c, batches) && (branch, name) in c.streams
    ensures k < |batches| && batches[k] != [] && batches[k][0].envelope.branchId == branch && NameIn(batches[k]) == name
  {
    hide AllPlaced, Flat, CountIn, StreamNameOf, NameIn;
    assert NextRevision(c, branch, name) > 0;
    var i := CountPositive(Flat(batches), branch, name);
    k := Locate(batches, i);
    SameBatchInside(batches, k, i - Start(batches, k));
  }

  lemma SameStreams(c: Streams.Catalog, d: Streams.Catalog, batches: Batches)
    requires AllPlaced(batches) && StreamsIndexed(c, batches) && StreamsIndexed(d, batches)
    requires StreamIdsIndexed(c, batches) && StreamIdsIndexed(d, batches)
    ensures c.streams == d.streams
  {
    hide Flat, CountIn, AllPlaced, StreamIdsIndexed;
    forall key | key in c.streams || key in d.streams ensures key in c.streams && key in d.streams && c.streams[key] == d.streams[key] {
      assert NextRevision(c, key.0, key.1) == NextRevision(d, key.0, key.1);
      var k := StreamHasBatch(c, batches, key.0, key.1);
      SameStreamId(c, d, batches, k);
    }
  }

  lemma SameStreamId(c: Streams.Catalog, d: Streams.Catalog, batches: Batches, k: nat)
    requires AllPlaced(batches) && StreamIdsIndexed(c, batches) && StreamIdsIndexed(d, batches) && k < |batches|
    ensures batches[k] != []
    ensures var key := (batches[k][0].envelope.branchId, NameIn(batches[k]));
      key in c.streams && key in d.streams && c.streams[key].id == d.streams[key].id
  {
    hide Placed, NameIn;
    assert StreamIdIndexed(c, batches[k]) && StreamIdIndexed(d, batches[k]);
  }

  lemma SameEvents(c: Streams.Catalog, d: Streams.Catalog, batches: Batches)
    requires EventsIndexed(c, batches) && EventsIndexed(d, batches)
    ensures c.eventIds == d.eventIds
  {
    hide EventsIndexed, EventFingerprint;
    forall id | id in c.eventIds ensures id in d.eventIds && d.eventIds[id] == c.eventIds[id] {
      var k, i := WhereMentioned(c, batches, id);
      EventIsIndexed(d, batches, k, i);
    }
    forall id | id in d.eventIds ensures id in c.eventIds {
      var k, i := WhereMentioned(d, batches, id);
      EventIsIndexed(c, batches, k, i);
    }
  }

  lemma EventIsIndexed(c: Streams.Catalog, batches: Batches, k: nat, i: nat)
    requires EventsIndexed(c, batches) && k < |batches| && i < |batches[k]|
    ensures EventIndexed(c, batches[k][i])
  {
    hide EventIndexed, Mentions;
  }

  lemma SameReceiptIds(c: Streams.Catalog, d: Streams.Catalog, batches: Batches)
    requires AllPlaced(batches) && ReceiptsIndexed(c, batches) && ReceiptsIndexed(d, batches)
    ensures c.receipts.Keys <= d.receipts.Keys
  {
    hide Placed, SameReceipt, ReceiptOver;
    forall id | id in c.receipts ensures id in d.receipts {
      var k :| 0 <= k < |batches| && batches[k][0].envelope.batchId == id;
      assert ReceiptIndexed(d, batches[k]);
    }
  }

  /** Two catalogs of the same batches index the same. */
  lemma SameBatchesSameIndex(c: Streams.Catalog, d: Streams.Catalog, batches: Batches)
    requires AllPlaced(batches) && CatalogIndexes(c, batches) && CatalogIndexes(d, batches)
    ensures SameIndex(c, d)
  {
    hide AllPlaced, StreamsIndexed, StreamIdsIndexed, EventsIndexed, ReceiptsIndexed, KeysIndexed;
    SameStreams(c, d, batches);
    SameEvents(c, d, batches);
    SameReceiptIds(c, d, batches);
    SameReceiptIds(d, c, batches);
  }

  /** A catalog that misses a batch does not know its ID. */
  lemma LaggingMisses(c: Streams.Catalog, d: Streams.Catalog, batches: Batches, k: nat)
    requires AllPlaced(batches) && ReceiptsIndexed(d, batches) && k < |batches|
    requires AllPlaced(batches[..k]) && ReceiptsIndexed(c, batches[..k])
    ensures batches[k] != [] && batches[k][0].envelope.batchId !in c.receipts
  {
    hide Placed, ReceiptIndexed;
  }

  lemma HasBatchId(c: Streams.Catalog, batches: Batches, k: nat)
    requires AllPlaced(batches) && ReceiptsIndexed(c, batches) && k < |batches|
    ensures batches[k] != [] && batches[k][0].envelope.batchId in c.receipts
    ensures c.receipts[batches[k][0].envelope.batchId].last + 1 == Start(batches, k) + |batches[k]|
  {
    hide Placed, Start;
    assert ReceiptIndexed(c, batches[k]);
    ReceiptSpans(batches, k);
  }

  /** ADOPTED CATALOGS: taking a checkpoint's catalog keeps the database invariant exactly if
      it indexes every batch. */
  lemma AdoptedKeepsInv(db: Db, checkpoint: Checkpoint, k: nat)
    requires DbInv(db) && checkpoint.head == Head(db) && IndexesPrefix(checkpoint.catalog, db.batches, k)
    ensures DbInv(Adopted(db, Some(checkpoint))) <==> k == |db.batches|
    ensures k == |db.batches| ==> SameIndex(checkpoint.catalog, db.catalog)
  {
    hide AllPlaced, StreamsIndexed, StreamIdsIndexed, EventsIndexed, ReceiptsIndexed, KeysIndexed, Flat,
         BC.ValidBranches, OnBranches, ForksAtBoundaries, IsBoundary, SameIndex;
    if k == |db.batches| {
      assert db.batches[..k] == db.batches;
      SameBatchesSameIndex(checkpoint.catalog, db.catalog, db.batches);
      HeadIsBoundary(db.batches);
      HeadIsDurable(checkpoint.catalog, db.batches, Head(db));
    } else {
      LaggingMisses(checkpoint.catalog, db.catalog, db.batches, k);
      if ReceiptsIndexed(checkpoint.catalog, db.batches) {
        HasBatchId(checkpoint.catalog, db.batches, k);
      }
    }
  }

  /** What the opener could look at: the catalog indexes every batch exactly if its receipts
      reach the head. */
  lemma ReachingIsComplete(db: Db, c: Streams.Catalog, k: nat)
    requires DbInv(db) && IndexesPrefix(c, db.batches, k)
    ensures ReachesHead(c, Head(db)) <==> k == |db.batches|
  {
    hide AllPlaced, StreamsIndexed, StreamIdsIndexed, EventsIndexed, ReceiptsIndexed, KeysIndexed, Flat, Start,
         BC.ValidBranches, OnBranches, ForksAtBoundaries, IsBoundary;
    WholeFlat(db.batches);
    if k == |db.batches| {
      assert db.batches[..k] == db.batches;
      if k > 0 {
        HasBatchId(c, db.batches, k - 1);
        StartNext(db.batches, k - 1);
        assert db.batches[..k] == db.batches;
        assert c.receipts[db.batches[k - 1][0].envelope.batchId].last + 1 == Head(db);
      } else {
        NoneIsEmpty(db.batches);
      }
    } else {
      StopsShort(db, c, k);
    }
  }

  lemma NoneIsEmpty(batches: Batches)
    ensures batches == [] ==> |Flat(batches)| == 0
  {
  }

  lemma StopsShort(db: Db, c: Streams.Catalog, k: nat)
    requires DbInv(db) && IndexesPrefix(c, db.batches, k) && k < |db.batches|
    ensures !ReachesHead(c, Head(db))
  {
    hide StreamsIndexed, StreamIdsIndexed, EventsIndexed, ReceiptsIndexed, KeysIndexed, Flat, Placed,
         BC.ValidBranches, OnBranches, ForksAtBoundaries, IsBoundary, SyncedIsDurable;
    StartNext(db.batches, k);
    StartsAscend(db.batches, k + 1, |db.batches|);
    WholeFlat(db.batches);
    assert db.batches[k] != [];
    ReceiptsBelowHead(c, db.batches[..k]);
  }

  // ── the first of two publications ──────────────────────────────────────

  /** IT HAPPENS at every syncing append: a database opened from the first of its two
      publications has lost the invariant. */
  lemma FirstPublicationLosesInv(db: Db, req: Request, supplied: Option<Id>, amb: Ambient, next: Db)
    requires DbInv(db) && Writable(db, req, supplied, amb) && (req.durability == Synced || amb.due)
    requires next == AfterAppend(db, req, supplied, amb, None).1
    ensures Published(db, Append(req, supplied, amb, None)) == [Checkpoint(Head(next), db.catalog), Checkpoint(Head(next), next.catalog)]
    ensures DbInv(next) && DbInv(Adopted(next, Some(Checkpoint(Head(next), next.catalog))))
    ensures !DbInv(Adopted(next, Some(Checkpoint(Head(next), db.catalog))))
  {
    hide DbInv, Judge, NewBatch, Recorded, NewReceipt, Flat, Fits, GeneratedAreFresh, IndexesPrefix;
    JudgedWrite(db, req, supplied, amb);
    var op := Append(req, supplied, amb, None);
    PublishedIndexes(db, op, 0);
    PublishedIndexes(db, op, 1);
    AdoptedKeepsInv(next, Checkpoint(Head(next), next.catalog), |next.batches|);
    AdoptedKeepsInv(next, Checkpoint(Head(next), db.catalog), |next.batches| - 1);
  }

  /** Such a database writes the very request it stored a second time, under the revisions it
      has already used. */
  lemma FirstPublicationForgets(db: Db, req: Request, supplied: Option<Id>, amb: Ambient, next: Db)
    requires Writable(db, req, supplied, amb) && next == AfterAppend(db, req, supplied, amb, None).1
    requires Fits(db.catalog, Head(next), req, amb)
    ensures var reopened := Adopted(next, Some(Checkpoint(Head(next), db.catalog)));
      && reopened.catalog == db.catalog && Head(reopened) == Head(next)
      && Judge(reopened, req, supplied, amb) == Write
    ensures 0 < |req.events| <= MAX_EVENTS && Fits(db.catalog, Head(db), req, amb)
    ensures forall i :: 0 <= i < |req.events| ==>
      NewBatch(db.catalog, Head(next), req, supplied, amb)[i].envelope == NewBatch(db.catalog, Head(db), req, supplied, amb)[i].envelope
  {
    hide Judge, NewBatch, Recorded, NewReceipt, Flat, Fits, GeneratedAreFresh;
    JudgedWrite(db, req, supplied, amb);
    JudgedAgain(db, next.(catalog := db.catalog, durable := Head(next)), req, supplied, amb);
    SameEnvelopes(db.catalog, Head(db), Head(next), req, supplied, amb);
  }

  lemma SameEnvelopes(c: Streams.Catalog, head: nat, later: nat, req: Request, supplied: Option<Id>, amb: Ambient)
    requires Fits(c, head, req, amb) && Fits(c, later, req, amb) && |req.events| <= MAX_EVENTS
    ensures var a, b := NewBatch(c, head, req, supplied, amb), NewBatch(c, later, req, supplied, amb);
      forall i :: 0 <= i < |req.events| ==> b[i].envelope == a[i].envelope && b[i].payload == a[i].payload
  {
    hide Stamped, Fits, NextRevision, StreamIdFor, BatchIdFor;
  }

  /** The verdict depends on the catalog and the branches, not on where the head stands. */
  lemma JudgedAgain(db: Db, later: Db, req: Request, supplied: Option<Id>, amb: Ambient)
    requires Fits(db.catalog, Head(db), req, amb) && Fits(later.catalog, Head(later), req, amb) && |req.events| <= MAX_EVENTS
    requires later.catalog == db.catalog && later.branches == db.branches
    ensures Judge(later, req, supplied, amb) == Judge(db, req, supplied, amb)
  {
    hide Fits, NewBatch, EventFingerprint, AnySeen, AllOfOneBatch, Flat;
    SameEnvelopes(db.catalog, Head(db), Head(later), req, supplied, amb);
    var a, b := NewBatch(db.catalog, Head(db), req, supplied, amb), NewBatch(later.catalog, Head(later), req, supplied, amb);
    forall i | 0 <= i < |a| ensures EventFingerprint(a[i]) == EventFingerprint(b[i]) {
      SamePrint(a[i], b[i]);
    }
    SameConflicts(db.catalog, a, b);
  }

  lemma SamePrint(a: Record, b: Record)
    requires a.envelope == b.envelope && a.payload == b.payload
    ensures EventFingerprint(a) == EventFingerprint(b)
  {
  }

  lemma SameConflicts(c: Streams.Catalog, a: seq<Record>, b: seq<Record>)
    requires |a| == |b|
    requires forall i :: 0 <= i < |a| ==> a[i].envelope == b[i].envelope && EventFingerprint(a[i]) == EventFingerprint(b[i])
    ensures Conflicting(c, a) <==> Conflicting(c, b)
  {
    hide EventFingerprint;
    forall i | 0 <= i < |a| ensures ConflictsAt(c, a, i) == ConflictsAt(c, b, i) {
    }
  }
}
