/** Runs of the database machine: the invariant holds in every reachable state, what was
    stored stays stored, and a retry gets the original answer. */
module AppendSafety {
  import opened Base
  import opened Format
  import opened Streams
  import opened Branches
  import opened AppendMachine
  import opened AppendLaws
  import BranchCatalogs

  // ── batch boundaries ───────────────────────────────────────────────────

  lemma SameBatchInside(batches: Batches, k: nat, i: nat)
    requires AllPlaced(batches) && k < |batches| && i < |batches[k]|
    ensures batches[k][i].envelope.batchId == batches[k][0].envelope.batchId
    ensures batches[k][i].envelope.branchId == batches[k][0].envelope.branchId
    ensures batches[k][i].position == Start(batches, k) + i && batches[k][i].kind == Event
    ensures batches[k][i].envelope.batchIndex == i
    ensures batches[k][i].envelope.revision == batches[k][0].envelope.revision + i
    ensures batches[k][i].envelope.streamId == batches[k][0].envelope.streamId
    ensures StreamNameOf(batches[k][i]) == Ok(NameIn(batches[k]))
  {
    hide StreamNameOf, CountIn, Flat, NameIn;
    assert Placed(batches, k);
  }

  /** A position is a boundary exactly if it does not fall inside its batch. */
  lemma InsideIsNoBoundary(batches: Batches, at: nat, k: nat)
    requires k < |batches| && Start(batches, k) <= at < Start(batches, k) + |batches[k]|
    ensures IsBoundary(batches, at) <==> Start(batches, k) == at
  {
    StartNext(batches, k);
    forall m | 0 <= m <= |batches| ensures Start(batches, m) == at ==> Start(batches, k) == at {
      if m <= k {
        StartsAscend(batches, m, k);
      } else {
        StartsAscend(batches, k + 1, m);
      }
    }
  }

  lemma BatchAt(batches: Batches, p: nat) returns (k: nat)
    requires AllPlaced(batches) && p < |Flat(batches)|
    ensures k < |batches| && Start(batches, k) <= p < Start(batches, k) + |batches[k]|
    ensures batches[k] != [] && Flat(batches)[p].envelope.batchId == batches[k][0].envelope.batchId
  {
    hide AllPlaced, Flat, Start, StreamNameOf, NameIn;
    k := Locate(batches, p);
    SameBatchInside(batches, k, p - Start(batches, k));
  }

  /** BOUNDARY CHECK: comparing the two records around a position accepts exactly the
      positions that are not inside a batch. */
  lemma BoundaryCheckIsExact(c: Streams.Catalog, batches: Batches, at: nat)
    requires AllPlaced(batches) && ReceiptsIndexed(c, batches) && at <= |Flat(batches)|
    ensures BoundaryAccepted(Flat(batches), at) <==> IsBoundary(batches, at)
  {
    hide Flat, AllPlaced, ReceiptsIndexed, Start, IsBoundary;
    HeadIsBoundary(batches);
    NoBatchesBefore(batches);
    if 0 < at < |Flat(batches)| {
      var k := BatchAt(batches, at);
      var j := BatchAt(batches, at - 1);
      InsideIsNoBoundary(batches, at, k);
      NeighbouringBatches(batches, at, j, k);
      IdsTellBatchesApart(c, batches, j, k);
    }
  }

  lemma IdsTellBatchesApart(c: Streams.Catalog, batches: Batches, j: nat, k: nat)
    requires AllPlaced(batches) && ReceiptsIndexed(c, batches) && j <= k < |batches|
    ensures batches[j] != [] && batches[k] != []
    ensures batches[j][0].envelope.batchId == batches[k][0].envelope.batchId <==> j == k
  {
    hide Placed, ReceiptIndexed;
  }

  lemma NoBatchesBefore(batches: Batches)
    ensures IsBoundary(batches, 0)
  {
    assert Start(batches, 0) == 0;
  }

  lemma NeighbouringBatches(batches: Batches, at: nat, j: nat, k: nat)
    requires 0 < at && j < |batches| && k < |batches|
    requires Start(batches, k) <= at < Start(batches, k) + |batches[k]|
    requires Start(batches, j) <= at - 1 < Start(batches, j) + |batches[j]|
    ensures Start(batches, k) == at ==> j < k
    ensures Start(batches, k) < at ==> j == k
    ensures j <= k
  {
    StartNext(batches, j);
    StartNext(batches, k);
    if j < k {
      StartsAscend(batches, j + 1, k);
    } else if k < j {
      StartsAscend(batches, k + 1, j);
    } else {
    }
  }

  // ── the other steps ────────────────────────────────────────────────────

  lemma ForkKeeps(db: Db, f: ForkRequest, refused: Option<Error>)
    requires DbInv(db)
    ensures DbInv(AfterFork(db, f, refused).1)
  {
    hide BranchCatalogs.ValidBranches, CatalogIndexes, Flat, Placed, BranchCatalogs.WithBranch, BoundaryAccepted, SyncedIsDurable;
    HeadIsBoundary(db.batches);
    DurableAtHead(db);
    if AfterFork(db, f, refused).0.Ok? {
      ForkBranchShape(db.branches, ForkInfo(f));
      BranchCatalogs.InsertKeepsValid(db.branches, ForkInfo(f));
      BoundaryFromIndex(db.catalog, db.batches, f.at);
    }
  }

  lemma BoundaryFromIndex(c: Streams.Catalog, batches: Batches, at: nat)
    requires AllPlaced(batches) && CatalogIndexes(c, batches) && at <= |Flat(batches)| && BoundaryAccepted(Flat(batches), at)
    ensures IsBoundary(batches, at)
  {
    hide AllPlaced, StreamsIndexed, StreamIdsIndexed, EventsIndexed, ReceiptsIndexed, KeysIndexed, Flat, BoundaryAccepted, IsBoundary;
    BoundaryCheckIsExact(c, batches, at);
  }

  lemma ForkBranchShape(c: BranchCatalogs.Catalog, info: BranchInfo)
    requires BranchCatalogs.WithBranch(c, info).Ok?
    ensures info.id !in c.byId && BranchCatalogs.WithBranch(c, info).value.byId == c.byId[info.id := info]
  {
  }

  lemma ArchiveKeeps(db: Db, id: Id, refused: Option<Error>)
    requires DbInv(db)
    ensures DbInv(AfterArchive(db, id, refused).1)
  {
    hide BranchCatalogs.ValidBranches, CatalogIndexes, Flat, Placed, SyncedIsDurable;
    HeadIsBoundary(db.batches);
    DurableAtHead(db);
    if AfterArchive(db, id, refused).0.Ok? && AfterArchive(db, id, refused).1 != db {
      BranchCatalogs.ArchiveKeepsValid(db.branches, db.branches.byId[id].(status := Archived));
    }
  }

  lemma AppendKeeps(db: Db, op: Op)
    requires DbInv(db) && op.Append? && Enabled(db, op)
    ensures DbInv(Apply(db, op))
  {
    hide DbInv, Judge, Recorded, NewBatch, NewReceipt;
    if Judge(db, op.req, op.supplied, op.amb).Write? && op.refused.None? {
      WriteKeeps(db, op.req, op.supplied, op.amb);
    } else {
      DurableRises(db);
    }
  }

  lemma DurableRises(db: Db)
    requires DbInv(db)
    ensures DbInv(db.(durable := Head(db)))
  {
    hide AllPlaced, CatalogIndexes, BranchCatalogs.ValidBranches, OnBranches, ForksAtBoundaries, IsBoundary, SyncedIsDurable;
    HeadIsBoundary(db.batches);
    DurableAtHead(db);
  }

  lemma DurableAtHead(db: Db)
    requires DbInv(db)
    ensures SyncedIsDurable(db.catalog, Head(db))
  {
    hide CatalogIndexes, BranchCatalogs.ValidBranches, OnBranches, ForksAtBoundaries, Flat, Placed, IsBoundary;
    BoundaryWithin(db.batches, db.durable);
  }

  /** What an op may change: batches only grow at the end, what the catalog knows it keeps
      knowing, branches only gain members and lose nothing but their active status. */
  ghost predicate Grows(a: Db, b: Db) {
    && |a.batches| <= |b.batches| && b.batches[..|a.batches|] == a.batches
    && CatalogGrows(a.catalog, b.catalog)
    && (forall id :: id in a.branches.byId ==> id in b.branches.byId && SameBranch(a.branches.byId[id], b.branches.byId[id]))
    && a.durable <= b.durable
  }

  predicate SameBranch(a: BranchInfo, b: BranchInfo) {
    a.(status := b.status) == b && (a.status == Archived ==> b.status == Archived)
  }

  ghost predicate CatalogGrows(c: Streams.Catalog, d: Streams.Catalog) {
    && (forall id :: id in c.eventIds ==> id in d.eventIds && d.eventIds[id] == c.eventIds[id])
    && (forall id :: id in c.receipts ==> id in d.receipts && d.receipts[id] == c.receipts[id])
    && (forall k :: k in c.idempotency ==> k in d.idempotency && d.idempotency[k] == c.idempotency[k])
  }

  lemma WriteGrows(db: Db, req: Request, supplied: Option<Id>, amb: Ambient)
    requires DbInv(db) && Writable(db, req, supplied, amb)
    ensures Judge(db, req, supplied, amb) == Write && 0 < |req.events| <= MAX_EVENTS
    ensures CatalogGrows(db.catalog, AfterAppend(db, req, supplied, amb, None).1.catalog)
  {
    hide Judge, NewBatch, AllPlaced, CatalogIndexes, Writable, WithDigests, WithEvents, Flat, EventFingerprint, GeneratedAreFresh, Fits,
         BranchCatalogs.ValidBranches, OnBranches, ForksAtBoundaries, IsBoundary, Extends, NextRevision, StreamIdFor;
    JudgedWrite(db, req, supplied, amb);
    WritableParts(db, req, supplied, amb);
    WriteExtends(db, req, supplied, amb);
    NewReceiptFits(db, req, supplied, amb);
    var batch := NewBatch(db.catalog, Head(db), req, supplied, amb);
    ExtendsIsUniform(db.catalog, db.batches, batch);
    ExtendingEvents(db.catalog, db.batches, batch, NewReceipt(db, req, supplied, amb).batchId);
  }

  lemma ExtendingEvents(c: Streams.Catalog, batches: Batches, batch: seq<Record>, batchId: Id)
    requires Extends(c, batches, batch) && batchId == batch[0].envelope.batchId
    ensures var m := WithDigests(c.eventIds, DigestsOf(batch), batchId);
      forall id :: id in c.eventIds ==> id in m && m[id] == c.eventIds[id]
  {
    hide WithDigests, WithEvents, EventFingerprint, NameIn, Flat, StreamNameOf;
    DigestsAreEvents(c.eventIds, batch, batchId);
    forall id | id in c.eventIds ensures id in WithEvents(c.eventIds, batch) && WithEvents(c.eventIds, batch)[id] == c.eventIds[id] {
      EventOfBatch(c.eventIds, batch, id);
    }
  }

  lemma NothingGrows(db: Db)
    requires DbInv(db)
    ensures db.durable <= Head(db) && Grows(db, db) && Grows(db, db.(durable := Head(db)))
  {
    hide AllPlaced, CatalogIndexes, BranchCatalogs.ValidBranches, OnBranches, ForksAtBoundaries, IsBoundary, Flat;
    BoundaryWithin(db.batches, db.durable);
    WholeFlat(db.batches);
  }

  lemma AppendGrows(db: Db, op: Op)
    requires DbInv(db) && op.Append? && Enabled(db, op)
    ensures Grows(db, Apply(db, op))
  {
    hide DbInv, Judge, Recorded, NewBatch, NewReceipt, Flat;
    NothingGrows(db);
    if Judge(db, op.req, op.supplied, op.amb).Write? && op.refused.None? {
      WriteGrows(db, op.req, op.supplied, op.amb);
      FlatSnoc(db.batches, NewBatch(db.catalog, Head(db), op.req, op.supplied, op.amb));
    }
  }

  lemma BranchOpsGrow(db: Db, op: Op)
    requires DbInv(db) && (op.Fork? || op.Archive?) && Enabled(db, op)
    ensures Grows(db, Apply(db, op))
  {
    hide DbInv, BoundaryAccepted, BranchCatalogs.DepthVerdict;
    NothingGrows(db);
  }

  /** Every step keeps the invariant and only adds. */
  lemma StepKeeps(db: Db, op: Op)
    requires DbInv(db) && Enabled(db, op)
    ensures DbInv(Apply(db, op)) && Grows(db, Apply(db, op))
  {
    hide DbInv, Grows, AfterAppend, AfterFork, AfterArchive;
    match op
    case Append(_, _, _, _) =>
      AppendKeeps(db, op);
      AppendGrows(db, op);
    case Commit =>
      DurableRises(db);
      NothingGrows(db);
    case Fork(f, refused) =>
      ForkKeeps(db, f, refused);
      BranchOpsGrow(db, op);
    case Archive(id, refused) =>
      ArchiveKeeps(db, id, refused);
      BranchOpsGrow(db, op);
  }

  lemma GrowsFurther(a: Db, b: Db, c: Db)
    requires Grows(a, b) && Grows(b, c)
    ensures Grows(a, c)
  {
    assert c.batches[..|a.batches|] == c.batches[..|b.batches|][..|a.batches|];
  }

  lemma {:induction false} RunKeeps(db: Db, ops: seq<Op>)
    requires DbInv(db) && RunFrom(db, ops)
    ensures DbInv(After(db, ops)) && Grows(db, After(db, ops))
    decreases |ops|
  {
    hide DbInv, Grows, Apply, Enabled;
    if ops == [] {
      NothingGrows(db);
    } else {
      StepKeeps(db, ops[0]);
      RunKeeps(Apply(db, ops[0]), ops[1..]);
      GrowsFurther(db, Apply(db, ops[0]), After(db, ops));
    }
  }

  lemma {:induction false} KeysStayWhole(db: Db, ops: seq<Op>)
    requires DbInv(db) && RunFrom(db, ops) && KeysRepeatReceipts(db.catalog)
    ensures KeysRepeatReceipts(After(db, ops).catalog)
    decreases |ops|
  {
    hide DbInv, KeysRepeatReceipts, Judge, NewBatch, NewReceipt, Flat, BoundaryAccepted, BranchCatalogs.WithBranch, Fits, GeneratedAreFresh,
         RunFrom, After;
    if ops != [] {
      var op := ops[0];
      FirstOp(db, ops);
      StepKeeps(db, op);
      if op.Append? && Judge(db, op.req, op.supplied, op.amb).Write? && op.refused.None? {
        WriteKeeps(db, op.req, op.supplied, op.amb);
      }
      KeysStayWhole(Apply(db, op), ops[1..]);
    } else {
      NoOps(db);
    }
  }

  lemma FirstOp(db: Db, ops: seq<Op>)
    requires RunFrom(db, ops) && ops != []
    ensures Enabled(db, ops[0]) && RunFrom(Apply(db, ops[0]), ops[1..]) && After(db, ops) == After(Apply(db, ops[0]), ops[1..])
  {
  }

  lemma NoOps(db: Db)
    ensures RunFrom(db, []) && After(db, []) == db
  {
  }

  /** Every reachable database has the invariant, and its idempotency entries repeat the
      receipts of their batches. */
  lemma ReachableIsInv(db: Db)
    requires Reachable(db)
    ensures DbInv(db) && KeysRepeatReceipts(db.catalog)
  {
    hide DbInv;
    FreshIsInv();
    var ops :| RunFrom(FreshDb(), ops) && After(FreshDb(), ops) == db;
    RunKeeps(FreshDb(), ops);
    KeysStayWhole(FreshDb(), ops);
  }

  lemma BoundaryOfLonger(a: Batches, b: Batches, at: nat)
    requires |a| <= |b| && b[..|a|] == a && IsBoundary(a, at)
    ensures IsBoundary(b, at) && at <= |Flat(a)| <= |Flat(b)|
  {
    hide Flat, IsBoundary;
    BoundaryWithin(a, at);
    StartsAscend(b, |a|, |b|);
    assert b[..|b|] == b;
    SameStarts(a, b, at);
  }

  lemma SameStarts(a: Batches, b: Batches, at: nat)
    requires |a| <= |b| && b[..|a|] == a && IsBoundary(a, at)
    ensures IsBoundary(b, at)
  {
    hide Flat;
    var k :| 0 <= k <= |a| && Start(a, k) == at;
    assert b[..k] == a[..k];
    assert Start(b, k) == at;
  }

  /** An accepted fork position stays acceptable, however the log grows. */
  lemma BoundaryStaysAccepted(db: Db, ops: seq<Op>, at: nat)
    requires DbInv(db) && RunFrom(db, ops) && at <= Head(db) && BoundaryAccepted(Flat(db.batches), at)
    ensures at <= Head(After(db, ops)) && BoundaryAccepted(Flat(After(db, ops).batches), at)
  {
    hide AllPlaced, CatalogIndexes, BranchCatalogs.ValidBranches, OnBranches, ForksAtBoundaries, IsBoundary, Flat, After, RunFrom,
         BoundaryAccepted, CatalogGrows;
    RunKeeps(db, ops);
    var later := After(db, ops);
    BoundaryFromIndex(db.catalog, db.batches, at);
    BoundaryOfLonger(db.batches, later.batches, at);
    BoundaryToCheck(later, at);
  }

  lemma BoundaryToCheck(db: Db, at: nat)
    requires DbInv(db) && at <= Head(db) && IsBoundary(db.batches, at)
    ensures BoundaryAccepted(Flat(db.batches), at)
  {
    hide AllPlaced, StreamsIndexed, StreamIdsIndexed, EventsIndexed, ReceiptsIndexed, KeysIndexed, Flat, BoundaryAccepted, IsBoundary,
         BranchCatalogs.ValidBranches, OnBranches, ForksAtBoundaries;
    BoundaryCheckIsExact(db.catalog, db.batches, at);
  }

  // ── what holds of the flat log ─────────────────────────────────────────

  /** POSITIONS are dense and REVISIONS gapless: a record's position is its index, and its
      revision the number of earlier records of its branch and stream. */
  lemma PositionsAndRevisions(db: Db, p: nat)
    requires DbInv(db) && p < Head(db)
    ensures var rs := Flat(db.batches);
      && rs[p].kind == Event && rs[p].position == p
      && StreamNameOf(rs[p]).Ok?
      && rs[p].envelope.revision == CountIn(rs[..p], rs[p].envelope.branchId, StreamNameOf(rs[p]).value)
  {
    hide CatalogIndexes, BranchCatalogs.ValidBranches, OnBranches, ForksAtBoundaries, IsBoundary, Flat, StreamNameOf, CountIn, Uniform;
    var k := Locate(db.batches, p);
    var i := p - Start(db.batches, k);
    SameBatchInside(db.batches, k, i);
    assert Placed(db.batches, k);
    var before, batch := Flat(db.batches[..k]), db.batches[k];
    StartNext(db.batches, k);
    StartsAscend(db.batches, k + 1, |db.batches|);
    WholeFlat(db.batches);
    assert Flat(db.batches)[..p] == before + batch[..i];
    CountConcat(before, batch[..i], batch[0].envelope.branchId, NameIn(batch));
    CountUniform(batch, batch[0].envelope.branchId, NameIn(batch), i);
  }

  /** STREAMS keep their ID: records of one branch and stream name carry one stream ID. */
  lemma StreamsKeepTheirId(db: Db, p: nat, q: nat)
    requires DbInv(db) && p < Head(db) && q < Head(db)
    requires Flat(db.batches)[p].envelope.branchId == Flat(db.batches)[q].envelope.branchId
    requires StreamNameOf(Flat(db.batches)[p]) == StreamNameOf(Flat(db.batches)[q])
    ensures Flat(db.batches)[p].envelope.streamId == Flat(db.batches)[q].envelope.streamId
  {
    hide BranchCatalogs.ValidBranches, OnBranches, ForksAtBoundaries, IsBoundary, Flat, StreamNameOf, CountIn, Uniform, Placed,
         StreamsIndexed, EventsIndexed, KeysIndexed, ReceiptsIndexed, NameIn;
    var k := Locate(db.batches, p);
    var j := Locate(db.batches, q);
    SameBatchInside(db.batches, k, p - Start(db.batches, k));
    SameBatchInside(db.batches, j, q - Start(db.batches, j));
    assert StreamIdIndexed(db.catalog, db.batches[k]) && StreamIdIndexed(db.catalog, db.batches[j]);
  }

  /** BATCHES are contiguous, with indexes counting from zero, and never share an ID. */
  lemma BatchesAreContiguous(db: Db, p: nat, q: nat)
    requires DbInv(db) && p <= q < Head(db)
    requires Flat(db.batches)[p].envelope.batchId == Flat(db.batches)[q].envelope.batchId
    ensures var rs := Flat(db.batches);
      && rs[q].envelope.batchIndex == rs[p].envelope.batchIndex + (q - p)
      && rs[p].envelope.batchIndex <= p && rs[p - rs[p].envelope.batchIndex].envelope.batchId == rs[p].envelope.batchId
      && forall m :: p <= m <= q ==> rs[m].envelope.batchId == rs[p].envelope.batchId
  {
    hide BranchCatalogs.ValidBranches, OnBranches, ForksAtBoundaries, IsBoundary, Flat, StreamNameOf, CountIn, Uniform, Placed,
         StreamsIndexed, StreamIdsIndexed, EventsIndexed, KeysIndexed, ReceiptIndexed;
    var bs: Batches := db.batches;
    var k := Locate(bs, p);
    var j := Locate(bs, q);
    SameBatchInside(bs, k, p - Start(bs, k));
    SameBatchInside(bs, j, q - Start(bs, j));
    assert k == j;
    InFlat(bs, k, 0);
    forall m | p <= m <= q ensures Flat(bs)[m].envelope.batchId == Flat(bs)[p].envelope.batchId {
      InFlat(bs, k, m - Start(bs, k));
      SameBatchInside(bs, k, m - Start(bs, k));
    }
  }

  /** EVENT IDS belong to one batch, and to one content. */
  lemma EventIdsBelongToOneBatch(db: Db, p: nat, q: nat)
    requires DbInv(db) && p < Head(db) && q < Head(db)
    requires Flat(db.batches)[p].envelope.eventId == Flat(db.batches)[q].envelope.eventId
    ensures Flat(db.batches)[p].envelope.batchId == Flat(db.batches)[q].envelope.batchId
    ensures EventFingerprint(Flat(db.batches)[p]) == EventFingerprint(Flat(db.batches)[q])
  {
    hide BranchCatalogs.ValidBranches, OnBranches, ForksAtBoundaries, IsBoundary, Flat, AllPlaced, EventFingerprint,
         StreamsIndexed, StreamIdsIndexed, KeysIndexed, ReceiptsIndexed;
    var k := Locate(db.batches, p);
    var j := Locate(db.batches, q);
    assert EventIndexed(db.catalog, db.batches[k][p - Start(db.batches, k)]);
    assert EventIndexed(db.catalog, db.batches[j][q - Start(db.batches, j)]);
  }

  /** A receipt says exactly where its batch lies: those positions and no others. */
  lemma ReceiptsLocate(db: Db, id: Id, p: nat)
    requires DbInv(db) && id in db.catalog.receipts && p < Head(db)
    ensures db.catalog.receipts[id].batchId == id
    ensures db.catalog.receipts[id].first <= p <= db.catalog.receipts[id].last <==> Flat(db.batches)[p].envelope.batchId == id
  {
    hide BranchCatalogs.ValidBranches, OnBranches, ForksAtBoundaries, IsBoundary, Flat, Placed, Start, ReceiptOver,
         StreamsIndexed, StreamIdsIndexed, EventsIndexed, KeysIndexed;
    var bs: Batches := db.batches;
    var k :| 0 <= k < |bs| && bs[k][0].envelope.batchId == id;
    assert ReceiptIndexed(db.catalog, bs[k]);
    ReceiptSpans(bs, k);
    var j := BatchAt(bs, p);
    if j <= k {
      IdsTellBatchesApart(db.catalog, bs, j, k);
    } else {
      IdsTellBatchesApart(db.catalog, bs, k, j);
    }
    BatchesAreApart(bs, j, k);
  }

  lemma IndexedReceipts(db: Db)
    requires DbInv(db)
    ensures forall id :: id in db.catalog.receipts ==> db.catalog.receipts[id].batchId == id
  {
    hide Flat, Placed, StreamsIndexed, StreamIdsIndexed, EventsIndexed, KeysIndexed, BranchCatalogs.ValidBranches, OnBranches, ForksAtBoundaries, IsBoundary;
    forall id | id in db.catalog.receipts ensures db.catalog.receipts[id].batchId == id {
      var k :| 0 <= k < |db.batches| && db.batches[k][0].envelope.batchId == id;
      assert ReceiptIndexed(db.catalog, db.batches[k]);
    }
  }

  lemma ReceiptSpans(batches: Batches, k: nat)
    requires AllPlaced(batches) && k < |batches|
    ensures batches[k] != [] && ReceiptOver(batches[k]).batchId == batches[k][0].envelope.batchId
    ensures ReceiptOver(batches[k]).first == Start(batches, k) && ReceiptOver(batches[k]).last == Start(batches, k) + |batches[k]| - 1
  {
    hide Placed, Start, StreamNameOf, NameIn;
    SameBatchInside(batches, k, 0);
    SameBatchInside(batches, k, |batches[k]| - 1);
  }

  lemma BatchesAreApart(batches: Batches, j: nat, k: nat)
    requires j < |batches| && k < |batches|
    ensures j < k ==> Start(batches, j) + |batches[j]| <= Start(batches, k)
    ensures k < j ==> Start(batches, k) + |batches[k]| <= Start(batches, j)
  {
    StartNext(batches, j);
    StartNext(batches, k);
    if j < k {
      StartsAscend(batches, j + 1, k);
    } else if k < j {
      StartsAscend(batches, k + 1, j);
    }
  }
}
