/** Opening a database: what the units of a recovered log rebuild to, and why every prefix
    of a live database's units rebuilds to a database that keeps the invariant. */
module Rebuild {
  import opened Base
  import opened Format
  import opened RecordWalk
  import opened RecordWalkLaws
  import opened Streams
  import opened Branches
  import opened AppendMachine
  import opened AppendLaws
  import opened AppendSafety
  import opened Retries
  import BC = BranchCatalogs

  /** What a system frame says about branches; its payload codec is not modelled. */
  type Decoder = Record -> BC.BranchEntry

  // ── what the units hold ────────────────────────────────────────────────

  function BatchesIn(us: seq<Unit>): Batches
    decreases |us|
  {
    if us == [] then []
    else BatchesIn(us[..|us| - 1]) + if us[|us| - 1].Sys? then [] else [UnitEvents(us[|us| - 1])]
  }

  function DecodedAll(decode: Decoder, frames: seq<Record>): (entries: seq<BC.BranchEntry>)
    ensures |entries| == |frames|
  {
    seq(|frames|, i requires 0 <= i < |frames| => decode(frames[i]))
  }

  /** The database a recovered log opens as: both catalogs rebuilt, the head taken as durable. */
  function Rebuilding(decode: Decoder, us: seq<Unit>): Result<Db> {
    var catalog :- Rebuilt(Events(us));
    var branches :- BC.ReplayedEntries(DecodedAll(decode, Systems(us)));
    Ok(Db(BatchesIn(us), catalog, branches, |Events(us)|))
  }

  lemma LastUnit(us: seq<Unit>, u: Unit)
    ensures Events(us + [u]) == Events(us) + UnitEvents(u)
    ensures Systems(us + [u]) == Systems(us) + UnitSystems(u)
    ensures BatchesIn(us + [u]) == BatchesIn(us) + if u.Sys? then [] else [UnitEvents(u)]
    ensures (us + [u])[..|us|] == us
  {
    hide ValidUnits, ValidUnit, Image, UnitEvents, UnitSystems;
    UnitsSnoc(us, u, 0);
    assert (us + [u])[..|us|] == us;
  }

  lemma {:induction false} BatchesAreEvents(us: seq<Unit>)
    ensures Flat(BatchesIn(us)) == Events(us)
    decreases |us|
  {
    hide UnitEvents;
    if us != [] {
      var shorter, u := us[..|us| - 1], us[|us| - 1];
      assert us == shorter + [u];
      BatchesAreEvents(shorter);
      LastUnit(shorter, u);
      FlatSnoc(BatchesIn(shorter), UnitEvents(u));
      SystemsHaveNoEvents(u);
      assert BatchesIn(shorter) + [] == BatchesIn(shorter) && Events(shorter) + [] == Events(shorter);
    } else {
      assert Events([]) == [] && Flat([]) == [];
    }
  }

  lemma SystemsHaveNoEvents(u: Unit)
    ensures u.Sys? ==> UnitEvents(u) == []
    ensures UnitSystems(u) == if u.Sys? then [u.frame.rec] else []
  {
  }

  lemma {:induction false} BatchesOfPrefix(us: seq<Unit>, n: nat)
    requires n <= |us|
    ensures BatchesIn(us[..n]) <= BatchesIn(us)
    decreases |us|
  {
    if n == |us| {
      assert us[..n] == us;
    } else {
      assert us[..|us| - 1][..n] == us[..n];
      BatchesOfPrefix(us[..|us| - 1], n);
    }
  }

  // ── logs a database writes ─────────────────────────────────────────────

  /** The unit fits the database the units before it rebuild to. */
  ghost predicate Sits(decode: Decoder, db: Db, u: Unit) {
    if u.Sys? then
      match decode(u.frame.rec)
      case Created(info) =>
        && BC.WithBranch(db.branches, info).Ok? && info.parent.Some?
        && info.forkPosition.Some? && IsBoundary(db.batches, info.forkPosition.value)
      case ArchivedAs(info) => BC.WithArchived(db.branches, info).Ok?
      case Unrelated => true
    else
      Extends(db.catalog, db.batches, UnitEvents(u)) && UnitEvents(u)[0].envelope.branchId in db.branches.byId
  }

  /** Every unit fits what came before it. */
  ghost predicate Sound(decode: Decoder, us: seq<Unit>)
    decreases |us|
  {
    us == [] ||
    (var shorter := us[..|us| - 1];
     Sound(decode, shorter) && Rebuilding(decode, shorter).Ok? && Sits(decode, Rebuilding(decode, shorter).value, us[|us| - 1]))
  }

  lemma {:induction false} SoundPrefix(decode: Decoder, us: seq<Unit>, n: nat)
    requires Sound(decode, us) && n <= |us|
    ensures Sound(decode, us[..n])
    decreases |us|
  {
    if n == |us| {
      assert us[..n] == us;
    } else {
      assert us[..|us| - 1][..n] == us[..n];
      SoundPrefix(decode, us[..|us| - 1], n);
    }
  }

  // ── a unit that fits rebuilds ──────────────────────────────────────────

  lemma ExtendingContinues(c: Streams.Catalog, batches: Batches, batch: seq<Record>)
    requires Extends(c, batches, batch)
    ensures Continues(c, batch, NameIn(batch))
  {
    hide Uniform, NameIn, Flat, EventFingerprint;
  }

  /** A batch's own key entries cover a leading part of it. */
  lemma {:induction false} RequestsArePartial(m: map<(Id, Bytes), KeyEntry>, batch: seq<Record>, n: nat, name: Bytes)
    requires Uniform(batch, name) && n <= |batch|
    ensures forall k :: k in WithRequests(m, batch[..n]) ==>
      || (k in m && WithRequests(m, batch[..n])[k] == m[k])
      || PartReceipt(WithRequests(m, batch[..n])[k].receipt, ReceiptOver(batch))
    decreases n
  {
    hide RequestOf, Uniform, ReceiptOver, PartReceipt;
    UniformIsSome(batch, name);
    if n > 0 {
      assert batch[..n][..n - 1] == batch[..n - 1] && batch[..n][n - 1] == batch[n - 1];
      RequestsArePartial(m, batch, n - 1, name);
      PartOfBatch(batch, n, name);
    }
  }

  lemma PartOfBatch(batch: seq<Record>, n: nat, name: Bytes)
    requires Uniform(batch, name) && 0 < n <= |batch|
    ensures batch != [] && PartReceipt(ReceiptOver(batch[..n]), ReceiptOver(batch))
  {
    hide StreamNameOf;
  }

  lemma KeysOfBatch(c: Streams.Catalog, batch: seq<Record>, name: Bytes)
    requires KeysIndexed(c) && Continues(c, batch, name)
    ensures KeysIndexed(WithBatch(c, batch, name))
  {
    hide Uniform, WithRequests, ReceiptOver, EventFingerprint, PartReceipt, StreamContinues;
    var d := WithBatch(c, batch, name);
    UniformIsSome(batch, name);
    RequestsArePartial(c.idempotency, batch, |batch|, name);
    assert batch[..|batch|] == batch;
    SameBatchId(batch, name);
    forall k | k in d.idempotency
      ensures d.idempotency[k].receipt.batchId in d.receipts
      ensures PartReceipt(d.idempotency[k].receipt, d.receipts[d.idempotency[k].receipt.batchId])
    {
      if k in c.idempotency && d.idempotency[k] == c.idempotency[k] {
        assert d.idempotency[k].receipt.batchId in c.receipts;
      } else {
        PartNamesBatch(d.idempotency[k].receipt, ReceiptOver(batch));
      }
    }
  }

  lemma PartNamesBatch(part: Receipt, whole: Receipt)
    requires PartReceipt(part, whole)
    ensures part.batchId == whole.batchId
  {
  }

  lemma SameBatchId(batch: seq<Record>, name: Bytes)
    requires Uniform(batch, name)
    ensures batch != [] && batch[|batch| - 1].envelope.batchId == batch[0].envelope.batchId == ReceiptOver(batch).batchId
    ensures batch[|batch| - 1].envelope.branchId == batch[0].envelope.branchId
    ensures batch[|batch| - 1].envelope.streamId == batch[0].envelope.streamId
  {
  }

  /** Replaying a batch record by record indexes it as one update does. */
  lemma ReplayIndexes(c: Streams.Catalog, batches: Batches, batch: seq<Record>)
    requires AllPlaced(batches) && CatalogIndexes(c, batches) && Extends(c, batches, batch)
    ensures AllPlaced(batches + [batch]) && CatalogIndexes(WithBatch(c, batch, NameIn(batch)), batches + [batch])
  {
    hide EventFingerprint, Uniform, Placed, NextRevision, NameIn, WithEvents, WithRequests, StreamsIndexed, StreamIdsIndexed, EventsIndexed,
         ReceiptsIndexed, KeysIndexed, Flat, AllPlaced, Extends, Continues, ReceiptOver;
    ExtendsIsNew(c, batches, batch);
    ExtendingContinues(c, batches, batch);
    ContinuingIsUniform(c, batch, NameIn(batch));
    SameBatchId(batch, NameIn(batch));
    var d := WithBatch(c, batch, NameIn(batch));
    SnocPlaced(c, batches, batch);
    SnocStreams(c, d, batches, batch);
    SnocStreamIds(c, d, batches, batch);
    SnocEvents(c, d, batches, batch);
    SnocReceipts(c, d, batches, batch, ReceiptOver(batch));
    KeysOfBatch(c, batch, NameIn(batch));
  }

  lemma ContinuingIsUniform(c: Streams.Catalog, batch: seq<Record>, name: Bytes)
    requires Continues(c, batch, name)
    ensures Uniform(batch, name)
  {
  }

  lemma BatchRebuilds(decode: Decoder, us: seq<Unit>, u: Unit)
    requires Rebuilding(decode, us).Ok? && DbInv(Rebuilding(decode, us).value)
    requires !u.Sys? && Sits(decode, Rebuilding(decode, us).value, u)
    ensures Rebuilding(decode, us + [u]).Ok? && DbInv(Rebuilding(decode, us + [u]).value)
    ensures UnitEvents(u) != []
    ensures Rebuilding(decode, us + [u]).value.catalog == WithBatch(Rebuilding(decode, us).value.catalog, UnitEvents(u), NameIn(UnitEvents(u)))
    ensures Rebuilding(decode, us + [u]).value.branches == Rebuilding(decode, us).value.branches
  {
    hide AllPlaced, CatalogIndexes, Flat, Extends, Continues, WithBatch, Rebuilt, UnitEvents, UnitSystems, BC.ReplayedEntries,
         BC.ValidBranches, OnBranches, ForksAtBoundaries, IsBoundary, DecodedAll, Events, Systems, NameIn;
    var db, batch := Rebuilding(decode, us).value, UnitEvents(u);
    LastUnit(us, u);
    BatchesAreEvents(us);
    BatchesAreEvents(us + [u]);
    SystemsHaveNoEvents(u);
    assert Systems(us) + [] == Systems(us);
    ExtendsIsNew(db.catalog, db.batches, batch);
    ExtendingContinues(db.catalog, db.batches, batch);
    RebuiltSnoc(db.batches, batch, NameIn(batch));
    ReplayIndexes(db.catalog, db.batches, batch);
    SnocBranches(db.branches.byId, db.batches, batch);
    HeadIsBoundary(db.batches + [batch]);
    HeadIsDurable(Rebuilding(decode, us + [u]).value.catalog, db.batches + [batch], |Flat(db.batches + [batch])|);
  }

  lemma ReplaySnoc(entries: seq<BC.BranchEntry>, e: BC.BranchEntry)
    requires BC.ReplayedEntries(entries).Ok?
    ensures BC.ReplayedEntries(entries + [e]) == BC.EntryApplied(BC.ReplayedEntries(entries).value, e)
  {
    assert (entries + [e])[..|entries|] == entries;
  }

  lemma DecodedSnoc(decode: Decoder, frames: seq<Record>, r: Record)
    ensures DecodedAll(decode, frames + [r]) == DecodedAll(decode, frames) + [decode(r)]
  {
  }

  lemma FrameRebuilds(decode: Decoder, us: seq<Unit>, u: Unit)
    requires Rebuilding(decode, us).Ok? && DbInv(Rebuilding(decode, us).value)
    requires u.Sys? && Sits(decode, Rebuilding(decode, us).value, u)
    ensures var db := Rebuilding(decode, us).value;
      && BC.EntryApplied(db.branches, decode(u.frame.rec)).Ok?
      && Rebuilding(decode, us + [u]) == Ok(db.(branches := BC.EntryApplied(db.branches, decode(u.frame.rec)).value))
      && DbInv(Rebuilding(decode, us + [u]).value)
  {
    hide AllPlaced, CatalogIndexes, Flat, Rebuilt, BC.ReplayedEntries, UnitEvents, UnitSystems,
         BC.ValidBranches, OnBranches, ForksAtBoundaries, IsBoundary, BC.WithBranch, BC.WithArchived, DecodedAll, Events, Systems;
    var db := Rebuilding(decode, us).value;
    LastUnit(us, u);
    SystemsHaveNoEvents(u);
    assert Events(us) + [] == Events(us) && BatchesIn(us) + [] == BatchesIn(us);
    DecodedSnoc(decode, Systems(us), u.frame.rec);
    ReplaySnoc(DecodedAll(decode, Systems(us)), decode(u.frame.rec));
    match decode(u.frame.rec)
    case Created(info) =>
      BC.InsertKeepsValid(db.branches, info);
      NewBranchKeeps(db, info);
    case ArchivedAs(info) =>
      BC.ArchiveKeepsValid(db.branches, info);
      ArchivedBranchKeeps(db, info);
    case Unrelated =>
  }

  lemma NewBranchKeeps(db: Db, info: BranchInfo)
    requires DbInv(db) && BC.WithBranch(db.branches, info).Ok? && info.forkPosition.Some? && IsBoundary(db.batches, info.forkPosition.value)
    ensures var m := BC.WithBranch(db.branches, info).value.byId; OnBranches(m, db.batches) && ForksAtBoundaries(m, db.batches)
  {
    hide BC.ValidBranches, CatalogIndexes, Flat, Placed, IsBoundary, BC.WithBranch;
    ForkBranchShape(db.branches, info);
  }

  lemma ArchivedBranchKeeps(db: Db, info: BranchInfo)
    requires DbInv(db) && BC.WithArchived(db.branches, info).Ok?
    ensures var m := BC.WithArchived(db.branches, info).value.byId; OnBranches(m, db.batches) && ForksAtBoundaries(m, db.batches)
  {
    hide BC.ValidBranches, CatalogIndexes, Flat, Placed, IsBoundary;
  }

  lemma FreshRebuilds(decode: Decoder)
    ensures Rebuilding(decode, []) == Ok(FreshDb())
  {
    assert Rebuilt(Events([])) == Ok(EMPTY);
    assert DecodedAll(decode, Systems([])) == [];
  }

  /** REBUILDING: a log in which every unit fits what came before opens, and the rebuilt
      database keeps the whole invariant. */
  lemma {:induction false} SoundRebuilds(decode: Decoder, us: seq<Unit>)
    requires Sound(decode, us)
    ensures Rebuilding(decode, us).Ok? && DbInv(Rebuilding(decode, us).value)
    decreases |us|
  {
    hide DbInv, Rebuilding, Sits;
    if us == [] {
      FreshRebuilds(decode);
      FreshIsInv();
    } else {
      var shorter, u := us[..|us| - 1], us[|us| - 1];
      SoundRebuilds(decode, shorter);
      assert us == shorter + [u];
      if u.Sys? {
        FrameRebuilds(decode, shorter, u);
      } else {
        BatchRebuilds(decode, shorter, u);
      }
    }
  }

  // ── a live database and the units behind it ────────────────────────────

  /** Same streams, same event index, same batches. */
  ghost predicate SameIndex(a: Streams.Catalog, b: Streams.Catalog) {
    a.streams == b.streams && a.eventIds == b.eventIds && a.receipts.Keys == b.receipts.Keys
  }

  /** The units behind a live database: each fitted, and together they hold its batches, its
      branches and what its catalog indexes. */
  ghost predicate Journaled(decode: Decoder, db: Db, us: seq<Unit>) {
    && Sound(decode, us) && Rebuilding(decode, us).Ok?
    && db.batches == BatchesIn(us) && db.branches == Rebuilding(decode, us).value.branches
    && SameIndex(db.catalog, Rebuilding(decode, us).value.catalog)
  }

  lemma FreshIsJournaled(decode: Decoder)
    ensures Journaled(decode, FreshDb(), [])
  {
    FreshRebuilds(decode);
  }

  lemma SoundSnoc(decode: Decoder, us: seq<Unit>, u: Unit)
    requires Sound(decode, us) && Rebuilding(decode, us).Ok? && Sits(decode, Rebuilding(decode, us).value, u)
    ensures Sound(decode, us + [u])
  {
    hide Rebuilding, Sits;
    assert (us + [u])[..|us|] == us;
  }

  lemma ExtendsSame(a: Streams.Catalog, b: Streams.Catalog, batches: Batches, batch: seq<Record>)
    requires SameIndex(a, b) && Extends(a, batches, batch)
    ensures Extends(b, batches, batch)
  {
    hide Uniform, NameIn, Flat, EventFingerprint;
    assert batch[0].envelope.batchId !in b.receipts.Keys;
  }

  lemma UpdatesIndexSame(a: Streams.Catalog, b: Streams.Catalog, batches: Batches, batch: seq<Record>, request: Option<(Bytes, u32)>, receipt: Receipt)
    requires SameIndex(a, b) && Extends(a, batches, batch) && SameReceipt(receipt, ReceiptOver(batch))
    ensures SameIndex(CatalogAfter(a, batch, request, receipt), WithBatch(b, batch, NameIn(batch)))
  {
    hide Uniform, NameIn, Flat, EventFingerprint, WithEvents, WithDigests, WithRequests, NextRevision, StreamNameOf, Extends;
    ExtendsIsNew(a, batches, batch);
    ExtendsIsUniform(a, batches, batch);
    ExtendingContinues(a, batches, batch);
    ContinuingIsUniform(a, batch, NameIn(batch));
    SameBatchId(batch, NameIn(batch));
    DigestsAreEvents(a.eventIds, batch, receipt.batchId);
  }

  /** An accepted append keeps the journal: its batch is the next unit. */
  lemma WriteIsJournaled(decode: Decoder, db: Db, us: seq<Unit>, req: Request, supplied: Option<Id>, amb: Ambient, u: Unit)
    requires Journaled(decode, db, us) && DbInv(db) && Writable(db, req, supplied, amb)
    requires !u.Sys? && Fits(db.catalog, Head(db), req, amb) && |req.events| <= MAX_EVENTS
    requires UnitEvents(u) == NewBatch(db.catalog, Head(db), req, supplied, amb)
    ensures Journaled(decode, AfterAppend(db, req, supplied, amb, None).1, us + [u])
  {
    hide DbInv, Writable, Judge, NewBatch, Fits, Flat, Extends, Rebuilding, Sound, WithBatch, CatalogAfter, NameIn, Recorded, NewReceipt, SameIndex, UnitEvents,
         RequestStamp;
    JudgedWrite(db, req, supplied, amb);
    WriteExtends(db, req, supplied, amb);
    var rebuilt := Rebuilding(decode, us).value;
    var batch := NewBatch(db.catalog, Head(db), req, supplied, amb);
    SoundRebuilds(decode, us);
    RebuildingParts(decode, us);
    ExtendsSame(db.catalog, rebuilt.catalog, db.batches, batch);
    WritesKnownBranch(db, req, supplied, amb);
    SoundSnoc(decode, us, u);
    BatchRebuilds(decode, us, u);
    LastUnit(us, u);
    NewReceiptFits(db, req, supplied, amb);
    RecordedIsBatch(db, req, supplied, amb);
    UpdatesIndexSame(db.catalog, rebuilt.catalog, db.batches, batch, RequestStamp(req, amb), NewReceipt(db, req, supplied, amb));
  }

  lemma RebuildingParts(decode: Decoder, us: seq<Unit>)
    requires Rebuilding(decode, us).Ok?
    ensures Rebuilding(decode, us).value.batches == BatchesIn(us) && Rebuilding(decode, us).value.durable == |Events(us)|
  {
    hide Rebuilt, DecodedAll, BC.ReplayedEntries;
  }

  lemma WritesKnownBranch(db: Db, req: Request, supplied: Option<Id>, amb: Ambient)
    requires Writable(db, req, supplied, amb)
    ensures Fits(db.catalog, Head(db), req, amb) && 0 < |req.events| <= MAX_EVENTS
    ensures var batch := NewBatch(db.catalog, Head(db), req, supplied, amb); batch != [] && batch[0].envelope.branchId in db.branches.byId
  {
    hide Judge, NewBatch, Writable, Fits, StreamNameOf, Uniform, NextRevision, StreamIdFor, BatchIdFor, Flat, Conflicting, AnySeen;
    JudgedWrite(db, req, supplied, amb);
    WritableParts(db, req, supplied, amb);
    NewBatchShape(db.catalog, Head(db), req, supplied, amb);
  }

  /** A fork keeps the journal: its frame is the next unit. */
  lemma ForkIsJournaled(decode: Decoder, db: Db, us: seq<Unit>, f: ForkRequest, frame: Frame)
    requires Journaled(decode, db, us) && DbInv(db) && AfterFork(db, f, None).0.Ok?
    requires decode(frame.rec) == BC.Created(ForkInfo(f))
    ensures Journaled(decode, AfterFork(db, f, None).1, us + [Sys(frame)])
  {
    hide AllPlaced, CatalogIndexes, Flat, Sound, Rebuilding, SameIndex, BC.ValidBranches, OnBranches, ForksAtBoundaries, IsBoundary,
         BC.WithBranch, BoundaryAccepted;
    SoundRebuilds(decode, us);
    RebuildingParts(decode, us);
    BoundaryFromIndex(db.catalog, db.batches, f.at);
    SoundSnoc(decode, us, Sys(frame));
    FrameRebuilds(decode, us, Sys(frame));
    LastUnit(us, Sys(frame));
    assert BatchesIn(us) + [] == BatchesIn(us);
  }

  lemma ArchiveIsJournaled(decode: Decoder, db: Db, us: seq<Unit>, id: Id, frame: Frame)
    requires Journaled(decode, db, us) && AfterArchive(db, id, None).0.Ok? && db.branches.byId[id].status == Active
    requires decode(frame.rec) == BC.ArchivedAs(db.branches.byId[id].(status := Archived))
    ensures Journaled(decode, AfterArchive(db, id, None).1, us + [Sys(frame)])
  {
    hide Flat, Sound, Rebuilding, SameIndex, DbInv, BC.WithArchived;
    SoundRebuilds(decode, us);
    RebuildingParts(decode, us);
    SoundSnoc(decode, us, Sys(frame));
    FrameRebuilds(decode, us, Sys(frame));
    LastUnit(us, Sys(frame));
    assert BatchesIn(us) + [] == BatchesIn(us);
  }

  /** A rebuilt database stands on its own units. */
  lemma RebuiltIsJournaled(decode: Decoder, us: seq<Unit>)
    requires Sound(decode, us)
    ensures Rebuilding(decode, us).Ok? && DbInv(Rebuilding(decode, us).value) && Journaled(decode, Rebuilding(decode, us).value, us)
  {
    hide DbInv, Rebuilding, Sound;
    SoundRebuilds(decode, us);
    RebuildingParts(decode, us);
  }
}
