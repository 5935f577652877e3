/** Optimistic concurrency: what an append's expectation says about the stored records, and
    what it guards against. */
module Expectations {
  import opened Base
  import opened Format
  import opened Streams
  import opened Branches
  import opened AppendMachine
  import opened AppendLaws
  import opened AppendSafety
  import BranchCatalogs

  /** How many records the log holds of a request's branch and stream. */
  function Stored(db: Db, req: Request): nat {
    CountIn(Flat(db.batches), req.branch, req.stream)
  }

  /** What a request expects of the stored records: none of its stream yet, or just those up
      to the revision it names. */
  predicate Met(expected: Expected, stored: nat) {
    match expected
    case AnyRevision => true
    case NoStream => stored == 0
    case Exact(revision) => stored == revision + 1
  }

  lemma ExpectationIsMet(db: Db, req: Request)
    requires DbInv(db)
    ensures Expectation(req.expected, PreviousRevision(db.catalog, req.branch, req.stream)) <==> Met(req.expected, Stored(db, req))
  {
    hide AllPlaced, StreamIdsIndexed, EventsIndexed, ReceiptsIndexed, KeysIndexed, Flat, CountIn,
         BranchCatalogs.ValidBranches, OnBranches, ForksAtBoundaries, IsBoundary;
    assert NextRevision(db.catalog, req.branch, req.stream) == Stored(db, req);
  }

  /** WRITTEN AS EXPECTED: a request is written only while its stream holds exactly the
      records it expects. */
  lemma WrittenAsExpected(db: Db, req: Request, supplied: Option<Id>, amb: Ambient)
    requires DbInv(db) && Writable(db, req, supplied, amb)
    ensures Met(req.expected, Stored(db, req))
  {
    hide DbInv, Judge, Writable, NewBatch, Expectation, Conflicting, AnySeen, Flat, CountIn;
    WritableParts(db, req, supplied, amb);
    ExpectationIsMet(db, req);
  }

  /** STALE REQUESTS ARE REFUSED: a request that would be written if it expected nothing is
      written exactly if the stream holds what it expects, and otherwise refused for its
      revision. */
  lemma StaleIsRefused(db: Db, req: Request, supplied: Option<Id>, amb: Ambient)
    requires DbInv(db) && Fits(db.catalog, Head(db), req, amb)
    requires Judge(db, req.(expected := AnyRevision), supplied, amb) == Write
    ensures Judge(db, req, supplied, amb) == if Met(req.expected, Stored(db, req)) then Write else Refuse(RevisionConflict)
  {
    hide DbInv, Conflicting, AnySeen, KnownVerdict, Fits, Flat, CountIn, Met, PreviousRevision, BatchIdFor, Expectation;
    var plain := req.(expected := AnyRevision);
    ExpectationIsMet(db, req);
    NothingExpected(db, req);
    SameDrafts(db.catalog, Head(db), req, plain, supplied, amb);
  }

  lemma NothingExpected(db: Db, req: Request)
    ensures Expectation(AnyRevision, PreviousRevision(db.catalog, req.branch, req.stream))
  {
  }

  lemma SameDrafts(c: Streams.Catalog, head: nat, a: Request, b: Request, supplied: Option<Id>, amb: Ambient)
    requires Fits(c, head, a, amb) && b == a.(expected := b.expected) && |a.events| <= MAX_EVENTS
    ensures Fits(c, head, b, amb) && NewBatch(c, head, a, supplied, amb) == NewBatch(c, head, b, supplied, amb)
  {
    hide Stamped;
    assert Drafts(c, head, a, supplied, amb) == Drafts(c, head, b, supplied, amb);
  }

  /** AT MOST ONE: of two requests on one stream with the same `NoStream` or `Exact`
      expectation at most one is written in any run. */
  lemma AtMostOneIsWritten(db: Db, req: Request, supplied: Option<Id>, amb: Ambient, ops: seq<Op>, again: Request, supplied': Option<Id>, amb': Ambient)
    requires DbInv(db) && Writable(db, req, supplied, amb) && RunFrom(AfterAppend(db, req, supplied, amb, None).1, ops)
    requires again.branch == req.branch && again.stream == req.stream && again.expected == req.expected != AnyRevision
    requires var later := After(AfterAppend(db, req, supplied, amb, None).1, ops);
      Fits(later.catalog, Head(later), again, amb') && GeneratedAreFresh(later.catalog, again, amb')
    ensures var later := After(AfterAppend(db, req, supplied, amb, None).1, ops);
      Judge(later, again, supplied', amb') != Write
  {
    hide DbInv, Judge, Flat, CountIn, After, RunFrom, AfterAppend, Fits, GeneratedAreFresh, Grows;
    var next := AfterAppend(db, req, supplied, amb, None).1;
    var later := After(next, ops);
    WriteKeeps(db, req, supplied, amb);
    RunKeeps(next, ops);
    WrittenAsExpected(db, req, supplied, amb);
    WriteCounts(db, req, supplied, amb);
    CountGrows(next, later, req.branch, req.stream);
    if Judge(later, again, supplied', amb') == Write {
      WrittenAsExpected(later, again, supplied', amb');
    }
  }

  /** A written request adds its events to its stream's count. */
  lemma WriteCounts(db: Db, req: Request, supplied: Option<Id>, amb: Ambient)
    requires DbInv(db) && Writable(db, req, supplied, amb)
    ensures req.events != [] && Stored(AfterAppend(db, req, supplied, amb, None).1, req) == Stored(db, req) + |req.events|
  {
    hide DbInv, Judge, Flat, CountIn, NewBatch, Uniform, NameIn, Fits, GeneratedAreFresh, Recorded, NewReceipt, NextRevision, StreamIdFor, BatchIdFor;
    JudgedWrite(db, req, supplied, amb);
    var batch := NewBatch(db.catalog, Head(db), req, supplied, amb);
    NewBatchShape(db.catalog, Head(db), req, supplied, amb);
    FlatSnoc(db.batches, batch);
    CountConcat(Flat(db.batches), batch, req.branch, req.stream);
    CountUniform(batch, req.branch, req.stream, |batch|);
    assert batch[..|batch|] == batch;
  }

  lemma CountGrows(a: Db, b: Db, branch: Id, name: Bytes)
    requires Grows(a, b)
    ensures CountIn(Flat(a.batches), branch, name) <= CountIn(Flat(b.batches), branch, name)
  {
    hide CatalogGrows, SameBranch, Flat, CountIn;
    StartsAscend(b.batches, |a.batches|, |b.batches|);
    WholeFlat(b.batches);
    var early, all := Flat(a.batches), Flat(b.batches);
    assert all == early + all[|early|..];
    CountConcat(early, all[|early|..], branch, name);
  }
}
