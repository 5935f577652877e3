/** What a fork inherits and what it does not, now and in every later state, and what
    archiving freezes. */
module Forks {
  import opened Base
  import opened Format
  import opened ReadPlan
  import opened Branches
  import opened Streams
  import opened AppendMachine
  import opened AppendLaws
  import opened AppendSafety
  import opened Timelines
  import BranchCatalogs

  // ── later views of one path ────────────────────────────────────────────

  /** Later paths of a branch have the same nodes, up to their status. */
  lemma {:induction false} LineageStays(m: BranchMap, n: BranchMap, current: Option<Id>, taken: nat)
    requires taken <= MAX_LINEAGE_DEPTH && Lineage(m, current, taken).Ok?
    requires forall id :: id in m ==> id in n && SameBranch(m[id], n[id])
    ensures Lineage(n, current, taken).Ok?
    ensures SamePath(Lineage(m, current, taken).value, Lineage(n, current, taken).value)
    decreases MAX_LINEAGE_DEPTH - taken
  {
    if current.Some? {
      LineageStays(m, n, m[current.value].parent, taken + 1);
    }
  }

  ghost predicate SamePath(a: seq<BranchInfo>, b: seq<BranchInfo>) {
    |a| == |b| && forall i :: 0 <= i < |a| ==> SameBranch(a[i], b[i])
  }

  /** Below the old end, a later and longer view of the same path shows the same. */
  lemma {:induction false} UpperStays(a: seq<BranchInfo>, b: seq<BranchInfo>, i: nat, early: nat, late: nat, position: nat)
    requires SamePath(a, b) && WellForked(a) && i < |a| && position < early <= late
    ensures position < UpperAt(a, i, early) <==> position < UpperAt(b, i, late)
    decreases |a| - i
  {
    if i + 1 < |a| {
      UpperStays(a, b, i + 1, early, late, position);
      assert SameBranch(a[i + 1], b[i + 1]);
    }
  }

  lemma VisibleStays(a: seq<BranchInfo>, b: seq<BranchInfo>, early: nat, late: nat, branch: Id, position: nat)
    requires SamePath(a, b) && WellForked(a) && position < early <= late
    ensures Visible(a, early, branch, position) <==> Visible(b, late, branch, position)
  {
    hide WellForked, UpperAt;
    forall i | 0 <= i < |a| ensures a[i].id == b[i].id && (position < UpperAt(a, i, early) <==> position < UpperAt(b, i, late)) {
      UpperStays(a, b, i, early, late, position);
      assert SameBranch(a[i], b[i]);
    }
  }

  lemma {:induction false} FilteredSame(f: Filter, g: Filter, rs: seq<Record>)
    requires f.selector.Valid() && g.selector.Valid() && forall i :: 0 <= i < |rs| ==> (Takes(f, rs[i]) <==> Takes(g, rs[i]))
    ensures Filtered(f, rs) == Filtered(g, rs)
    decreases |rs|
  {
    hide Passes;
    if rs != [] {
      assert Takes(f, rs[0]) <==> Takes(g, rs[0]);
      FilteredSame(f, g, rs[1..]);
    }
  }

  lemma PathStays(a: Db, b: Db, branch: Id)
    requires DbInv(a) && DbInv(b) && Grows(a, b) && branch in a.branches.byId
    ensures branch in b.branches.byId && Ancestry(a.branches.byId, branch).Ok? && Ancestry(b.branches.byId, branch).Ok?
    ensures SamePath(Ancestry(a.branches.byId, branch).value, Ancestry(b.branches.byId, branch).value)
    ensures WellForked(Ancestry(a.branches.byId, branch).value)
  {
    hide AllPlaced, CatalogIndexes, OnBranches, ForksAtBoundaries, IsBoundary, CatalogGrows, Flat, BranchCatalogs.ValidBranches, SharePrefix, DistinctIds, Parted, SameBranch;
    BranchCatalogs.PathsAreTrees(a.branches.byId, branch, branch);
    LineageStays(a.branches.byId, b.branches.byId, Some(branch), 0);
  }

  lemma HeadGrows(a: Db, b: Db)
    requires Grows(a, b)
    ensures Head(a) <= Head(b) && Flat(b.batches)[..Head(a)] == Flat(a.batches)
  {
    hide CatalogGrows, SameBranch;
    StartsAscend(b.batches, |a.batches|, |b.batches|);
    WholeFlat(b.batches);
  }

  /** A known branch has a path and a plan for every window and choice. */
  lemma KnownPlan(db: Db, branch: Id, from: nat, until: nat, choice: Choice)
    requires DbInv(db) && branch in db.branches.byId && choice.selector.Valid()
    ensures Ancestry(db.branches.byId, branch).Ok? && PlanFilter(db.branches.byId, branch, from, until, choice).Ok?
    ensures var f := PlanFilter(db.branches.byId, branch, from, until, choice).value;
      f.selector.Valid() && Replayed(db, branch, from, until, choice) == Ok(Filtered(f, Flat(db.batches)))
  {
    hide AllPlaced, CatalogIndexes, OnBranches, ForksAtBoundaries, IsBoundary, Flat, Filtered, Ancestry, ScopesOf, BranchCatalogs.ValidBranches;
    BranchCatalogs.KnownHasAncestry(db.branches.byId, branch);
  }

  /** HISTORY STAYS: below an old head, every later replay of a branch is the old one. */
  lemma HistoryStays(a: Db, b: Db, branch: Id, from: nat, until: nat, choice: Choice)
    requires DbInv(a) && DbInv(b) && Grows(a, b) && branch in a.branches.byId && choice.selector.Valid() && until <= Head(a)
    ensures Replayed(a, branch, from, until, choice).Ok? && Replayed(b, branch, from, until, choice) == Replayed(a, branch, from, until, choice)
  {
    hide DbInv, Flat, Filtered, Visible, Ancestry, WellForked, SamePath, Takes, Chosen, PlanFilter, CatalogGrows, Replayed;
    PathStays(a, b, branch);
    KnownPlan(a, branch, from, until, choice);
    KnownPlan(b, branch, from, until, choice);
    HeadGrows(a, b);
    FlatIsDense(a);
    FlatIsDense(b);
    var early, later := Flat(a.batches), Flat(b.batches);
    var f := PlanFilter(a.branches.byId, branch, from, until, choice).value;
    var g := PlanFilter(b.branches.byId, branch, from, until, choice).value;
    var p, q := Ancestry(a.branches.byId, branch).value, Ancestry(b.branches.byId, branch).value;
    var tail := later[|early|..];
    assert later == early + tail;
    FilteredConcat(g, early, tail);
    forall i | 0 <= i < |early| ensures Takes(f, early[i]) <==> Takes(g, early[i]) {
      TakesIsVisible(a.branches.byId, branch, p, from, until, choice, early[i]);
      TakesIsVisible(b.branches.byId, branch, q, from, until, choice, early[i]);
      if early[i].position < until {
        VisibleStays(p, q, until, until, early[i].envelope.branchId, early[i].position);
      }
    }
    FilteredSame(f, g, early);
    forall i | 0 <= i < |tail| ensures !Takes(g, tail[i]) {
      assert tail[i] == later[|early| + i];
      TakesIsVisible(b.branches.byId, branch, q, from, until, choice, tail[i]);
    }
    NoneTaken(g, tail);
    assert Filtered(g, early) + [] == Filtered(g, early);
  }

  lemma {:induction false} NoneTaken(f: Filter, rs: seq<Record>)
    requires f.selector.Valid() && forall i :: 0 <= i < |rs| ==> !Takes(f, rs[i])
    ensures Filtered(f, rs) == []
    decreases |rs|
  {
    hide Passes;
    if rs != [] {
      assert !Takes(f, rs[0]);
      NoneTaken(f, rs[1..]);
    }
  }

  // ── a fork is its parent's history, then its own ───────────────────────

  /** The replay of a branch's own records from its fork on. */
  function OwnPlan(branch: Id, at: nat, until: nat, choice: Choice): Filter {
    Filter(at, until, choice.selector, Some([(branch, until)]), choice.time, UserEvents, None, false)
  }

  lemma TakesOwn(branch: Id, at: nat, until: nat, choice: Choice, r: Record)
    requires choice.selector.Valid() && r.kind == Event
    ensures OwnPlan(branch, at, until, choice).selector.Valid()
    ensures Takes(OwnPlan(branch, at, until, choice), r) <==> at <= r.position < until && Chosen(choice, r) && r.envelope.branchId == branch
  {
    hide StreamSelector.Matches;
    var scopes := [(branch, until)];
    assert scopes[0] == (branch, until);
  }

  /** Below the fork a path shows what its parent's path shows, from the fork on only the
      branch's own records. */
  lemma AcrossTheFork(older: seq<BranchInfo>, info: BranchInfo, upto: nat, branch: Id, position: nat)
    requires older != [] && info.forkPosition.Some?
    requires WellForked(older + [info]) && RespectsForks(older + [info], branch, position)
    ensures position < Min(info.forkPosition.value, upto) ==>
      (Visible(older + [info], upto, branch, position) <==> Visible(older, Min(info.forkPosition.value, upto), branch, position))
    ensures position >= info.forkPosition.value ==>
      (Visible(older + [info], upto, branch, position) <==> branch == info.id && position < upto)
  {
    hide WellForked, RespectsForks, UpperAt;
    var path, k, at := older + [info], |older|, info.forkPosition.value;
    assert path[..k] == older && path[k] == info;
    SideMinOfLast(path, upto);
    if position < Min(at, upto) {
      BelowDivergence(path, upto, k, Min(at, upto), branch, position);
    }
    forall i | 0 <= i < |path| ensures i < k ==> UpperAt(path, i, upto) <= at {
      UpperIsSideMin(path, i, upto);
      SideMinBelow(path, i + 1, upto);
    }
    UpperOfLast(path, upto);
  }

  lemma SideMinOfLast(path: seq<BranchInfo>, upto: nat)
    requires path != []
    ensures SideMin(path, |path| - 1, upto) == Min(ForkOr(path[|path| - 1], upto), upto)
  {
    assert SideMin(path, |path|, upto) == upto;
  }

  lemma UpperOfLast(path: seq<BranchInfo>, upto: nat)
    requires path != []
    ensures UpperAt(path, |path| - 1, upto) == upto
  {
  }

  /** The fork's path is its parent's and itself. */
  lemma ForkPath(db: Db, id: Id, until: nat, choice: Choice)
    requires DbInv(db) && id in db.branches.byId && db.branches.byId[id].parent.Some? && choice.selector.Valid()
    ensures var info := db.branches.byId[id];
      && info.id == id && info.forkPosition.Some? && info.parent.value in db.branches.byId
      && Ancestry(db.branches.byId, id).Ok? && Ancestry(db.branches.byId, info.parent.value).Ok?
      && Ancestry(db.branches.byId, info.parent.value).value != []
      && Ancestry(db.branches.byId, id).value == Ancestry(db.branches.byId, info.parent.value).value + [info]
      && WellForked(Ancestry(db.branches.byId, id).value)
  {
    hide AllPlaced, CatalogIndexes, OnBranches, ForksAtBoundaries, IsBoundary, Flat, Ancestry, Lineage;
    var m := db.branches.byId;
    BranchCatalogs.AncestryIsPath(m, id);
    BranchCatalogs.ParentKnown(m, id);
    BranchCatalogs.AncestryIsPath(m, m[id].parent.value);
    BranchCatalogs.PathIsWellForked(m, Ancestry(m, id).value, id);
  }

  /** INHERITANCE: up to its fork position a branch replays what its parent replays, for
      every window and choice. */
  lemma ForkReplaysParent(db: Db, id: Id, from: nat, until: nat, choice: Choice)
    requires DbInv(db) && id in db.branches.byId && db.branches.byId[id].parent.Some? && choice.selector.Valid()
    requires db.branches.byId[id].forkPosition.Some? && until <= db.branches.byId[id].forkPosition.value
    ensures Replayed(db, id, from, until, choice).Ok?
    ensures Replayed(db, id, from, until, choice) == Replayed(db, db.branches.byId[id].parent.value, from, until, choice)
  {
    hide DbInv, Flat, Filtered, Visible, Ancestry, WellForked, RespectsForks, Takes, Chosen, PlanFilter, Replayed;
    ForkPath(db, id, until, choice);
    var m, info, rs := db.branches.byId, db.branches.byId[id], Flat(db.batches);
    KnownPlan(db, id, from, until, choice);
    KnownPlan(db, info.parent.value, from, until, choice);
    FlatIsDense(db);
    var whole, older := Ancestry(m, id).value, Ancestry(m, info.parent.value).value;
    var f, g := PlanFilter(m, id, from, until, choice).value, PlanFilter(m, info.parent.value, from, until, choice).value;
    forall p | 0 <= p < |rs| ensures Takes(f, rs[p]) <==> Takes(g, rs[p]) {
      TakesIsVisible(m, id, whole, from, until, choice, rs[p]);
      TakesIsVisible(m, info.parent.value, older, from, until, choice, rs[p]);
      RecordsRespectForks(db, id, p);
      AcrossTheFork(older, info, until, rs[p].envelope.branchId, p);
    }
    FilteredSame(f, g, rs);
  }

  /** PARENT, THEN OWN: read past its fork, a branch shows its parent's timeline up to the
      fork and behind it its own records, none of any ancestor's. */
  lemma ForkIsParentThenOwn(db: Db, id: Id, until: nat, choice: Choice)
    requires DbInv(db) && id in db.branches.byId && db.branches.byId[id].parent.Some? && choice.selector.Valid()
    requires db.branches.byId[id].forkPosition.Some? && until >= db.branches.byId[id].forkPosition.value
    ensures var info := db.branches.byId[id];
      var inherited := Replayed(db, info.parent.value, 0, info.forkPosition.value, choice);
      var own := OwnPlan(id, info.forkPosition.value, until, choice);
      && inherited.Ok? && own.selector.Valid()
      && Replayed(db, id, 0, until, choice) == Ok(inherited.value + Filtered(own, Flat(db.batches)))
  {
    hide DbInv, Flat, Filtered, Visible, Ancestry, WellForked, RespectsForks, Takes, Chosen, PlanFilter, Replayed, OwnPlan;
    ForkPath(db, id, until, choice);
    var m, info, rs := db.branches.byId, db.branches.byId[id], Flat(db.batches);
    var at := info.forkPosition.value;
    KnownPlan(db, id, 0, until, choice);
    KnownPlan(db, info.parent.value, 0, at, choice);
    FlatIsDense(db);
    var whole, older := Ancestry(m, id).value, Ancestry(m, info.parent.value).value;
    var f, low, high := PlanFilter(m, id, 0, until, choice).value, PlanFilter(m, info.parent.value, 0, at, choice).value, OwnPlan(id, at, until, choice);
    OwnIsValid(id, at, until, choice);
    forall p | 0 <= p < |rs|
      ensures if rs[p].position < at then (Takes(f, rs[p]) <==> Takes(low, rs[p])) && !Takes(high, rs[p])
              else (Takes(f, rs[p]) <==> Takes(high, rs[p])) && !Takes(low, rs[p])
    {
      TakesIsVisible(m, id, whole, 0, until, choice, rs[p]);
      TakesIsVisible(m, info.parent.value, older, 0, at, choice, rs[p]);
      TakesOwn(id, at, until, choice, rs[p]);
      RecordsRespectForks(db, id, p);
      AcrossTheFork(older, info, until, rs[p].envelope.branchId, p);
    }
    FilteredSplits(f, low, high, at, rs, 0);
  }

  lemma OwnIsValid(branch: Id, at: nat, until: nat, choice: Choice)
    requires choice.selector.Valid()
    ensures OwnPlan(branch, at, until, choice).selector.Valid()
  {
  }

  // ── what an accepted fork answers and inherits ─────────────────────────

  /** The branch of an accepted fork: new, active, forked from the parent at the position. */
  lemma ForkAnswers(db: Db, f: ForkRequest)
    requires DbInv(db) && AfterFork(db, f, None).0.Ok?
    ensures var (answer, next) := AfterFork(db, f, None);
      && answer.value.parent == Some(f.parent) && answer.value.forkPosition == Some(f.at) && answer.value.status == Active
      && answer.value.id == f.id && answer.value.name == f.name && answer.value.createdAt == f.createdAt && answer.value.metadata == f.metadata
      && f.id !in db.branches.byId && f.parent in db.branches.byId && f.at <= Head(db)
      && next.branches.byId == db.branches.byId[f.id := answer.value] && next.batches == db.batches && next.durable == Head(db)
      && f.name !in db.branches.byName && next.branches.byName == db.branches.byName[f.name := f.id]
  {
    hide DbInv, BoundaryAccepted, Flat, BranchCatalogs.DepthVerdict;
  }

  /** FORKS INHERIT HISTORY: right after an accepted fork and in every later state, the new
      branch replays up to its fork position exactly what its parent replayed when it was
      forked, and from there on only its own records. */
  lemma ForkInherits(db: Db, f: ForkRequest, later: Db, until: nat, choice: Choice)
    requires DbInv(db) && AfterFork(db, f, None).0.Ok? && choice.selector.Valid()
    requires Grows(AfterFork(db, f, None).1, later) && DbInv(later)
    ensures Replayed(db, f.parent, 0, Min(until, f.at), choice).Ok?
    ensures until <= f.at ==> Replayed(later, f.id, 0, until, choice) == Replayed(db, f.parent, 0, until, choice)
                              == Replayed(later, f.parent, 0, until, choice)
    ensures until >= f.at ==>
      && OwnPlan(f.id, f.at, until, choice).selector.Valid()
      && Replayed(later, f.id, 0, until, choice)
         == Ok(Replayed(db, f.parent, 0, f.at, choice).value + Filtered(OwnPlan(f.id, f.at, until, choice), Flat(later.batches)))
  {
    hide DbInv, Flat, Filtered, Replayed, AfterFork, OwnPlan, CatalogGrows;
    ForkAnswers(db, f);
    var next := AfterFork(db, f, None).1;
    ForkKeeps(db, f, None);
    SameHistory(db, f, Min(until, f.at), choice);
    HistoryStays(next, later, f.parent, 0, Min(until, f.at), choice);
    OwnIsValid(f.id, f.at, until, choice);
    if until <= f.at {
      ForkReplaysParent(later, f.id, 0, until, choice);
    }
    if until >= f.at {
      ForkIsParentThenOwn(later, f.id, until, choice);
    }
  }

  /** The fork itself changes no replay of its parent. */
  lemma SameHistory(db: Db, f: ForkRequest, until: nat, choice: Choice)
    requires DbInv(db) && AfterFork(db, f, None).0.Ok? && choice.selector.Valid() && until <= Head(db)
    ensures DbInv(AfterFork(db, f, None).1) && f.parent in AfterFork(db, f, None).1.branches.byId
    ensures Replayed(db, f.parent, 0, until, choice).Ok?
    ensures Replayed(AfterFork(db, f, None).1, f.parent, 0, until, choice) == Replayed(db, f.parent, 0, until, choice)
  {
    hide DbInv, Flat, Filtered, Replayed, AfterFork, BoundaryAccepted, CatalogGrows;
    ForkAnswers(db, f);
    var op := Op.Fork(f, None);
    StepKeeps(db, op);
    HistoryStays(db, AfterFork(db, f, None).1, f.parent, 0, until, choice);
  }

  /** A fork read to the head it was made at shows its parent's records below the fork. */
  lemma FreshForkShowsParent(db: Db, f: ForkRequest, choice: Choice)
    requires DbInv(db) && AfterFork(db, f, None).0.Ok? && choice.selector.Valid()
    ensures f.at <= Head(db) && Head(AfterFork(db, f, None).1) == Head(db)
    ensures Replayed(db, f.parent, 0, f.at, choice).Ok?
    ensures Replayed(AfterFork(db, f, None).1, f.id, 0, Head(db), choice) == Replayed(db, f.parent, 0, f.at, choice)
  {
    hide DbInv, Flat, Filtered, Replayed, AfterFork, OwnPlan, CatalogGrows, Takes;
    ForkAnswers(db, f);
    var next := AfterFork(db, f, None).1;
    ForkKeeps(db, f, None);
    NothingGrows(next);
    ForkInherits(db, f, next, Head(db), choice);
    FlatIsDense(db);
    var own, rs := OwnPlan(f.id, f.at, Head(db), choice), Flat(db.batches);
    forall p | 0 <= p < |rs| ensures !Takes(own, rs[p]) {
      TakesOwn(f.id, f.at, Head(db), choice, rs[p]);
      RecordOnBranch(db, p);
    }
    NoneTaken(own, rs);
    var inherited := Replayed(db, f.parent, 0, f.at, choice).value;
    assert inherited + [] == inherited;
  }

  lemma RecordOnBranch(db: Db, p: nat)
    requires DbInv(db) && p < Head(db)
    ensures Flat(db.batches)[p].envelope.branchId in db.branches.byId
  {
    hide CatalogIndexes, ForksAtBoundaries, IsBoundary, Flat, Placed, BranchCatalogs.ValidBranches, StreamNameOf, NameIn;
    var k := Locate(db.batches, p);
    SameBatchInside(db.batches, k, p - Start(db.batches, k));
  }

  // ── archiving freezes ──────────────────────────────────────────────────

  predicate IsArchived(db: Db, id: Id) {
    id in db.branches.byId && db.branches.byId[id].status == Archived
  }

  /** No record at or above a position lies on the branch. */
  ghost predicate NoneSince(rs: seq<Record>, at: nat, id: Id) {
    forall p :: at <= p < |rs| ==> rs[p].envelope.branchId != id
  }

  /** An accepted archive marks the branch and touches nothing else, and is accepted for every
      branch but the default one. */
  lemma ArchiveAnswers(db: Db, id: Id)
    requires DbInv(db)
    ensures AfterArchive(db, id, None).0.Ok? <==> id in db.branches.byId && id != ZERO_ID
    ensures AfterArchive(db, id, None).0.Ok? ==>
      var (answer, next) := AfterArchive(db, id, None);
      && IsArchived(next, id) && next.branches.byId[id] == answer.value && SameBranch(db.branches.byId[id], answer.value)
      && next.branches.byId - {id} == db.branches.byId - {id} && next.branches.byName == db.branches.byName
      && next.batches == db.batches && next.catalog == db.catalog
  {
    hide DbInv, Flat, BranchCatalogs.ValidBranches;
    InvHasBranches(db);
    KeyedById(db.branches.byId, id);
  }

  lemma KeyedById(m: BranchMap, id: Id)
    requires BranchCatalogs.ValidBranches(m)
    ensures id in m ==> m[id].id == id
  {
    hide Lineage;
  }

  lemma ArchivedStep(db: Db, op: Op, id: Id)
    requires DbInv(db) && Enabled(db, op) && IsArchived(db, id)
    ensures DbInv(Apply(db, op)) && IsArchived(Apply(db, op), id)
    ensures Head(db) <= Head(Apply(db, op)) && NoneSince(Flat(Apply(db, op).batches), Head(db), id)
  {
    hide DbInv, Flat, CatalogGrows, AfterAppend, BoundaryAccepted, BranchCatalogs.WithBranch, BranchCatalogs.WithArchived;
    StepKeeps(db, op);
    HeadGrows(db, Apply(db, op));
    if op.Append? {
      AppendsElsewhere(db, op.req, op.supplied, op.amb, op.refused, id);
    }
  }

  lemma AppendsElsewhere(db: Db, req: Request, supplied: Option<Id>, amb: Ambient, refused: Option<Error>, id: Id)
    requires IsArchived(db, id) && Fits(db.catalog, Head(db), req, amb)
    ensures NoneSince(Flat(AfterAppend(db, req, supplied, amb, refused).1.batches), Head(db), id)
  {
    hide Flat, NewBatch, Recorded, NewReceipt, Conflicting, AnySeen, KnownVerdict, Fits;
    if Judge(db, req, supplied, amb).Write? && refused.None? {
      var batch := NewBatch(db.catalog, Head(db), req, supplied, amb);
      FlatSnoc(db.batches, batch);
      forall i | 0 <= i < |batch| ensures batch[i].envelope.branchId != id {
        NewRecordAt(db.catalog, Head(db), req, supplied, amb, i);
      }
    }
  }

  /** ARCHIVED IS FROZEN: no run ever adds a record to an archived branch or revives it. */
  lemma {:induction false} ArchivedIsFrozen(db: Db, ops: seq<Op>, id: Id)
    requires DbInv(db) && RunFrom(db, ops) && IsArchived(db, id)
    ensures DbInv(After(db, ops)) && Grows(db, After(db, ops)) && IsArchived(After(db, ops), id)
    ensures Head(db) <= Head(After(db, ops)) && NoneSince(Flat(After(db, ops).batches), Head(db), id)
    decreases |ops|
  {
    hide DbInv, Flat, Grows, Apply, Enabled, RunFrom, After, IsArchived;
    if ops == [] {
      NoOps(db);
      NothingGrows(db);
    } else {
      FirstOp(db, ops);
      var next := Apply(db, ops[0]);
      ArchivedStep(db, ops[0], id);
      StepKeeps(db, ops[0]);
      ArchivedIsFrozen(next, ops[1..], id);
      GrowsFurther(db, next, After(db, ops));
      HeadGrows(next, After(db, ops));
      forall p | Head(db) <= p < Head(After(db, ops)) ensures Flat(After(db, ops).batches)[p].envelope.branchId != id {
        if p < Head(next) {
          assert Flat(After(db, ops).batches)[p] == Flat(next.batches)[p];
        }
      }
    }
  }

  /** FROZEN TIMELINES: every replay of an archived fork, however far it reaches, answers the
      same after any run. */
  lemma ArchivedTimelineStays(db: Db, ops: seq<Op>, id: Id, from: nat, until: nat, choice: Choice)
    requires DbInv(db) && RunFrom(db, ops) && IsArchived(db, id) && db.branches.byId[id].parent.Some? && choice.selector.Valid()
    ensures Replayed(db, id, from, until, choice).Ok?
    ensures Replayed(After(db, ops), id, from, until, choice) == Replayed(db, id, from, until, choice)
  {
    hide DbInv, Flat, Filtered, Visible, Ancestry, WellForked, RespectsForks, SamePath, Takes, Chosen, PlanFilter, CatalogGrows, Replayed, RunFrom, After;
    var later := After(db, ops);
    ArchivedIsFrozen(db, ops, id);
    PathStays(db, later, id);
    KnownPlan(db, id, from, until, choice);
    KnownPlan(later, id, from, until, choice);
    HeadGrows(db, later);
    FlatIsDense(db);
    FlatIsDense(later);
    var early, rs := Flat(db.batches), Flat(later.batches);
    var f, g := PlanFilter(db.branches.byId, id, from, until, choice).value, PlanFilter(later.branches.byId, id, from, until, choice).value;
    var p, q := Ancestry(db.branches.byId, id).value, Ancestry(later.branches.byId, id).value;
    var tail := rs[|early|..];
    assert rs == early + tail;
    FilteredConcat(g, early, tail);
    forall i | 0 <= i < |early| ensures Takes(f, early[i]) <==> Takes(g, early[i]) {
      TakesIsVisible(db.branches.byId, id, p, from, until, choice, early[i]);
      TakesIsVisible(later.branches.byId, id, q, from, until, choice, early[i]);
      if early[i].position < until {
        VisibleStays(p, q, until, until, early[i].envelope.branchId, early[i].position);
      }
    }
    FilteredSame(f, g, early);
    forall i | 0 <= i < |tail| ensures !Takes(g, tail[i]) {
      assert tail[i] == rs[|early| + i];
      TakesIsVisible(later.branches.byId, id, q, from, until, choice, tail[i]);
      NotVisibleSince(db, later, id, until, |early| + i);
    }
    NoneTaken(g, tail);
    assert Filtered(g, early) + [] == Filtered(g, early);
  }

  lemma NotVisibleSince(db: Db, later: Db, id: Id, until: nat, p: nat)
    requires DbInv(db) && DbInv(later) && Grows(db, later) && id in db.branches.byId && db.branches.byId[id].parent.Some?
    requires Head(db) <= p < Head(later) && Flat(later.batches)[p].envelope.branchId != id
    ensures Ancestry(later.branches.byId, id).Ok?
    ensures !Visible(Ancestry(later.branches.byId, id).value, until, Flat(later.batches)[p].envelope.branchId, p)
  {
    hide AllPlaced, CatalogIndexes, OnBranches, IsBoundary, BranchCatalogs.ValidBranches, Flat, Visible, Ancestry, WellForked, RespectsForks, CatalogGrows;
    var info := later.branches.byId[id];
    assert SameBranch(db.branches.byId[id], info);
    ForkPath(later, id, until, Choice(All, None));
    BoundaryWithin(db.batches, info.forkPosition.value);
    RecordsRespectForks(later, id, p);
    AcrossTheFork(Ancestry(later.branches.byId, info.parent.value).value, info, until, Flat(later.batches)[p].envelope.branchId, p);
  }
}
