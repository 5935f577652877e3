/** Reads of one branch's timeline, and the diff of two: a position and three replay
    plans that never look at a record. */
module Timelines {
  import opened Base
  import opened Format
  import opened ReadPlan
  import opened Branches
  import opened Streams
  import opened AppendMachine
  import opened AppendLaws
  import opened AppendSafety
  import BranchCatalogs

  // ── plans ──────────────────────────────────────────────────────────────

  /** What a replay selects besides its branch and window. */
  datatype Choice = Choice(selector: StreamSelector, time: Option<(int, int)>)

  function PlanFilter(m: BranchMap, branch: Id, from: nat, until: nat, choice: Choice): Result<Filter> {
    var scopes :- ReplayScopes(m, branch, until);
    Ok(Filter(from, until, choice.selector, Some(scopes), choice.time, UserEvents, None, false))
  }

  /** The records a plan replays. */
  function Replayed(db: Db, branch: Id, from: nat, until: nat, choice: Choice): Result<seq<Record>>
    requires choice.selector.Valid()
  {
    var filter :- PlanFilter(db.branches.byId, branch, from, until, choice);
    Ok(Filtered(filter, Flat(db.batches)))
  }

  datatype Diff = Diff(ancestor: BranchInfo, divergence: nat, left: (Id, nat), right: (Id, nat))

  /** The diff of two timelines, from ancestry alone. */
  function DiffOf(db: Db, left: Id, leftUntil: nat, right: Id, rightUntil: nat): Result<Diff>
    requires BranchCatalogs.ValidBranches(db.branches.byId)
  {
    if leftUntil > Head(db) then Err(OffsetBeyondHead(leftUntil))
    else if rightUntil > Head(db) then Err(OffsetBeyondHead(rightUntil))
    else if left !in db.branches.byId || right !in db.branches.byId then Err(BranchNotFound)
    else
      BranchCatalogs.PathsAreTrees(db.branches.byId, left, right);
      var l, r := Ancestry(db.branches.byId, left).value, Ancestry(db.branches.byId, right).value;
      var d := DivergenceOf(l, leftUntil, r, rightUntil);
      Ok(Diff(d.0, d.1, (left, leftUntil), (right, rightUntil)))
  }

  // ── records respect forks ──────────────────────────────────────────────

  /** FORK RULE: no record of a branch lies below the position the branch was forked at. */
  lemma RecordsRespectForks(db: Db, id: Id, p: nat)
    requires DbInv(db) && id in db.branches.byId && Ancestry(db.branches.byId, id).Ok? && p < Head(db)
    ensures RespectsForks(Ancestry(db.branches.byId, id).value, Flat(db.batches)[p].envelope.branchId, p)
  {
    hide CatalogIndexes, ForksAtBoundaries, IsBoundary, Flat, Placed, Ancestry, BranchCatalogs.ValidBranches, StreamNameOf, NameIn;
    BranchCatalogs.AncestryIsPath(db.branches.byId, id);
    var path := Ancestry(db.branches.byId, id).value;
    var k := Locate(db.batches, p);
    SameBatchInside(db.batches, k, p - Start(db.batches, k));
    forall i | 0 <= i < |path| && path[i].id == db.batches[k][0].envelope.branchId && path[i].forkPosition.Some?
      ensures p >= path[i].forkPosition.value
    {
      assert db.branches.byId[path[i].id] == path[i];
    }
  }

  // ── splitting a replay ─────────────────────────────────────────────────

  ghost predicate Dense(rs: seq<Record>, first: nat) {
    forall i :: 0 <= i < |rs| ==> rs[i].position == first + i && rs[i].kind == Event
  }

  predicate Takes(f: Filter, r: Record)
    requires f.selector.Valid()
  {
    Passes(f, r) && r.position < f.until
  }

  /** Below `d` the whole agrees with `low` and `high` takes nothing; from `d` on the other way round. */
  ghost predicate Splits(whole: Filter, low: Filter, high: Filter, d: nat, rs: seq<Record>)
    requires whole.selector.Valid() && low.selector.Valid() && high.selector.Valid()
  {
    forall i :: 0 <= i < |rs| ==>
      if rs[i].position < d then (Takes(whole, rs[i]) <==> Takes(low, rs[i])) && !Takes(high, rs[i])
      else (Takes(whole, rs[i]) <==> Takes(high, rs[i])) && !Takes(low, rs[i])
  }

  lemma {:induction false} FilteredSplits(whole: Filter, low: Filter, high: Filter, d: nat, rs: seq<Record>, first: nat)
    requires whole.selector.Valid() && low.selector.Valid() && high.selector.Valid()
    requires Dense(rs, first) && Splits(whole, low, high, d, rs)
    ensures Filtered(whole, rs) == Filtered(low, rs) + Filtered(high, rs)
    ensures first >= d ==> Filtered(low, rs) == []
    decreases |rs|
  {
    hide Passes;
    if rs != [] {
      assert rs[0].position == first;
      assert Takes(whole, rs[0]) == (Passes(whole, rs[0]) && rs[0].position < whole.until);
      assert Takes(low, rs[0]) == (Passes(low, rs[0]) && rs[0].position < low.until);
      assert Takes(high, rs[0]) == (Passes(high, rs[0]) && rs[0].position < high.until);
      FilteredSplits(whole, low, high, d, rs[1..], first + 1);
    }
  }

  /** A plan takes a record exactly if the window and the choice do and the timeline shows it. */
  lemma TakesIsVisible(m: BranchMap, branch: Id, path: seq<BranchInfo>, from: nat, until: nat, choice: Choice, r: Record)
    requires Ancestry(m, branch) == Ok(path) && choice.selector.Valid() && r.kind == Event
    ensures PlanFilter(m, branch, from, until, choice).Ok?
    ensures Takes(PlanFilter(m, branch, from, until, choice).value, r) <==>
      from <= r.position < until && Chosen(choice, r) && Visible(path, until, r.envelope.branchId, r.position)
  {
    hide InScopes, Visible, ScopesOf, Ancestry, StreamSelector.Matches;
    VisibleIsInScopes(path, until, r.envelope.branchId, r.position);
  }

  predicate Chosen(choice: Choice, r: Record)
    requires choice.selector.Valid()
  {
    choice.selector.Matches(r.envelope.streamId) && (choice.time.None? || choice.time.value.0 <= r.envelope.timestamp < choice.time.value.1)
  }

  lemma FlatIsDense(db: Db)
    requires DbInv(db)
    ensures Dense(Flat(db.batches), 0)
  {
    hide DbInv, Flat, StreamNameOf, CountIn;
    forall p | 0 <= p < Head(db) ensures Flat(db.batches)[p].position == p && Flat(db.batches)[p].kind == Event {
      PositionsAndRevisions(db, p);
    }
  }

  // ── the diff identity ──────────────────────────────────────────────────

  lemma SharedPlanPath(m: BranchMap, left: Id, right: Id)
    requires BranchCatalogs.ValidBranches(m) && left in m && right in m
    ensures Ancestry(m, left).Ok? && Ancestry(m, right).Ok?
    ensures var l, r := Ancestry(m, left).value, Ancestry(m, right).value;
      var k := SharedLength(l, r);
      && 1 <= k && l[..k] == r[..k] && Ancestry(m, l[k - 1].id) == Ok(l[..k])
      && SharePrefix(l, r) && WellForked(l) && WellForked(r)
  {
    hide BranchCatalogs.ValidBranches, Ancestry, SharedLength, WellForked, DistinctIds, Parted;
    BranchCatalogs.PathsAreTrees(m, left, right);
    BranchCatalogs.PrefixIsAncestry(m, left, SharedLength(Ancestry(m, left).value, Ancestry(m, right).value) - 1);
  }

  /** What both sides' timelines show of one record, below and above the divergence. */
  ghost predicate SidesAgree(db: Db, left: Id, leftUntil: nat, right: Id, rightUntil: nat, p: nat)
    requires BranchCatalogs.ValidBranches(db.branches.byId) && DiffOf(db, left, leftUntil, right, rightUntil).Ok? && p < Head(db)
    requires Ancestry(db.branches.byId, left).Ok? && Ancestry(db.branches.byId, right).Ok?
    requires Ancestry(db.branches.byId, DiffOf(db, left, leftUntil, right, rightUntil).value.ancestor.id).Ok?
  {
    var m, diff := db.branches.byId, DiffOf(db, left, leftUntil, right, rightUntil).value;
    var branch := Flat(db.batches)[p].envelope.branchId;
    p < diff.divergence ==>
      && (Visible(Ancestry(m, left).value, leftUntil, branch, p) <==> Visible(Ancestry(m, diff.ancestor.id).value, diff.divergence, branch, p))
      && (Visible(Ancestry(m, right).value, rightUntil, branch, p) <==> Visible(Ancestry(m, diff.ancestor.id).value, diff.divergence, branch, p))
  }

  lemma BelowTheDivergence(db: Db, left: Id, leftUntil: nat, right: Id, rightUntil: nat, p: nat)
    requires DbInv(db) && DiffOf(db, left, leftUntil, right, rightUntil).Ok? && p < Head(db)
    ensures Ancestry(db.branches.byId, left).Ok? && Ancestry(db.branches.byId, right).Ok?
    ensures Ancestry(db.branches.byId, DiffOf(db, left, leftUntil, right, rightUntil).value.ancestor.id).Ok?
    ensures DiffOf(db, left, leftUntil, right, rightUntil).value.divergence <= leftUntil <= Head(db)
    ensures DiffOf(db, left, leftUntil, right, rightUntil).value.divergence <= rightUntil <= Head(db)
    ensures SidesAgree(db, left, leftUntil, right, rightUntil, p)
  {
    hide AllPlaced, CatalogIndexes, OnBranches, ForksAtBoundaries, IsBoundary, Flat, Visible, RespectsForks, WellForked,
         BranchCatalogs.ValidBranches, Ancestry, SharedLength;
    var m := db.branches.byId;
    SharedPlanPath(m, left, right);
    var l, r := Ancestry(m, left).value, Ancestry(m, right).value;
    SideMinBelow(l, SharedLength(l, r), leftUntil);
    SideMinBelow(r, SharedLength(l, r), rightUntil);
    if p < DivergenceOf(l, leftUntil, r, rightUntil).1 {
      RecordsRespectForks(db, left, p);
      RecordsRespectForks(db, right, p);
      TimelinesAgreeBelowDivergence(l, leftUntil, r, rightUntil, Flat(db.batches)[p].envelope.branchId, p);
    }
  }

  /** DIFF IDENTITY: each side's full replay is the shared replay followed by its own
      suffix, in every reachable state, for every selector and time range. */
  lemma ReplayIsSharedThenSuffix(db: Db, left: Id, leftUntil: nat, right: Id, rightUntil: nat, choice: Choice)
    requires DbInv(db) && choice.selector.Valid() && DiffOf(db, left, leftUntil, right, rightUntil).Ok?
    ensures var diff := DiffOf(db, left, leftUntil, right, rightUntil).value;
      var shared := Replayed(db, diff.ancestor.id, 0, diff.divergence, choice);
      var leftSuffix := Replayed(db, left, diff.divergence, leftUntil, choice);
      var rightSuffix := Replayed(db, right, diff.divergence, rightUntil, choice);
      && shared.Ok? && leftSuffix.Ok? && rightSuffix.Ok?
      && Replayed(db, left, 0, leftUntil, choice) == Ok(shared.value + leftSuffix.value)
      && Replayed(db, right, 0, rightUntil, choice) == Ok(shared.value + rightSuffix.value)
  {
    hide DbInv, Flat, Visible, Ancestry, PlanFilter, Filtered, Dense, Splits, DiffOf, DivergenceOf;
    InvHasBranches(db);
    DiffHasPaths(db, left, leftUntil, right, rightUntil);
    var m, diff := db.branches.byId, DiffOf(db, left, leftUntil, right, rightUntil).value;
    SideSplits(db, left, leftUntil, right, rightUntil, choice);
    FlatIsDense(db);
    var low := PlanFilter(m, diff.ancestor.id, 0, diff.divergence, choice).value;
    FilteredSplits(PlanFilter(m, left, 0, leftUntil, choice).value, low, PlanFilter(m, left, diff.divergence, leftUntil, choice).value,
                   diff.divergence, Flat(db.batches), 0);
    FilteredSplits(PlanFilter(m, right, 0, rightUntil, choice).value, low, PlanFilter(m, right, diff.divergence, rightUntil, choice).value,
                   diff.divergence, Flat(db.batches), 0);
  }

  lemma InvHasBranches(db: Db)
    requires DbInv(db)
    ensures BranchCatalogs.ValidBranches(db.branches.byId)
  {
  }

  lemma DiffHasPaths(db: Db, left: Id, leftUntil: nat, right: Id, rightUntil: nat)
    requires BranchCatalogs.ValidBranches(db.branches.byId) && DiffOf(db, left, leftUntil, right, rightUntil).Ok?
    ensures var m, diff := db.branches.byId, DiffOf(db, left, leftUntil, right, rightUntil).value;
      && left in m && right in m
      && Ancestry(m, left).Ok? && Ancestry(m, right).Ok? && Ancestry(m, diff.ancestor.id).Ok?
      && diff.divergence <= leftUntil && diff.divergence <= rightUntil
  {
    hide BranchCatalogs.ValidBranches, Ancestry, SharedLength, Flat;
    var m := db.branches.byId;
    SharedPlanPath(m, left, right);
    var l, r := Ancestry(m, left).value, Ancestry(m, right).value;
    SideMinBelow(l, SharedLength(l, r), leftUntil);
    SideMinBelow(r, SharedLength(l, r), rightUntil);
  }

  lemma SideSplits(db: Db, left: Id, leftUntil: nat, right: Id, rightUntil: nat, choice: Choice)
    requires DbInv(db) && choice.selector.Valid() && DiffOf(db, left, leftUntil, right, rightUntil).Ok?
    ensures var m, diff := db.branches.byId, DiffOf(db, left, leftUntil, right, rightUntil).value;
      var low := PlanFilter(m, diff.ancestor.id, 0, diff.divergence, choice);
      var leftAll, leftHigh := PlanFilter(m, left, 0, leftUntil, choice), PlanFilter(m, left, diff.divergence, leftUntil, choice);
      var rightAll, rightHigh := PlanFilter(m, right, 0, rightUntil, choice), PlanFilter(m, right, diff.divergence, rightUntil, choice);
      && low.Ok? && leftAll.Ok? && leftHigh.Ok? && rightAll.Ok? && rightHigh.Ok?
      && low.value.selector.Valid() && leftAll.value.selector.Valid() && leftHigh.value.selector.Valid()
      && rightAll.value.selector.Valid() && rightHigh.value.selector.Valid()
      && Splits(leftAll.value, low.value, leftHigh.value, diff.divergence, Flat(db.batches))
      && Splits(rightAll.value, low.value, rightHigh.value, diff.divergence, Flat(db.batches))
  {
    hide DbInv, Flat, Visible, Ancestry, DiffOf, Takes, Chosen, ScopesOf;
    InvHasBranches(db);
    DiffHasPaths(db, left, leftUntil, right, rightUntil);
    var m, diff := db.branches.byId, DiffOf(db, left, leftUntil, right, rightUntil).value;
    var low := PlanFilter(m, diff.ancestor.id, 0, diff.divergence, choice).value;
    var leftAll, leftHigh := PlanFilter(m, left, 0, leftUntil, choice).value, PlanFilter(m, left, diff.divergence, leftUntil, choice).value;
    var rightAll, rightHigh := PlanFilter(m, right, 0, rightUntil, choice).value, PlanFilter(m, right, diff.divergence, rightUntil, choice).value;
    FlatIsDense(db);
    var rs := Flat(db.batches);
    forall p | 0 <= p < |rs|
      ensures if p < diff.divergence
              then (Takes(leftAll, rs[p]) <==> Takes(low, rs[p])) && (Takes(rightAll, rs[p]) <==> Takes(low, rs[p]))
                   && !Takes(leftHigh, rs[p]) && !Takes(rightHigh, rs[p])
              else (Takes(leftAll, rs[p]) <==> Takes(leftHigh, rs[p])) && (Takes(rightAll, rs[p]) <==> Takes(rightHigh, rs[p]))
                   && !Takes(low, rs[p])
    {
      BelowTheDivergence(db, left, leftUntil, right, rightUntil, p);
      TakesIsVisible(m, diff.ancestor.id, Ancestry(m, diff.ancestor.id).value, 0, diff.divergence, choice, rs[p]);
      TakesIsVisible(m, left, Ancestry(m, left).value, 0, leftUntil, choice, rs[p]);
      TakesIsVisible(m, left, Ancestry(m, left).value, diff.divergence, leftUntil, choice, rs[p]);
      TakesIsVisible(m, right, Ancestry(m, right).value, 0, rightUntil, choice, rs[p]);
      TakesIsVisible(m, right, Ancestry(m, right).value, diff.divergence, rightUntil, choice, rs[p]);
    }
  }

  /** MAXIMALITY: below both ends no larger shared bound is sound, in any well-formed
      catalog: some branch may hold a record at the divergence that one side alone sees. */
  lemma NoLargerBoundIsSound(db: Db, left: Id, leftUntil: nat, right: Id, rightUntil: nat) returns (branch: Id)
    requires BranchCatalogs.ValidBranches(db.branches.byId) && DiffOf(db, left, leftUntil, right, rightUntil).Ok?
    requires DiffOf(db, left, leftUntil, right, rightUntil).value.divergence < Min(leftUntil, rightUntil)
    ensures Ancestry(db.branches.byId, left).Ok? && Ancestry(db.branches.byId, right).Ok?
    ensures var l, r := Ancestry(db.branches.byId, left).value, Ancestry(db.branches.byId, right).value;
      var d := DiffOf(db, left, leftUntil, right, rightUntil).value.divergence;
      && RespectsForks(l, branch, d) && RespectsForks(r, branch, d)
      && (Visible(l, leftUntil, branch, d) <==> !Visible(r, rightUntil, branch, d))
  {
    hide BranchCatalogs.ValidBranches, Ancestry, SharedLength, WellForked, DistinctIds, Parted, Visible, RespectsForks, Flat;
    BranchCatalogs.PathsAreTrees(db.branches.byId, left, right);
    branch := DivergenceIsMaximal(Ancestry(db.branches.byId, left).value, leftUntil, Ancestry(db.branches.byId, right).value, rightUntil);
  }

  // ── branch views never split a batch ───────────────────────────────────

  lemma {:induction false} UpperIsBoundary(batches: Batches, path: seq<BranchInfo>, i: nat, upto: nat)
    requires i < |path| && IsBoundary(batches, upto)
    requires forall j :: 0 <= j < |path| && path[j].forkPosition.Some? ==> IsBoundary(batches, path[j].forkPosition.value)
    ensures IsBoundary(batches, UpperAt(path, i, upto))
    decreases |path| - i
  {
    hide IsBoundary;
    if i + 1 < |path| {
      UpperIsBoundary(batches, path, i + 1, upto);
    }
  }

  lemma BoundaryKeepsWhole(batches: Batches, k: nat, i: nat, at: nat)
    requires k < |batches| && i < |batches[k]| && IsBoundary(batches, at)
    ensures Start(batches, k) + i < at <==> Start(batches, k) < at
  {
    hide IsBoundary;
    if Start(batches, k) < at <= Start(batches, k) + i {
      InsideIsNoBoundary(batches, at, k);
    }
  }

  /** WHOLE BATCHES: a timeline read up to a batch boundary shows all records of a batch or none. */
  lemma BranchViewsKeepBatchesWhole(db: Db, id: Id, upto: nat, k: nat, i: nat)
    requires DbInv(db) && id in db.branches.byId && IsBoundary(db.batches, upto)
    requires k < |db.batches| && i < |db.batches[k]|
    ensures Ancestry(db.branches.byId, id).Ok?
    ensures var path, r, first := Ancestry(db.branches.byId, id).value, db.batches[k][i], db.batches[k][0];
      Visible(path, upto, r.envelope.branchId, r.position) <==> Visible(path, upto, first.envelope.branchId, first.position)
  {
    hide CatalogIndexes, OnBranches, IsBoundary, Flat, Placed, Ancestry, BranchCatalogs.ValidBranches, StreamNameOf, NameIn, UpperAt;
    var m := db.branches.byId;
    BranchCatalogs.AncestryIsPath(m, id);
    var path := Ancestry(m, id).value;
    SameBatchInside(db.batches, k, i);
    SameBatchInside(db.batches, k, 0);
    forall j | 0 <= j < |path| && path[j].forkPosition.Some? ensures IsBoundary(db.batches, path[j].forkPosition.value) {
      assert m[path[j].id] == path[j];
    }
    forall j | 0 <= j < |path|
      ensures db.batches[k][i].position < UpperAt(path, j, upto) <==> db.batches[k][0].position < UpperAt(path, j, upto)
    {
      UpperIsBoundary(db.batches, path, j, upto);
      BoundaryKeepsWhole(db.batches, k, i, UpperAt(path, j, upto));
    }
  }
}
