/** The partitioned key index as an object, healed through the database's own reader. */
module Projection {
  import opened Base
  import opened Format
  import opened RecordWalk
  import opened RecordWalkLaws
  import opened ReadPlan
  import opened Branches
  import opened AppendLaws
  import opened AppendSafety
  import opened Timelines
  import opened Forks
  import BranchCatalogs
  import M = AppendMachine
  import LogReading
  import Sidecar
  import opened ReadEvidence
  import opened StreamingReader
  import opened Database
  import Rebuild
  import opened Paging
  import H = Healing

  // ── what one heal does ─────────────────────────────────────────────────

  /** The branch's timeline up to the head. */
  function Timeline(db: M.Db, branch: Id): seq<Record>
    requires Replayed(db, branch, 0, M.Head(db), WHOLE).Ok?
  {
    Replayed(db, branch, 0, M.Head(db), WHOLE).value
  }

  function PartitionChoice(count: nat, p: nat): Choice {
    Choice(PartitionClass(count, p), None)
  }

  /** One partition of a query: adopt a snapshot when cold, then read on to the head. */
  function HealedOne(db: M.Db, branch: Id, reading: H.Reader, q: H.Query, p: nat, candidates: map<nat, H.Snapshot>): (r: H.Query)
    requires p < |q.partitions|
    ensures |r.partitions| == |q.partitions|
  {
    var warm := if p in candidates then H.Restored(q, p, candidates[p]) else q;
    var start, count := warm.partitions[p].at, |q.partitions|;
    if H.Serving(warm.partitions[p]) && start < M.Head(db) && branch !in db.branches.byId
    then warm.(partitions := warm.partitions[p := H.Failed(start)])
    else
      H.Healed(reading, warm, p, M.Head(db),
               match Replayed(db, branch, start, M.Head(db), PartitionChoice(count, p))
               case Ok(records) => records
               case Err(_) => [])
  }

  function HealedEach(db: M.Db, branch: Id, reading: H.Reader, q: H.Query, partitions: seq<nat>, candidates: map<nat, H.Snapshot>): (r: H.Query)
    requires forall i :: 0 <= i < |partitions| ==> partitions[i] < |q.partitions|
    ensures |r.partitions| == |q.partitions|
    decreases |partitions|
  {
    if partitions == [] then q
    else HealedOne(db, branch, reading, HealedEach(db, branch, reading, q, partitions[..|partitions| - 1], candidates),
                   partitions[|partitions| - 1], candidates)
  }

  // ── the timeline behind it ─────────────────────────────────────────────

  /** A partition read from a cursor is that part of the timeline. */
  lemma {:induction false} FilteredIsPart(whole: Filter, one: Filter, rs: seq<Record>, count: nat, p: nat)
    requires count > 0 && p < count && whole.selector == All && one.selector == PartitionClass(count, p)
    requires whole.from == 0 && one == whole.(from := one.from, selector := one.selector)
    requires whole.kinds == UserEvents && forall i :: 0 <= i < |rs| ==> rs[i].kind == Event
    ensures Filtered(one, rs) == H.Part(Filtered(whole, rs), count, p, one.from, one.until)
    decreases |rs|
  {
    hide Passes, H.Part, H.InPartition;
    if rs == [] {
      NoPart(count, p, one.from, one.until);
    } else {
      var shorter, r := rs[..|rs| - 1], rs[|rs| - 1];
      assert rs == shorter + [r] && [r][1..] == [];
      FilteredIsPart(whole, one, shorter, count, p);
      FilteredConcat(whole, shorter, [r]);
      FilteredConcat(one, shorter, [r]);
      PassesPart(whole, one, r, count, p);
      PartSnoc(Filtered(whole, shorter), r, count, p, one.from, one.until);
      assert Filtered(whole, [r]) == if Passes(whole, r) && r.position < whole.until then [r] else [];
      assert Filtered(one, [r]) == if Passes(one, r) && r.position < one.until then [r] else [];
      if !(Passes(whole, r) && r.position < whole.until) {
        assert Filtered(whole, rs) == Filtered(whole, shorter) && Filtered(one, rs) == Filtered(one, shorter);
      }
    }
  }

  lemma NoPart(count: nat, p: nat, from: nat, until: nat)
    requires count > 0
    ensures H.Part([], count, p, from, until) == []
  {
  }

  lemma PartSnoc(h: seq<Record>, r: Record, count: nat, p: nat, from: nat, until: nat)
    requires count > 0
    ensures H.Part(h + [r], count, p, from, until) ==
      H.Part(h, count, p, from, until) + if H.InPartition(count, p, r) && from <= r.position < until then [r] else []
  {
    assert (h + [r])[..|h|] == h;
  }

  lemma PassesPart(whole: Filter, one: Filter, r: Record, count: nat, p: nat)
    requires count > 0 && p < count && whole.selector == All && one.selector == PartitionClass(count, p)
    requires whole.from == 0 && one == whole.(from := one.from, selector := one.selector)
    requires whole.kinds == UserEvents && r.kind == Event
    ensures Passes(one, r) <==> Passes(whole, r) && H.InPartition(count, p, r) && one.from <= r.position
  {
    hide InScopes;
  }

  /** What a heal reads is the partition's part of the timeline from its cursor. */
  lemma DeltaIsPart(db: M.Db, branch: Id, count: nat, p: nat, start: nat)
    requires DbInv(db) && branch in db.branches.byId && count > 0 && p < count
    ensures Replayed(db, branch, 0, M.Head(db), WHOLE).Ok?
    ensures Replayed(db, branch, start, M.Head(db), PartitionChoice(count, p)) == Ok(H.Part(Timeline(db, branch), count, p, start, M.Head(db)))
  {
    hide DbInv, Filtered, M.Flat, ReplayScopes, H.Part;
    KnownReplay(db, branch, 0, M.Head(db));
    FlatIsDense(db);
    var whole := PlanFilter(db.branches.byId, branch, 0, M.Head(db), WHOLE).value;
    var one := PlanFilter(db.branches.byId, branch, start, M.Head(db), PartitionChoice(count, p)).value;
    FilteredIsPart(whole, one, M.Flat(db.batches), count, p);
  }

  lemma TimelineAscends(db: M.Db, branch: Id)
    requires DbInv(db) && branch in db.branches.byId
    ensures Replayed(db, branch, 0, M.Head(db), WHOLE).Ok? && H.Ascending(Timeline(db, branch), M.Head(db))
  {
    hide DbInv, Replayed;
    KnownReplay(db, branch, 0, M.Head(db));
    ReplayAscends(db, branch, 0, M.Head(db));
  }

  ghost predicate Candidates(db: M.Db, branch: Id, reading: H.Reader, count: nat, candidates: map<nat, H.Snapshot>)
    requires count > 0 && Replayed(db, branch, 0, M.Head(db), WHOLE).Ok?
  {
    forall p :: p in candidates ==> H.SnapshotOf(reading, Timeline(db, branch), M.Head(db), count, p, candidates[p])
  }

  ghost predicate ColdAtZero(q: H.Query) {
    forall p :: 0 <= p < |q.partitions| && q.partitions[p].Cold? ==> q.partitions[p].at == 0
  }

  lemma HealedOneKeeps(db: M.Db, branch: Id, reading: H.Reader, q: H.Query, p: nat, candidates: map<nat, H.Snapshot>)
    requires DbInv(db) && branch in db.branches.byId && p < |q.partitions| && ColdAtZero(q)
    requires Replayed(db, branch, 0, M.Head(db), WHOLE).Ok?
    requires H.HealInv(reading, Timeline(db, branch), M.Head(db), q) && Candidates(db, branch, reading, |q.partitions|, candidates)
    ensures var next := HealedOne(db, branch, reading, q, p, candidates);
      && |next.partitions| == |q.partitions| && ColdAtZero(next)
      && H.HealInv(reading, Timeline(db, branch), M.Head(db), next)
      && (H.Serving(q.partitions[p]) ==> next.partitions[p] == H.Ready(M.Head(db)) || next.partitions[p].Failed?)
  {
    hide DbInv, H.HealInv, Replayed, H.Part, H.AppliedAll, H.SnapshotOf, M.Flat;
    var h, head := Timeline(db, branch), M.Head(db);
    var warm := if p in candidates then H.Restored(q, p, candidates[p]) else q;
    if p in candidates && q.partitions[p].Cold? {
      H.RestoreKeeps(reading, h, head, q, p, candidates[p]);
    }
    DeltaIsPart(db, branch, |q.partitions|, p, warm.partitions[p].at);
    H.HealKeeps(reading, h, head, warm, p);
    CursorWithin(reading, h, head, warm, p);
  }

  lemma CursorWithin(reading: H.Reader, h: seq<Record>, head: nat, q: H.Query, p: nat)
    requires H.HealInv(reading, h, head, q) && p < |q.partitions|
    ensures H.Serving(q.partitions[p]) ==> q.partitions[p].at <= head
  {
    hide H.Ascending, H.OwnedKeys, H.Sourced, H.NoneBroken, H.Part, H.LastPut;
    assert H.Tracked(reading, h, head, q, p);
  }

  /** HEALING THROUGH THE DATABASE: a call that touches every partition and meets no failure
      leaves the rows of one in-order replay of the branch's timeline. */
  lemma {:induction false} HealedEachKeeps(db: M.Db, branch: Id, reading: H.Reader, q: H.Query, partitions: seq<nat>, candidates: map<nat, H.Snapshot>)
    requires DbInv(db) && branch in db.branches.byId && ColdAtZero(q)
    requires Replayed(db, branch, 0, M.Head(db), WHOLE).Ok?
    requires H.HealInv(reading, Timeline(db, branch), M.Head(db), q) && Candidates(db, branch, reading, |q.partitions|, candidates)
    requires forall i :: 0 <= i < |partitions| ==> partitions[i] < |q.partitions|
    ensures var next := HealedEach(db, branch, reading, q, partitions, candidates);
      H.HealInv(reading, Timeline(db, branch), M.Head(db), next) && ColdAtZero(next)
    decreases |partitions|
  {
    hide DbInv, H.HealInv, Replayed, HealedOne, M.Flat, H.SnapshotOf, ColdAtZero;
    if partitions != [] {
      var shorter := partitions[..|partitions| - 1];
      HealedEachKeeps(db, branch, reading, q, shorter, candidates);
      HealedOneKeeps(db, branch, reading, HealedEach(db, branch, reading, q, shorter, candidates), partitions[|partitions| - 1], candidates);
    }
  }

  // ── the timeline only grows ────────────────────────────────────────────

  /** TIMELINES ONLY GROW: whatever happens to the database, a branch's timeline keeps its
      records in place and gains only records at or above the old head. */
  lemma TimelineGrows(a: M.Db, b: M.Db, branch: Id) returns (more: seq<Record>)
    requires DbInv(a) && DbInv(b) && Grows(a, b) && branch in a.branches.byId
    ensures Replayed(a, branch, 0, M.Head(a), WHOLE).Ok? && Replayed(b, branch, 0, M.Head(b), WHOLE).Ok?
    ensures M.Head(a) <= M.Head(b) && Timeline(b, branch) == Timeline(a, branch) + more
    ensures forall r :: r in more ==> r.position >= M.Head(a)
  {
    hide DbInv, M.Flat, Filtered, Visible, Ancestry, WellForked, SamePath, Takes, PlanFilter, CatalogGrows;
    PathStays(a, b, branch);
    KnownReplay(a, branch, 0, M.Head(a));
    KnownReplay(b, branch, 0, M.Head(b));
    HeadGrows(a, b);
    FlatIsDense(a);
    FlatIsDense(b);
    var early, later := M.Flat(a.batches), M.Flat(b.batches);
    var f := PlanFilter(a.branches.byId, branch, 0, M.Head(a), WHOLE).value;
    var g := PlanFilter(b.branches.byId, branch, 0, M.Head(b), WHOLE).value;
    FiltersValid(a, branch);
    FiltersValid(b, branch);
    var tail := later[|early|..];
    assert later == early + tail;
    FilteredConcat(g, early, tail);
    forall i | 0 <= i < |early| ensures Takes(f, early[i]) <==> Takes(g, early[i]) {
      TakesIsVisible(a.branches.byId, branch, Ancestry(a.branches.byId, branch).value, 0, M.Head(a), WHOLE, early[i]);
      TakesIsVisible(b.branches.byId, branch, Ancestry(b.branches.byId, branch).value, 0, M.Head(b), WHOLE, early[i]);
      VisibleStays(Ancestry(a.branches.byId, branch).value, Ancestry(b.branches.byId, branch).value, M.Head(a), M.Head(b),
                   early[i].envelope.branchId, early[i].position);
    }
    FilteredSame(f, g, early);
    more := Filtered(g, tail);
    FilteredMembers(g, tail);
    forall r | r in more ensures r.position >= M.Head(a) {
      var i :| 0 <= i < |tail| && tail[i] == r;
      assert tail[i] == later[|early| + i];
    }
  }

  lemma FiltersValid(db: M.Db, branch: Id)
    requires PlanFilter(db.branches.byId, branch, 0, M.Head(db), WHOLE).Ok?
    ensures PlanFilter(db.branches.byId, branch, 0, M.Head(db), WHOLE).value.selector.Valid()
  {
  }

  lemma {:induction false} FilteredMembers(f: Filter, rs: seq<Record>)
    requires f.selector.Valid()
    ensures forall r :: r in Filtered(f, rs) ==> r in rs
    decreases |rs|
  {
    if rs != [] {
      FilteredMembers(f, rs[1..]);
    }
  }

  /** Between two rounds the database may do anything: the query stays on track. */
  lemma QueryOutlivesGrowth(a: M.Db, b: M.Db, branch: Id, reading: H.Reader, q: H.Query)
    requires DbInv(a) && DbInv(b) && Grows(a, b) && branch in a.branches.byId && q.partitions != []
    requires Replayed(a, branch, 0, M.Head(a), WHOLE).Ok? && H.HealInv(reading, Timeline(a, branch), M.Head(a), q)
    requires Replayed(b, branch, 0, M.Head(b), WHOLE).Ok? && H.OwnedKeys(reading, Timeline(b, branch), |q.partitions|)
    ensures H.HealInv(reading, Timeline(b, branch), M.Head(b), q)
  {
    hide DbInv, Grows, Replayed, H.HealInv, H.OwnedKeys, H.Ascending, M.Flat;
    var more := TimelineGrows(a, b, branch);
    BranchKnownLater(a, b, branch);
    TimelineAscends(b, branch);
    H.GrowthKeeps(reading, Timeline(a, branch), M.Head(a), more, M.Head(b), q);
  }

  lemma BranchKnownLater(a: M.Db, b: M.Db, branch: Id)
    requires Grows(a, b) && branch in a.branches.byId
    ensures branch in b.branches.byId
  {
  }

  /** A call after which every partition stands at the head serves the full replay's rows. */
  lemma HealedServesReplay(db: M.Db, branch: Id, reading: H.Reader, q: H.Query, partitions: seq<nat>, candidates: map<nat, H.Snapshot>)
    requires DbInv(db) && branch in db.branches.byId && ColdAtZero(q)
    requires Replayed(db, branch, 0, M.Head(db), WHOLE).Ok?
    requires H.HealInv(reading, Timeline(db, branch), M.Head(db), q) && Candidates(db, branch, reading, |q.partitions|, candidates)
    requires forall i :: 0 <= i < |partitions| ==> partitions[i] < |q.partitions|
    requires var next := HealedEach(db, branch, reading, q, partitions, candidates);
      forall p :: 0 <= p < |next.partitions| ==> next.partitions[p] == H.Ready(M.Head(db))
    ensures H.AppliedAll(reading, H.EMPTY_INDEX, Timeline(db, branch)) ==
            H.Outcome(HealedEach(db, branch, reading, q, partitions, candidates).index, false)
  {
    hide DbInv, Replayed, H.HealInv, HealedEach, M.Flat, H.AppliedAll, H.SnapshotOf;
    HealedEachKeeps(db, branch, reading, q, partitions, candidates);
    H.HealedEqualsReplay(reading, Timeline(db, branch), M.Head(db), HealedEach(db, branch, reading, q, partitions, candidates));
  }

  // ── the objects ────────────────────────────────────────────────────────

  class JsonIndexRuntime {
    const reading: H.Reader
    var rows: map<Bytes, Bytes>
    var rowStreams: map<Bytes, Id>

    function View(): H.Index
      reads this
    {
      H.Index(rows, rowStreams)
    }

    constructor (reading: H.Reader)
      ensures View() == H.EMPTY_INDEX && this.reading == reading
    {
      this.reading, rows, rowStreams := reading, map[], map[];
    }

    method Apply(r: Record) returns (ok: bool)
      modifies this
      ensures ok == !reading(r).Broken? && View() == H.Applied(reading, old(View()), r)
    {
      match reading(r) {
        case Ignored => return true;
        case Broken => return false;
        case Put(key) =>
          rows := rows[key := r.payload];
          rowStreams := rowStreams[key := r.envelope.streamId];
          return true;
      }
    }

    method CheckpointPartition(p: nat, count: nat) returns (kept: map<Bytes, (Id, Bytes)>)
      requires count > 0
      ensures kept == H.Checkpointed(View(), count, p)
    {
      kept := map[];
      var todo := rows.Keys;
      while todo != {}
        invariant todo <= rows.Keys
        invariant kept == map k | k in H.Checkpointed(View(), count, p) && k !in todo :: H.Checkpointed(View(), count, p)[k]
        decreases |todo|
      {
        var key: Bytes :| key in todo;
        if key in rowStreams && PartitionOf(rowStreams[key], count) == p {
          kept := kept[key := (rowStreams[key], rows[key])];
        }
        todo := todo - {key};
      }
      assert kept == H.Checkpointed(View(), count, p);
    }

    method RestorePartition(saved: map<Bytes, (Id, Bytes)>)
      modifies this
      ensures rows == RowsOver(old(rows), saved, saved.Keys) && rowStreams == StreamsOver(old(rowStreams), saved, saved.Keys)
    {
      hide RowsOver, StreamsOver;
      var todo := saved.Keys;
      ghost var done: set<Bytes> := {};
      NothingOver(rows, rowStreams, saved);
      while todo != {}
        invariant todo + done == saved.Keys
        invariant rows == RowsOver(old(rows), saved, done) && rowStreams == StreamsOver(old(rowStreams), saved, done)
        decreases |todo|
      {
        var key: Bytes :| key in todo;
        OneMoreOver(old(rows), old(rowStreams), saved, done, key);
        rowStreams := rowStreams[key := saved[key].0];
        rows := rows[key := saved[key].1];
        todo := todo - {key};
        done := done + {key};
      }
      assert done == saved.Keys;
    }
  }

  /** The saved rows of the given keys laid over the rows there are. */
  function RowsOver(m: map<Bytes, Bytes>, saved: map<Bytes, (Id, Bytes)>, keys: set<Bytes>): map<Bytes, Bytes>
    requires keys <= saved.Keys
  {
    m + map k | k in keys :: saved[k].1
  }

  function StreamsOver(m: map<Bytes, Id>, saved: map<Bytes, (Id, Bytes)>, keys: set<Bytes>): map<Bytes, Id>
    requires keys <= saved.Keys
  {
    m + map k | k in keys :: saved[k].0
  }

  lemma NothingOver(rows: map<Bytes, Bytes>, streams: map<Bytes, Id>, saved: map<Bytes, (Id, Bytes)>)
    ensures RowsOver(rows, saved, {}) == rows && StreamsOver(streams, saved, {}) == streams
  {
  }

  lemma OneMoreOver(rows: map<Bytes, Bytes>, streams: map<Bytes, Id>, saved: map<Bytes, (Id, Bytes)>, keys: set<Bytes>, key: Bytes)
    requires keys <= saved.Keys && key in saved
    ensures RowsOver(rows, saved, keys + {key}) == RowsOver(rows, saved, keys)[key := saved[key].1]
    ensures StreamsOver(streams, saved, keys + {key}) == StreamsOver(streams, saved, keys)[key := saved[key].0]
  {
    hide RowsOver, StreamsOver;
    OneMoreRow(rows, saved, keys, key);
    OneMoreStream(streams, saved, keys, key);
  }

  lemma OneMoreRow(rows: map<Bytes, Bytes>, saved: map<Bytes, (Id, Bytes)>, keys: set<Bytes>, key: Bytes)
    requires keys <= saved.Keys && key in saved
    ensures RowsOver(rows, saved, keys + {key}) == RowsOver(rows, saved, keys)[key := saved[key].1]
  {
  }

  lemma OneMoreStream(streams: map<Bytes, Id>, saved: map<Bytes, (Id, Bytes)>, keys: set<Bytes>, key: Bytes)
    requires keys <= saved.Keys && key in saved
    ensures StreamsOver(streams, saved, keys + {key}) == StreamsOver(streams, saved, keys)[key := saved[key].0]
  {
  }

  class QueryState {
    const branch: Id
    const runtime: JsonIndexRuntime
    var partitions: seq<H.Status>

    function View(): H.Query
      reads this, runtime
    {
      H.Query(runtime.View(), partitions)
    }

    constructor (branch: Id, reading: H.Reader, count: nat)
      ensures View() == H.ColdQuery(count) && this.branch == branch && fresh(runtime) && runtime.reading == reading
    {
      this.branch := branch;
      runtime := new JsonIndexRuntime(reading);
      partitions := seq(count, i => H.Cold(0));
    }
  }

  /** Apply what a reader yields until it ends or a record cannot be applied. */
  method ApplyAll(reader: LogReader, runtime: JsonIndexRuntime, ghost delta: seq<Record>) returns (failed: bool)
    requires reader.Valid() && reader.intact && reader.cursor == null && !reader.finished && reader.Pending() == delta
    modifies reader, runtime
    ensures runtime.View() == H.AppliedAll(runtime.reading, old(runtime.View()), delta).index
    ensures failed == H.AppliedAll(runtime.reading, old(runtime.View()), delta).failed
  {
    hide LogReader.Pending, InStep, Traced;
    ghost var n := 0;
    assert delta[..0] == [];
    while true
      invariant reader.Valid() && reader.intact && (reader.cursor == null || fresh(reader.cursor)) && !reader.finished
      invariant n <= |delta| && reader.Pending() == delta[n..]
      invariant H.AppliedAll(runtime.reading, old(runtime.View()), delta[..n]) == H.Outcome(runtime.View(), false)
      decreases |delta| - n
    {
      var next := reader.Next();
      if next.value.None? {
        assert delta[..n] == delta;
        return false;
      }
      assert next.value.value == delta[n] && delta[n..][1..] == delta[n + 1..] && delta[..n + 1][..n] == delta[..n];
      var ok := runtime.Apply(next.value.value);
      if !ok {
        FailureStays(runtime.reading, old(runtime.View()), delta, n + 1);
        return true;
      }
      n := n + 1;
    }
  }

  lemma {:induction false} FailureStays(reading: H.Reader, x: H.Index, rs: seq<Record>, n: nat)
    requires n <= |rs| && H.AppliedAll(reading, x, rs[..n]).failed
    ensures H.AppliedAll(reading, x, rs) == H.AppliedAll(reading, x, rs[..n])
    decreases |rs| - n
  {
    if n == |rs| {
      assert rs[..n] == rs;
    } else {
      assert rs[..n + 1][..n] == rs[..n];
      FailureStays(reading, x, rs, n + 1);
    }
  }

  /** A cold partition adopts its snapshot, if there is one. */
  method Warm(state: QueryState, p: nat, candidates: map<nat, H.Snapshot>)
    requires p < |state.partitions|
    modifies state, state.runtime
    ensures state.View() == if p in candidates then H.Restored(old(state.View()), p, candidates[p]) else old(state.View())
    ensures |state.partitions| == |old(state.partitions)|
  {
    if state.partitions[p].Cold? && p in candidates {
      state.runtime.RestorePartition(candidates[p].rows);
      state.partitions := state.partitions[p := H.Ready(candidates[p].at)];
    }
  }

  method HealPartition(db: Salamander, state: QueryState, p: nat, candidates: map<nat, H.Snapshot>, sidecars: map<nat, Sidecar.Sidecar>)
    requires db.Valid() && LogReading.SidecarsOf(db.log.State(), sidecars) && p < |state.partitions|
    modifies state, state.runtime
    ensures state.View() == HealedOne(db.View(), state.branch, state.runtime.reading, old(state.View()), p, candidates)
  {
    hide DbInv, Rebuild.Journaled, Salamander.LogHolds, M.Flat, M.Head, Replayed, H.AppliedAll, H.Restored;
    db.HeadIsLogHead();
    var head := db.log.active.nextOffset;
    Warm(state, p, candidates);
    var start, count := state.partitions[p].at, |state.partitions|;
    if state.partitions[p].Failed? || state.partitions[p].Stale? {
      return;
    }
    if start >= head {
      state.partitions := state.partitions[p := H.Ready(head)];
      return;
    }
    var failed := ApplyDelta(db, state.branch, state.runtime, count, p, start, sidecars);
    state.partitions := state.partitions[p := if failed then H.Failed(start) else H.Ready(head)];
  }

  /** Read a partition's part of the timeline from a cursor to the head, and apply it. */
  method ApplyDelta(db: Salamander, branch: Id, runtime: JsonIndexRuntime, count: nat, p: nat, start: nat, sidecars: map<nat, Sidecar.Sidecar>)
    returns (failed: bool)
    requires db.Valid() && LogReading.SidecarsOf(db.log.State(), sidecars) && p < count && start < M.Head(db.View())
    modifies runtime
    ensures branch !in db.branches.byId ==> failed && runtime.View() == old(runtime.View())
    ensures branch in db.branches.byId ==>
      && Replayed(db.View(), branch, start, M.Head(db.View()), PartitionChoice(count, p)).Ok?
      && H.Outcome(runtime.View(), failed)
         == H.AppliedAll(runtime.reading, old(runtime.View()), Replayed(db.View(), branch, start, M.Head(db.View()), PartitionChoice(count, p)).value)
  {
    hide DbInv, Rebuild.Journaled, Salamander.LogHolds, LogReader.Valid, LogReader.Pending, M.Flat, Replayed, H.AppliedAll, Limited;
    db.HeadIsLogHead();
    var head := db.log.active.nextOffset;
    var plan := ReplayPlan(branch, PartitionChoice(count, p), Included(start), At(head), None, false);
    var reader := db.Read(plan, sidecars);
    if reader.Err? {
      return true;
    }
    ghost var delta := Replayed(db.View(), branch, start, head, PartitionChoice(count, p)).value;
    NoLimit(delta);
    failed := ApplyAll(reader.value, runtime, delta);
  }

  method HealPartitions(db: Salamander, state: QueryState, partitions: seq<nat>, candidates: map<nat, H.Snapshot>, sidecars: map<nat, Sidecar.Sidecar>)
    requires db.Valid() && LogReading.SidecarsOf(db.log.State(), sidecars)
    requires forall i :: 0 <= i < |partitions| ==> partitions[i] < |state.partitions|
    modifies state, state.runtime
    ensures state.View() == HealedEach(db.View(), state.branch, state.runtime.reading, old(state.View()), partitions, candidates)
  {
    hide DbInv, Rebuild.Journaled, Salamander.LogHolds, HealedOne;
    var i := 0;
    ghost var view := db.View();
    assert partitions[..0] == [];
    while i < |partitions|
      invariant 0 <= i <= |partitions| && db.Valid() && db.View() == view && |state.partitions| == |old(state.partitions)|
      invariant LogReading.SidecarsOf(db.log.State(), sidecars)
      invariant state.View() == HealedEach(view, state.branch, state.runtime.reading, old(state.View()), partitions[..i], candidates)
    {
      assert partitions[..i + 1][..i] == partitions[..i];
      HealPartition(db, state, partitions[i], candidates, sidecars);
      i := i + 1;
    }
    assert partitions[..i] == partitions;
  }

  // ── the status a query is served under ─────────────────────────────────

  datatype Overall = Building(at: nat) | AllReady(at: nat) | SomeStale(at: nat) | SomeFailed(at: nat)

  /** One failed partition fails the projection, one stale one makes it stale; otherwise it
      stands at its slowest partition, and is ready when all are. */
  method AggregateStatus(partitions: seq<H.Status>) returns (s: Overall)
    ensures s.SomeFailed? <==> exists p :: 0 <= p < |partitions| && partitions[p].Failed?
    ensures s.SomeStale? <==>
      && (forall p :: 0 <= p < |partitions| ==> !partitions[p].Failed?)
      && exists p :: 0 <= p < |partitions| && partitions[p].Stale?
    ensures s.AllReady? <==> forall p :: 0 <= p < |partitions| ==> partitions[p].Ready?
    ensures s.AllReady? || s.Building? ==> forall p :: 0 <= p < |partitions| ==> s.at <= partitions[p].at
    ensures partitions != [] ==> exists p :: 0 <= p < |partitions| && partitions[p].at == s.at
  {
    for p := 0 to |partitions|
      invariant forall k :: 0 <= k < p ==> !partitions[k].Failed?
    {
      if partitions[p].Failed? {
        return SomeFailed(partitions[p].at);
      }
    }
    for p := 0 to |partitions|
      invariant forall k :: 0 <= k < p ==> !partitions[k].Stale?
    {
      if partitions[p].Stale? {
        return SomeStale(partitions[p].at);
      }
    }
    var ready := true;
    var lowest: nat := 0;
    for p := 0 to |partitions|
      invariant ready <==> forall k :: 0 <= k < p ==> partitions[k].Ready?
      invariant forall k :: 0 <= k < p ==> lowest <= partitions[k].at
      invariant p > 0 ==> exists k :: 0 <= k < p && partitions[k].at == lowest
    {
      if p == 0 || partitions[p].at < lowest {
        lowest := partitions[p].at;
      }
      ready := ready && partitions[p].Ready?;
    }
    return if ready then AllReady(lowest) else Building(lowest);
  }

  /** SERVED AT HEAD IS REPLAY: a query that demands the head is answered only when the
      projection is ready with its slowest partition at the head; the rows it then reads
      are those of one in-order replay. */
  lemma ServedAtHeadIsReplay(db: M.Db, branch: Id, reading: H.Reader, q: H.Query, status: Overall)
    requires DbInv(db) && branch in db.branches.byId && q.partitions != []
    requires Replayed(db, branch, 0, M.Head(db), WHOLE).Ok?
    requires H.HealInv(reading, Timeline(db, branch), M.Head(db), q)
    requires status.AllReady? && status.at >= M.Head(db)
    requires forall p :: 0 <= p < |q.partitions| ==> q.partitions[p].Ready? && status.at <= q.partitions[p].at
    ensures H.AppliedAll(reading, H.EMPTY_INDEX, Timeline(db, branch)) == H.Outcome(q.index, false)
  {
    hide DbInv, Replayed, H.HealInv, M.Flat, H.AppliedAll;
    forall p | 0 <= p < |q.partitions| ensures q.partitions[p] == H.Ready(M.Head(db)) {
      CursorWithin(reading, Timeline(db, branch), M.Head(db), q, p);
    }
    H.HealedEqualsReplay(reading, Timeline(db, branch), M.Head(db), q);
  }
}
