/** Replay paging: one branch's timeline in pages of bounded size, resumed at a position. */
module Paging {
  import opened Base
  import opened Format
  import opened RecordWalk
  import opened RecordWalkLaws
  import opened ReadPlan
  import opened Branches
  import opened Streams
  import opened AppendLaws
  import opened AppendSafety
  import opened Timelines
  import BranchCatalogs
  import M = AppendMachine
  import LM = LogMachine
  import LogReading
  import Sidecar
  import opened ReadEvidence
  import opened StreamingReader
  import opened Database
  import Rebuild
  import opened Feed

  const WHOLE := Choice(All, None)

  datatype ReplayRequest = ReplayRequest(branch: Id, stream: Option<Bytes>, from: nat, until: Option<nat>, pageEvents: nat, pageBytes: nat)

  datatype ReplayPage = ReplayPage(records: seq<Record>, continuation: nat, done: bool)

  class ReaderState {
    const request: ReplayRequest
    var continuation: nat
    var cancelled: bool

    constructor (request: ReplayRequest)
      ensures this.request == request && continuation == request.from && !cancelled
    {
      this.request, continuation, cancelled := request, request.from, false;
    }
  }

  /** The page limits are checked, then the plan is tried against the database. */
  method OpenReplay(db: Salamander, request: ReplayRequest, sidecars: map<nat, Sidecar.Sidecar>) returns (r: Result<ReaderState>)
    requires db.Valid() && LogReading.SidecarsOf(db.log.State(), sidecars)
    ensures r.Ok? <==>
      && 1 <= request.pageEvents <= MAX_REPLAY_PAGE_EVENTS && 1 <= request.pageBytes <= MAX_REPLAY_PAGE_BYTES
      && EndOf(request, M.Head(db.View())) <= M.Head(db.View()) && request.branch in db.View().branches.byId
    ensures r.Ok? ==> fresh(r.value) && r.value.request == request && r.value.continuation == request.from && !r.value.cancelled
  {
    hide DbInv, Rebuild.Journaled, Salamander.LogHolds, M.Flat, Replayed, LogReader.Valid, LogReader.Pending;
    if request.pageEvents == 0 || request.pageEvents > MAX_REPLAY_PAGE_EVENTS {
      return Err(ResourceLimit);
    }
    if request.pageBytes == 0 || request.pageBytes > MAX_REPLAY_PAGE_BYTES {
      return Err(ResourceLimit);
    }
    var plan := ReplayPlan(request.branch, WHOLE, Included(request.from), if request.until.Some? then At(request.until.value) else ToHead, None, false);
    var _ :- db.Read(plan, sidecars);
    var state := new ReaderState(request);
    return Ok(state);
  }

  predicate OfStream(wanted: Option<Bytes>, r: Record) {
    wanted.None? || StreamNameOf(r) == Ok(wanted.value)
  }

  function Named(wanted: Option<Bytes>, rs: seq<Record>): seq<Record> {
    if rs == [] then []
    else (if OfStream(wanted, rs[0]) then [rs[0]] else []) + Named(wanted, rs[1..])
  }

  function EndOf(request: ReplayRequest, head: nat): nat {
    if request.until.Some? then request.until.value else head
  }

  /** What is still to come for a request from a position on. */
  function Remaining(db: M.Db, request: ReplayRequest, at: nat): seq<Record>
    requires Replayed(db, request.branch, at, EndOf(request, M.Head(db)), WHOLE).Ok?
  {
    Named(request.stream, Replayed(db, request.branch, at, EndOf(request, M.Head(db)), WHOLE).value)
  }

  // ── resuming ───────────────────────────────────────────────────────────

  lemma TakenInWindow(f: Filter, r: Record)
    requires f.selector.Valid() && r.kind == Event && Passes(f, r)
    ensures f.from <= r.position
  {
  }

  /** A filtered list ascends and stays in the window. */
  lemma FilteredAscends(f: Filter, rs: seq<Record>, first: nat)
    requires f.selector.Valid() && Dense(rs, first)
    ensures forall i :: 0 <= i < |Filtered(f, rs)| ==> f.from <= Filtered(f, rs)[i].position < f.until && first <= Filtered(f, rs)[i].position
    ensures forall i, j :: 0 <= i < j < |Filtered(f, rs)| ==> Filtered(f, rs)[i].position < Filtered(f, rs)[j].position
  {
    hide Filtered;
    FilteredOrder(f, rs, first);
  }

  lemma {:induction false} FilteredOrder(f: Filter, rs: seq<Record>, first: nat)
    requires f.selector.Valid() && Dense(rs, first)
    ensures InOrderFrom(Filtered(f, rs), first) && InWindow(f, Filtered(f, rs))
    decreases |rs|
  {
    hide Passes;
    if rs != [] {
      assert rs[0].position == first + 0 && rs[0].kind == Event;
      DenseTail(rs, first);
      FilteredOrder(f, rs[1..], first + 1);
      if Passes(f, rs[0]) && rs[0].position < f.until {
        TakenInWindow(f, rs[0]);
        OneMore(f, rs[0], Filtered(f, rs[1..]), first);
      } else {
        assert Filtered(f, rs) == Filtered(f, rs[1..]);
      }
    }
  }

  ghost predicate InOrderFrom(out: seq<Record>, first: nat) {
    && (forall i :: 0 <= i < |out| ==> first <= out[i].position)
    && (forall i, j :: 0 <= i < j < |out| ==> out[i].position < out[j].position)
  }

  ghost predicate InWindow(f: Filter, out: seq<Record>) {
    forall i :: 0 <= i < |out| ==> f.from <= out[i].position < f.until
  }

  lemma DenseTail(rs: seq<Record>, first: nat)
    requires Dense(rs, first) && rs != []
    ensures Dense(rs[1..], first + 1)
  {
    forall i | 0 <= i < |rs[1..]| ensures rs[1..][i].position == first + 1 + i && rs[1..][i].kind == Event {
      assert rs[1..][i] == rs[i + 1];
    }
  }

  lemma OneMore(f: Filter, r: Record, rest: seq<Record>, first: nat)
    requires r.position == first && f.from <= first < f.until && InOrderFrom(rest, first + 1) && InWindow(f, rest)
    ensures InOrderFrom([r] + rest, first) && InWindow(f, [r] + rest)
  {
  }

  /** Reading on from a position between two records of a list yields the rest of it. */
  lemma ResumedIsSuffix(f: Filter, rs: seq<Record>, at: nat, k: nat)
    requires f.selector.Valid() && f.kinds == UserEvents && Dense(rs, 0) && f.from <= at
    requires k <= |Filtered(f, rs)|
    requires k > 0 ==> Filtered(f, rs)[k - 1].position < at
    requires k < |Filtered(f, rs)| ==> at <= Filtered(f, rs)[k].position
    ensures Filtered(f.(from := at), rs) == Filtered(f, rs)[k..]
  {
    hide Filtered, Dense, Passes, InWindow, InOrderFrom;
    var low, high := f.(until := Min(f.until, at)), f.(from := at);
    FilteredOrder(low, rs, 0);
    FilteredOrder(high, rs, 0);
    DenseAscends(rs, 0);
    LogReading.ResumeSplits(f, rs, at);
    CutAt(low, Filtered(low, rs), high, Filtered(high, rs), at, k);
  }

  lemma DenseAscends(rs: seq<Record>, first: nat)
    requires Dense(rs, first)
    ensures forall i, j :: 0 <= i < j < |rs| ==> rs[i].position < rs[j].position
  {
  }

  lemma CutAt(low: Filter, below: seq<Record>, high: Filter, above: seq<Record>, at: nat, k: nat)
    requires InWindow(low, below) && low.until <= at && InWindow(high, above) && high.from == at
    requires k <= |below + above|
    requires k > 0 ==> (below + above)[k - 1].position < at
    requires k < |below + above| ==> at <= (below + above)[k].position
    ensures (below + above)[k..] == above
  {
    assert k == |below|;
  }

  lemma ResumedReplay(db: M.Db, request: ReplayRequest, from: nat, at: nat, k: nat)
    requires DbInv(db) && from <= at
    requires Replayed(db, request.branch, from, EndOf(request, M.Head(db)), WHOLE).Ok?
    requires var all := Replayed(db, request.branch, from, EndOf(request, M.Head(db)), WHOLE).value;
      k <= |all| && (k > 0 ==> all[k - 1].position < at) && (k < |all| ==> at <= all[k].position)
    ensures Replayed(db, request.branch, at, EndOf(request, M.Head(db)), WHOLE)
         == Ok(Replayed(db, request.branch, from, EndOf(request, M.Head(db)), WHOLE).value[k..])
  {
    hide DbInv, Filtered, M.Flat, Dense, ReplayScopes;
    FlatIsDense(db);
    var f := PlanFilter(db.branches.byId, request.branch, from, EndOf(request, M.Head(db)), WHOLE).value;
    ResumedIsSuffix(f, M.Flat(db.batches), at, k);
  }

  lemma NamedStep(wanted: Option<Bytes>, rs: seq<Record>, k: nat)
    requires k < |rs|
    ensures Named(wanted, rs[k..]) == (if OfStream(wanted, rs[k]) then [rs[k]] else []) + Named(wanted, rs[k + 1..])
  {
    assert rs[k..][1..] == rs[k + 1..];
  }

  // ── one page ───────────────────────────────────────────────────────────

  /** `k` records of the list are read, those wanted among them on the page. */
  ghost predicate Paged(request: ReplayRequest, all: seq<Record>, from: nat, k: nat, records: seq<Record>, bytes: nat, continuation: nat) {
    && k <= |all| && Named(request.stream, all) == records + Named(request.stream, all[k..])
    && bytes == BatchSize(records) && (|records| <= 1 || bytes <= request.pageBytes)
    && continuation == if k == 0 then from else all[k - 1].position + 1
  }

  /** What a page promises: it takes the front of what is still to come, goes strictly
      forward unless it is done, and respects the limits or holds a single record. */
  ghost predicate PageHolds(request: ReplayRequest, all: seq<Record>, from: nat, end: nat, page: ReplayPage, k: nat) {
    && k <= |all| && Named(request.stream, all) == page.records + Named(request.stream, all[k..])
    && (k > 0 ==> all[k - 1].position < page.continuation) && (k < |all| ==> page.continuation <= all[k].position)
    && from <= page.continuation && (from < end ==> from < page.continuation)
    && (page.done <==> page.continuation >= end)
    && |page.records| <= request.pageEvents && (|page.records| <= 1 || BatchSize(page.records) <= request.pageBytes)
    && (page.continuation < end ==> PageFull(request, page.records, Named(request.stream, all[k..])))
  }

  /** No more fits: enough records, or the next one would take the page over its bytes. */
  predicate PageFull(request: ReplayRequest, records: seq<Record>, next: seq<Record>) {
    || |records| >= request.pageEvents
    || (records != [] && next != [] && BatchSize(records) + SizeOf(next[0]) > request.pageBytes)
  }

  lemma {:induction false} BatchSizeSnoc(rs: seq<Record>, r: Record)
    ensures BatchSize(rs + [r]) == BatchSize(rs) + SizeOf(r)
    decreases |rs|
  {
    hide SizeOf;
    if rs == [] {
      assert [r][1..] == [];
    } else {
      assert (rs + [r])[1..] == rs[1..] + [r];
      BatchSizeSnoc(rs[1..], r);
    }
  }

  lemma PushPaged(request: ReplayRequest, all: seq<Record>, from: nat, k: nat, records: seq<Record>, bytes: nat, continuation: nat)
    requires Paged(request, all, from, k, records, bytes, continuation) && k < |all|
    ensures !OfStream(request.stream, all[k]) ==> Paged(request, all, from, k + 1, records, bytes, all[k].position + 1)
    ensures OfStream(request.stream, all[k]) && (records == [] || bytes + SizeOf(all[k]) <= request.pageBytes) ==>
              Paged(request, all, from, k + 1, records + [all[k]], bytes + SizeOf(all[k]), all[k].position + 1)
  {
    hide SizeOf, OfStream, Named, BatchSize;
    NamedStep(request.stream, all, k);
    BatchSizeSnoc(records, all[k]);
  }

  method FillPage(reader: LogReader, request: ReplayRequest, from: nat, end: nat, ghost all: seq<Record>) returns (page: ReplayPage, ghost k: nat)
    requires reader.Valid() && reader.intact && reader.cursor == null && !reader.finished && reader.filter.maxEvents.None?
    requires reader.Pending() == all && request.pageEvents >= 1 && reader.continuation == from && end == Min(reader.filter.until, reader.head)
    requires forall i :: 0 <= i < |all| ==> from <= all[i].position && all[i].kind == Event
    requires forall i, j :: 0 <= i < j < |all| ==> all[i].position < all[j].position
    modifies reader
    ensures PageHolds(request, all, from, end, page, k)
  {
    hide LogReader.Pending, InStep, Traced, Paged, OfStream, SizeOf, Named, BatchSize;
    var records: seq<Record>, bytes: nat, continuation: nat := [], 0, from;
    k := 0;
    StartsPaged(request, all, from);
    while true
      invariant reader.Valid() && reader.intact && (reader.cursor == null || fresh(reader.cursor)) && !reader.finished
      invariant k <= |all| && reader.Pending() == all[k..] && reader.continuation >= from
      invariant Paged(request, all, from, k, records, bytes, continuation) && |records| < request.pageEvents
      decreases |all| - k
    {
      var next := reader.Next();
      if next.value.None? {
        PagedParts(request, all, from, k, records, bytes, continuation);
        continuation := Max(continuation, reader.continuation);
        break;
      }
      var record := next.value.value;
      assert record == all[k] && all[k..][1..] == all[k + 1..];
      PushPaged(request, all, from, k, records, bytes, continuation);
      if !OfStream(request.stream, record) {
        continuation := reader.continuation;
        k := k + 1;
        continue;
      }
      var size := SizeOf(record);
      if records != [] && (|records| >= request.pageEvents || bytes + size > request.pageBytes) {
        PagedParts(request, all, from, k, records, bytes, continuation);
        SomethingRead(request, all, from, k, records, bytes, continuation);
        NamedStep(request.stream, all, k);
        continuation := record.position;
        break;
      }
      bytes, continuation, records, k := bytes + size, reader.continuation, records + [record], k + 1;
      if |records| >= request.pageEvents {
        PagedParts(request, all, from, k, records, bytes, continuation);
        break;
      }
    }
    page := ReplayPage(records, continuation, continuation >= end);
  }

  lemma StartsPaged(request: ReplayRequest, all: seq<Record>, from: nat)
    ensures Paged(request, all, from, 0, [], 0, from)
  {
    assert all[0..] == all && [] + Named(request.stream, all) == Named(request.stream, all);
  }

  lemma PagedParts(request: ReplayRequest, all: seq<Record>, from: nat, k: nat, records: seq<Record>, bytes: nat, continuation: nat)
    requires Paged(request, all, from, k, records, bytes, continuation)
    requires forall i :: 0 <= i < |all| ==> from <= all[i].position
    ensures k <= |all| && Named(request.stream, all) == records + Named(request.stream, all[k..])
    ensures bytes == BatchSize(records) && (|records| <= 1 || BatchSize(records) <= request.pageBytes)
    ensures continuation == if k == 0 then from else all[k - 1].position + 1
  {
  }

  lemma SomethingRead(request: ReplayRequest, all: seq<Record>, from: nat, k: nat, records: seq<Record>, bytes: nat, continuation: nat)
    requires Paged(request, all, from, k, records, bytes, continuation) && records != []
    ensures k > 0
  {
    hide OfStream;
    assert all[0..] == all;
    assert |Named(request.stream, all)| == |records| + |Named(request.stream, all[k..])|;
  }

  /** PAGING: one page of a request. What it returns, followed by what is to come from its
      continuation, is what was to come from the old one; it is done exactly at the end,
      and otherwise strictly closer to it. */
  method NextPage(db: Salamander, state: ReaderState, sidecars: map<nat, Sidecar.Sidecar>) returns (r: Result<ReplayPage>)
    requires db.Valid() && LogReading.SidecarsOf(db.log.State(), sidecars) && state.request.pageEvents >= 1
    modifies state`continuation
    ensures state.cancelled ==> r == Err(Cancelled)
    ensures r.Err? ==> state.continuation == old(state.continuation)
    ensures !state.cancelled ==>
      (r.Ok? <==> state.request.branch in db.View().branches.byId && EndOf(state.request, M.Head(db.View())) <= M.Head(db.View()))
    ensures r.Ok? ==>
      var end := EndOf(state.request, M.Head(db.View()));
      && state.continuation == r.value.continuation
      && Replayed(db.View(), state.request.branch, old(state.continuation), end, WHOLE).Ok?
      && Replayed(db.View(), state.request.branch, state.continuation, end, WHOLE).Ok?
      && Remaining(db.View(), state.request, old(state.continuation)) == r.value.records + Remaining(db.View(), state.request, state.continuation)
      && (r.value.done <==> state.continuation >= end) && old(state.continuation) <= state.continuation
      && (old(state.continuation) < end ==> old(state.continuation) < state.continuation)
      && |r.value.records| <= state.request.pageEvents
      && (|r.value.records| <= 1 || BatchSize(r.value.records) <= state.request.pageBytes)
      && (!r.value.done ==> PageFull(state.request, r.value.records, Remaining(db.View(), state.request, state.continuation)))
  {
    hide PageFull, DbInv, Rebuild.Journaled, Salamander.LogHolds, LogReader.Pending, LogReader.Valid, PlanFilter, Filtered, M.Flat, Named, BatchSize;
    if state.cancelled {
      return Err(Cancelled);
    }
    var request, from := state.request, state.continuation;
    var plan := ReplayPlan(request.branch, WHOLE, Included(from), if request.until.Some? then At(request.until.value) else ToHead, None, false);
    var reader :- db.Read(plan, sidecars);
    ghost var view := db.View();
    ghost var end := EndOf(request, M.Head(view));
    ghost var all := Replayed(view, request.branch, from, end, WHOLE).value;
    ReplayAscends(view, request.branch, from, end);
    assert reader.Pending() == all;
    db.HeadIsLogHead();
    var page, k := FillPage(reader, request, from, if request.until.Some? then request.until.value else db.log.active.nextOffset, all);
    ResumedReplay(view, request, from, page.continuation, k);
    state.continuation := page.continuation;
    return Ok(page);
  }

  lemma ReplayAscends(db: M.Db, branch: Id, from: nat, until: nat)
    requires DbInv(db) && Replayed(db, branch, from, until, WHOLE).Ok?
    ensures var all := Replayed(db, branch, from, until, WHOLE).value;
      && (forall i :: 0 <= i < |all| ==> from <= all[i].position < until && all[i].kind == Event)
      && (forall i, j :: 0 <= i < j < |all| ==> all[i].position < all[j].position)
  {
    hide DbInv, M.Flat, ReplayScopes, Filtered, Dense;
    FlatIsDense(db);
    var f := PlanFilter(db.branches.byId, branch, from, until, WHOLE).value;
    var all := Filtered(f, M.Flat(db.batches));
    assert Replayed(db, branch, from, until, WHOLE).value == all;
    FilteredAscends(f, M.Flat(db.batches), 0);
    FilteredKinds(f, M.Flat(db.batches));
  }

  lemma {:induction false} FilteredKinds(f: Filter, rs: seq<Record>)
    requires f.selector.Valid() && f.kinds == UserEvents
    ensures forall i :: 0 <= i < |Filtered(f, rs)| ==> Filtered(f, rs)[i].kind == Event
    decreases |rs|
  {
    if rs != [] {
      FilteredKinds(f, rs[1..]);
    }
  }

  /** DRAINING: asking for page after page ends, and the pages together are the visible
      records of the stream in the window, whatever the page limits. */
  method ReplayAll(db: Salamander, state: ReaderState, sidecars: map<nat, Sidecar.Sidecar>) returns (records: seq<Record>)
    requires db.Valid() && LogReading.SidecarsOf(db.log.State(), sidecars) && state.request.pageEvents >= 1 && !state.cancelled
    requires state.request.branch in db.View().branches.byId && EndOf(state.request, M.Head(db.View())) <= M.Head(db.View())
    modifies state`continuation
    ensures Replayed(db.View(), state.request.branch, old(state.continuation), EndOf(state.request, M.Head(db.View())), WHOLE).Ok?
    ensures records == Remaining(db.View(), state.request, old(state.continuation))
    ensures state.continuation >= EndOf(state.request, M.Head(db.View()))
  {
    hide DbInv, Rebuild.Journaled, Salamander.LogHolds, Replayed, Remaining, M.Flat, BatchSize;
    records := [];
    ghost var view := db.View();
    ghost var end := EndOf(state.request, M.Head(view));
    ghost var from := state.continuation;
    KnownReplay(view, state.request.branch, from, end);
    var done := false;
    while !done
      invariant Replayed(view, state.request.branch, state.continuation, end, WHOLE).Ok?
      invariant Remaining(view, state.request, from) == records + Remaining(view, state.request, state.continuation)
      invariant done ==> state.continuation >= end
      decreases !done, Max(0, end - state.continuation)
    {
      var page := NextPage(db, state, sidecars);
      records := records + page.value.records;
      done := page.value.done;
    }
    NothingRemains(view, state.request, state.continuation);
  }

  lemma KnownReplay(db: M.Db, branch: Id, from: nat, until: nat)
    requires DbInv(db) && branch in db.branches.byId
    ensures Replayed(db, branch, from, until, WHOLE).Ok?
  {
    hide DbInv, Filtered, M.Flat, ReplayScopes;
    KnownBranch(db, branch, until);
  }

  lemma NothingRemains(db: M.Db, request: ReplayRequest, at: nat)
    requires DbInv(db) && Replayed(db, request.branch, at, EndOf(request, M.Head(db)), WHOLE).Ok? && at >= EndOf(request, M.Head(db))
    ensures Remaining(db, request, at) == []
  {
    hide DbInv, M.Flat, Replayed;
    ReplayAscends(db, request.branch, at, EndOf(request, M.Head(db)));
  }
}
