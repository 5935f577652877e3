/** The change feed: pages of whole durable batches over a log that keeps growing. */
module Feed {
  import opened Base
  import opened Format
  import opened RecordWalk
  import opened RecordWalkLaws
  import opened ReadPlan
  import opened Streams
  import opened AppendLaws
  import opened AppendSafety
  import M = AppendMachine
  import LM = LogMachine
  import Log
  import LogLaws
  import LogSafety
  import LogReading
  import BranchCatalogs
  import Sidecar
  import opened ReadEvidence
  import opened StreamingReader
  import opened Database

  // ── what a page holds ──────────────────────────────────────────────────

  /** Empty lists select everything. */
  datatype FeedFilter = FeedFilter(branches: seq<Id>, streams: seq<Id>, eventTypes: seq<EventType>)

  datatype CommittedBatch = CommittedBatch(
    databaseId: Id,
    batchId: Id,
    first: nat,
    last: nat,
    branchId: Id,
    streamIds: set<Id>,
    events: seq<Record>)

  datatype FeedPage = FeedPage(batches: seq<CommittedBatch>, continuation: nat, durableHead: nat)

  function MetadataBytes(m: seq<Format.Entry>): nat {
    if m == [] then 0 else |m[0].value| + MetadataBytes(m[1..])
  }

  function SizeOf(r: Record): nat {
    |r.payload| + MetadataBytes(r.envelope.metadata)
  }

  function BatchSize(events: seq<Record>): nat {
    if events == [] then 0 else SizeOf(events[0]) + BatchSize(events[1..])
  }

  predicate Wants(filter: FeedFilter, events: seq<Record>)
    requires events != []
  {
    && (filter.branches == [] || events[0].envelope.branchId in filter.branches)
    && (filter.streams == [] || exists i :: 0 <= i < |events| && events[i].envelope.streamId in filter.streams)
    && (filter.eventTypes == [] || exists i :: 0 <= i < |events| && events[i].envelope.eventType in filter.eventTypes)
  }

  function Committed(events: seq<Record>): CommittedBatch
    requires events != []
  {
    var first := events[0];
    CommittedBatch(first.envelope.databaseId, first.envelope.batchId, first.position, events[|events| - 1].position,
                   first.envelope.branchId, set r | r in events :: r.envelope.streamId, events)
  }

  ghost predicate AllSome(bs: seq<seq<Record>>) {
    forall k :: 0 <= k < |bs| ==> bs[k] != []
  }

  /** The batches a filter selects, whole and in order. */
  function Selection(filter: FeedFilter, bs: seq<seq<Record>>): seq<CommittedBatch>
    requires AllSome(bs)
    decreases |bs|
  {
    if bs == [] then []
    else (if Wants(filter, bs[0]) then [Committed(bs[0])] else []) + Selection(filter, bs[1..])
  }

  lemma {:induction false} SelectionConcat(filter: FeedFilter, a: seq<seq<Record>>, b: seq<seq<Record>>)
    requires AllSome(a) && AllSome(b)
    ensures AllSome(a + b) && Selection(filter, a + b) == Selection(filter, a) + Selection(filter, b)
    decreases |a|
  {
    hide Wants, Committed;
    if a == [] {
      assert a + b == b;
    } else {
      assert (a + b)[1..] == a[1..] + b;
      SelectionConcat(filter, a[1..], b);
    }
  }

  // ── filling a page ─────────────────────────────────────────────────────

  datatype Limits = Limits(batches: nat, bytes: nat)
  datatype Page = Page(output: seq<CommittedBatch>, bytes: nat)

  predicate NoRoom(page: Page, limits: Limits, size: nat) {
    page.output != [] && (|page.output| >= limits.batches || page.bytes + size > limits.bytes)
  }

  /** What one finished batch does to the page; `None` when it must wait for the next one. */
  function Finished(filter: FeedFilter, limits: Limits, page: Page, events: seq<Record>): Option<Page>
    requires events != []
  {
    if !Wants(filter, events) then Some(page)
    else if NoRoom(page, limits, BatchSize(events)) then None
    else Some(Page(page.output + [Committed(events)], page.bytes + BatchSize(events)))
  }

  /** The bytes of the batches on a page. */
  function OutputBytes(output: seq<CommittedBatch>): nat
    decreases |output|
  {
    if output == [] then 0 else OutputBytes(output[..|output| - 1]) + BatchSize(output[|output| - 1].events)
  }

  /** How many batches a page takes in, and what it then holds. */
  function Filled(filter: FeedFilter, limits: Limits, page: Page, bs: seq<seq<Record>>): (r: (nat, Page))
    requires AllSome(bs)
    ensures r.0 <= |bs|
    decreases |bs|
  {
    if bs == [] then (0, page)
    else match Finished(filter, limits, page, bs[0])
      case None => (0, page)
      case Some(next) => var rest := Filled(filter, limits, next, bs[1..]); (rest.0 + 1, rest.1)
  }

  /** A page holds exactly the selection of the batches it took in. */
  lemma {:induction false} PageIsSelection(filter: FeedFilter, limits: Limits, page: Page, bs: seq<seq<Record>>)
    requires AllSome(bs)
    ensures var r := Filled(filter, limits, page, bs);
      r.1.output == page.output + Selection(filter, bs[..r.0])
    decreases |bs|
  {
    hide Wants, Committed, NoRoom, BatchSize;
    var r := Filled(filter, limits, page, bs);
    if bs != [] && Finished(filter, limits, page, bs[0]).Some? {
      var next := Finished(filter, limits, page, bs[0]).value;
      PageIsSelection(filter, limits, next, bs[1..]);
      assert bs[..r.0][0] == bs[0] && bs[..r.0][1..] == bs[1..][..r.0 - 1];
    } else {
      assert bs[..0] == [];
    }
  }

  /** A page counts its bytes truly, and it ends before a batch only if that batch is wanted
      and would take it over a limit. */
  lemma {:induction false} PageEndsWhenFull(filter: FeedFilter, limits: Limits, page: Page, bs: seq<seq<Record>>)
    requires AllSome(bs) && page.bytes == OutputBytes(page.output)
    ensures var (taken, full) := Filled(filter, limits, page, bs);
      && full.bytes == OutputBytes(full.output)
      && (taken < |bs| ==>
            && Wants(filter, bs[taken]) && full.output != []
            && (|full.output| + 1 > limits.batches || OutputBytes(full.output) + BatchSize(bs[taken]) > limits.bytes))
    decreases |bs|
  {
    hide Wants, Committed, BatchSize, Finished, Filled, OutputBytes;
    FilledUnfolds(filter, limits, page, bs);
    if bs != [] {
      FinishedCases(filter, limits, page, bs[0]);
      OutputSnoc(page.output, bs[0]);
      if Finished(filter, limits, page, bs[0]).Some? {
        PageEndsWhenFull(filter, limits, Finished(filter, limits, page, bs[0]).value, bs[1..]);
      }
    }
  }

  lemma FilledUnfolds(filter: FeedFilter, limits: Limits, page: Page, bs: seq<seq<Record>>)
    requires AllSome(bs)
    ensures Filled(filter, limits, page, bs) ==
      if bs == [] then (0, page)
      else match Finished(filter, limits, page, bs[0])
        case None => (0, page)
        case Some(next) => (Filled(filter, limits, next, bs[1..]).0 + 1, Filled(filter, limits, next, bs[1..]).1)
  {
    hide Finished;
  }

  /** A batch is passed over, taken in where there is room, or left for the next page. */
  lemma FinishedCases(filter: FeedFilter, limits: Limits, page: Page, events: seq<Record>)
    requires events != []
    ensures match Finished(filter, limits, page, events)
      case None =>
        && Wants(filter, events) && page.output != []
        && (|page.output| + 1 > limits.batches || page.bytes + BatchSize(events) > limits.bytes)
      case Some(next) =>
        || next == page
        || (&& next == Page(page.output + [Committed(events)], page.bytes + BatchSize(events))
            && (page.output == [] || (|page.output| < limits.batches && next.bytes <= limits.bytes)))
  {
    hide Wants, Committed, BatchSize;
  }

  lemma OutputSnoc(output: seq<CommittedBatch>, events: seq<Record>)
    requires events != []
    ensures OutputBytes(output + [Committed(events)]) == OutputBytes(output) + BatchSize(events)
  {
    hide BatchSize;
    assert (output + [Committed(events)])[..|output|] == output;
  }

  /** Limits bind unless the page is a single batch, and an empty page always takes one in. */
  lemma {:induction false} PageWithinLimits(filter: FeedFilter, limits: Limits, page: Page, bs: seq<seq<Record>>)
    requires AllSome(bs) && limits.batches >= 1
    requires page.bytes == OutputBytes(page.output)
    requires |page.output| <= limits.batches && (|page.output| <= 1 || OutputBytes(page.output) <= limits.bytes)
    ensures var r := Filled(filter, limits, page, bs);
      |r.1.output| <= limits.batches && (|r.1.output| <= 1 || OutputBytes(r.1.output) <= limits.bytes)
    ensures page.output == [] && bs != [] ==> Filled(filter, limits, page, bs).0 > 0
    decreases |bs|
  {
    hide Wants, Committed, BatchSize, Finished, Filled, OutputBytes;
    FilledUnfolds(filter, limits, page, bs);
    if bs != [] {
      FinishedCases(filter, limits, page, bs[0]);
      OutputSnoc(page.output, bs[0]);
      if Finished(filter, limits, page, bs[0]).Some? {
        PageWithinLimits(filter, limits, Finished(filter, limits, page, bs[0]).value, bs[1..]);
      }
    }
  }

  /** One pass over a batch: what of it matches, and its size. */
  method Survey(filter: FeedFilter, events: seq<Record>) returns (anyStream: bool, anyType: bool, bytes: nat)
    ensures anyStream == exists k :: 0 <= k < |events| && events[k].envelope.streamId in filter.streams
    ensures anyType == exists k :: 0 <= k < |events| && events[k].envelope.eventType in filter.eventTypes
    ensures bytes == BatchSize(events)
  {
    hide SizeOf;
    anyStream, anyType, bytes := false, false, 0;
    for i := 0 to |events|
      invariant anyStream == exists k :: 0 <= k < i && events[k].envelope.streamId in filter.streams
      invariant anyType == exists k :: 0 <= k < i && events[k].envelope.eventType in filter.eventTypes
      invariant bytes + BatchSize(events[i..]) == BatchSize(events)
    {
      if events[i].envelope.streamId in filter.streams {
        anyStream := true;
      }
      if events[i].envelope.eventType in filter.eventTypes {
        anyType := true;
      }
      assert events[i..][1..] == events[i + 1..];
      bytes := bytes + SizeOf(events[i]);
    }
    assert events[|events|..] == [];
  }

  method FinishBatch(filter: FeedFilter, limits: Limits, page: Page, events: seq<Record>) returns (taken: bool, next: Page)
    requires events != []
    ensures taken == Finished(filter, limits, page, events).Some?
    ensures taken ==> next == Finished(filter, limits, page, events).value
  {
    var anyStream, anyType, bytes := Survey(filter, events);
    var selected := (filter.branches == [] || events[0].envelope.branchId in filter.branches)
      && (filter.streams == [] || anyStream) && (filter.eventTypes == [] || anyType);
    if !selected {
      return true, page;
    }
    if page.output != [] && (|page.output| >= limits.batches || page.bytes + bytes > limits.bytes) {
      return false, page;
    }
    return true, Page(page.output + [Committed(events)], page.bytes + bytes);
  }

  // ── grouping a stream of records into batches ──────────────────────────

  predicate SameId(rs: seq<Record>) {
    forall i :: 0 <= i < |rs| ==> rs[i].envelope.batchId == rs[0].envelope.batchId
  }

  /** How many leading records share the first one's batch; `n` are known to. */
  function RunLength(rs: seq<Record>, n: nat): (length: nat)
    requires 0 < n <= |rs| && SameId(rs[..n])
    ensures n <= length <= |rs| && SameId(rs[..length])
    ensures length < |rs| ==> rs[length].envelope.batchId != rs[0].envelope.batchId
    decreases |rs| - n
  {
    if n == |rs| || rs[n].envelope.batchId != rs[0].envelope.batchId then n
    else RunLength(rs, n + 1)
  }

  /** Consecutive records of one batch ID, taken together. */
  function Groups(rs: seq<Record>): (gs: seq<seq<Record>>)
    ensures AllSome(gs)
    decreases |rs|
  {
    if rs == [] then []
    else [rs[..RunLength(rs, 1)]] + Groups(rs[RunLength(rs, 1)..])
  }

  lemma FirstGroup(rs: seq<Record>, n: nat)
    requires 0 < n <= |rs| && SameId(rs[..n])
    requires n < |rs| ==> rs[n].envelope.batchId != rs[0].envelope.batchId
    ensures Groups(rs) == [rs[..n]] + Groups(rs[n..])
  {
    var length := RunLength(rs, 1);
    assert forall i :: 0 <= i < n ==> rs[..n][i] == rs[i];
    assert forall i :: 0 <= i < length ==> rs[..length][i] == rs[i];
    assert length == n;
  }

  /** Batches whose IDs tell neighbours apart are found again from their flat records. */
  lemma {:induction false} GroupsOfBatches(bs: M.Batches)
    requires AllSome(bs) && forall k :: 0 <= k < |bs| ==> SameId(bs[k])
    requires forall k :: 0 <= k < |bs| - 1 ==> bs[k][0].envelope.batchId != bs[k + 1][0].envelope.batchId
    ensures Groups(M.Flat(bs)) == bs
    decreases |bs|
  {
    if bs != [] {
      FlatFront(bs);
      var rs, n := M.Flat(bs), |bs[0]|;
      assert rs[..n] == bs[0] && rs[n..] == M.Flat(bs[1..]);
      GroupsOfBatches(bs[1..]);
      if n < |rs| {
        FlatFront(bs[1..]);
        assert bs[1..] != [] ==> rs[n] == bs[1][0];
      }
      FirstGroup(rs, n);
    }
  }

  lemma {:induction false} FlatFront(bs: M.Batches)
    ensures bs == [] ==> M.Flat(bs) == []
    ensures bs != [] ==> M.Flat(bs) == bs[0] + M.Flat(bs[1..])
    decreases |bs|
  {
    if |bs| > 1 {
      FlatFront(bs[..|bs| - 1]);
      assert bs[..|bs| - 1][1..] == bs[1..][..|bs| - 2];
    } else if |bs| == 1 {
      assert bs[..0] == [] && bs[1..] == [];
    }
  }

  // ── one page ───────────────────────────────────────────────────────────

  const EMPTY_PAGE := Page([], 0)

  /** The page over a window of records and how many of them it takes in. */
  function PageOver(filter: FeedFilter, limits: Limits, window: seq<Record>): (Page, nat) {
    var filled := Filled(filter, limits, EMPTY_PAGE, Groups(window));
    (filled.1, |M.Flat(Groups(window)[..filled.0])|)
  }

  class FeedState {
    const filter: FeedFilter
    const limits: Limits
    var continuation: nat
    var cancelled: bool

    constructor (filter: FeedFilter, limits: Limits, from: nat)
      ensures this.filter == filter && this.limits == limits && continuation == from && !cancelled
    {
      this.filter, this.limits, continuation, cancelled := filter, limits, from, false;
    }
  }

  const MAX_REPLAY_PAGE_EVENTS := 4096
  const MAX_REPLAY_PAGE_BYTES := 16 * 1024 * 1024

  /** Limits are checked before the position: a feed starts at most at the durable head. */
  method OpenFeed(db: Salamander, filter: FeedFilter, limits: Limits, from: nat) returns (r: Result<FeedState>)
    ensures r.Err? && r.error == ResourceLimit <==>
      limits.batches == 0 || limits.batches > MAX_REPLAY_PAGE_EVENTS || limits.bytes == 0 || limits.bytes > MAX_REPLAY_PAGE_BYTES
    ensures r.Err? ==> r.error == ResourceLimit || (r.error == InvalidArgument && from > db.durableHead)
    ensures r.Ok? ==>
      && fresh(r.value) && r.value.continuation == from <= db.durableHead && !r.value.cancelled
      && r.value.filter == filter && r.value.limits == limits
  {
    if limits.batches == 0 || limits.batches > MAX_REPLAY_PAGE_EVENTS {
      return Err(ResourceLimit);
    }
    if limits.bytes == 0 || limits.bytes > MAX_REPLAY_PAGE_BYTES {
      return Err(ResourceLimit);
    }
    if from > db.durableHead {
      return Err(InvalidArgument);
    }
    var state := new FeedState(filter, limits, from);
    return Ok(state);
  }

  /** Between two batches: `n` groups, `start` records, are in the page or passed over. */
  ghost predicate Walking(filter: FeedFilter, limits: Limits, window: seq<Record>, page: Page, start: nat, n: nat) {
    && start <= |window| && n <= |Groups(window)|
    && Groups(window)[n..] == Groups(window[start..]) && |M.Flat(Groups(window)[..n])| == start
    && var rest := Filled(filter, limits, page, Groups(window)[n..]);
       Filled(filter, limits, EMPTY_PAGE, Groups(window)) == (n + rest.0, rest.1)
  }

  /** The records pulled since then belong to one batch. */
  ghost predicate Gathered(window: seq<Record>, current: seq<Record>, start: nat, seen: nat) {
    start <= seen <= |window| && current == window[start..seen] && SameId(current)
  }

  lemma StartsWalking(filter: FeedFilter, limits: Limits, window: seq<Record>)
    ensures Walking(filter, limits, window, EMPTY_PAGE, 0, 0) && Gathered(window, [], 0, 0)
  {
    hide Filled;
    assert window[0..] == window && Groups(window)[0..] == Groups(window) && Groups(window)[..0] == [];
  }

  lemma GathersOne(window: seq<Record>, current: seq<Record>, start: nat, seen: nat)
    requires Gathered(window, current, start, seen) && seen < |window|
    requires current != [] ==> window[seen].envelope.batchId == current[0].envelope.batchId
    ensures Gathered(window, current + [window[seen]], start, seen + 1)
  {
  }

  /** The whole window is walked, or the page is full: the page is what it should be. */
  lemma WalkEnds(filter: FeedFilter, limits: Limits, window: seq<Record>, page: Page, start: nat, n: nat)
    requires Walking(filter, limits, window, page, start, n)
    requires n < |Groups(window)| ==> Finished(filter, limits, page, Groups(window)[n]).None?
    ensures PageOver(filter, limits, window) == (page, start)
  {
    hide Groups, Finished;
    assert n < |Groups(window)| ==> Groups(window)[n..][0] == Groups(window)[n];
  }

  /** The gathered records are a whole batch when the next one differs or there is none. */
  lemma BatchIsWhole(filter: FeedFilter, limits: Limits, window: seq<Record>, page: Page, current: seq<Record>, start: nat, seen: nat, n: nat)
    requires Walking(filter, limits, window, page, start, n) && Gathered(window, current, start, seen) && current != []
    requires seen < |window| ==> window[seen].envelope.batchId != current[0].envelope.batchId
    ensures n < |Groups(window)| && Groups(window)[n] == current
    ensures Groups(window)[n + 1..] == Groups(window[seen..]) && |M.Flat(Groups(window)[..n + 1])| == seen
  {
    hide Filled, Groups;
    var rest := window[start..];
    assert rest[..|current|] == current && rest[|current|..] == window[seen..];
    FirstGroup(rest, |current|);
    var gs := Groups(window);
    assert gs[n..][0] == current && gs[n..][1..] == gs[n + 1..];
    assert gs[..n + 1] == gs[..n] + [current];
    FlatSnoc(gs[..n], current);
  }

  /** Finish the gathered batch: the walk goes on behind it, or the page ends before it. */
  method Absorb(filter: FeedFilter, limits: Limits, page: Page, current: seq<Record>, ghost window: seq<Record>,
                ghost from: nat, ghost start: nat, ghost seen: nat, ghost n: nat) returns (taken: bool, next: Page, at: nat)
    requires forall i :: 0 <= i < |window| ==> window[i].position == from + i
    requires Walking(filter, limits, window, page, start, n) && Gathered(window, current, start, seen) && current != []
    requires seen < |window| ==> window[seen].envelope.batchId != current[0].envelope.batchId
    ensures taken ==> Walking(filter, limits, window, next, seen, n + 1) && Gathered(window, [], seen, seen)
    ensures taken && seen == |window| ==> PageOver(filter, limits, window) == (next, seen)
    ensures !taken ==> PageOver(filter, limits, window) == (page, start)
    ensures at == from + if taken then seen else start
  {
    hide Finished, Groups, Filled, PageOver;
    at := current[0].position;
    BatchIsWhole(filter, limits, window, page, current, start, seen, n);
    FilledStep(filter, limits, page, Groups(window), n);
    taken, next := FinishBatch(filter, limits, page, current);
    if !taken {
      WalkEnds(filter, limits, window, page, start, n);
    } else {
      at := current[|current| - 1].position + 1;
      if seen == |window| {
        NoGroups();
        assert window[seen..] == [];
        WalkEnds(filter, limits, window, next, seen, n + 1);
      }
    }
  }

  /** The next record below the durable head, if there is one. */
  method Pull(reader: LogReader, durable: nat, ghost rs: seq<Record>, ghost p: nat) returns (record: Option<Record>)
    requires reader.Valid() && reader.intact && !reader.finished && p <= durable <= |rs| && reader.Pending() == rs[p..]
    requires forall i :: 0 <= i < |rs| ==> rs[i].position == i
    modifies reader, reader.cursor
    ensures p < durable ==> reader.Valid() && (reader.cursor == null || reader.cursor == old(reader.cursor) || fresh(reader.cursor))
    ensures p < durable ==> record == Some(rs[p]) && !reader.finished && reader.Pending() == rs[p + 1..]
    ensures p == durable ==> record == None
  {
    hide LogReader.Pending, InStep, Traced;
    ghost var pending := reader.Pending();
    assert pending != [] ==> pending[0] == rs[p] && pending[1..] == rs[p + 1..];
    var next := reader.Next();
    if next.value.None? || next.value.value.position >= durable {
      return None;
    }
    return next.value;
  }

  lemma NoGroups()
    ensures Groups([]) == []
  {
  }

  lemma FilledStep(filter: FeedFilter, limits: Limits, page: Page, gs: seq<seq<Record>>, n: nat)
    requires AllSome(gs) && n < |gs|
    ensures Filled(filter, limits, page, gs[n..]) ==
      match Finished(filter, limits, page, gs[n])
      case None => (0, page)
      case Some(next) => (1 + Filled(filter, limits, next, gs[n + 1..]).0, Filled(filter, limits, next, gs[n + 1..]).1)
  {
    hide Finished;
    assert gs[n..][0] == gs[n] && gs[n..][1..] == gs[n + 1..];
  }

  /** Pull records up to the durable head and close each batch when the next one begins. */
  method FillPage(reader: LogReader, filter: FeedFilter, limits: Limits, from: nat, durable: nat, ghost rs: seq<Record>)
    returns (page: Page, continuation: nat)
    requires reader.Valid() && reader.intact && reader.cursor == null && !reader.finished
    requires from <= durable <= |rs| && reader.Pending() == rs[from..] && forall i :: 0 <= i < |rs| ==> rs[i].position == i
    modifies reader
    ensures PageOver(filter, limits, rs[from..durable]) == (page, continuation - from) && from <= continuation <= durable
  {
    hide LogReader.Pending, LogReader.Valid, Walking, PageOver, SameId;
    ReaderParts(reader);
    ghost var window := rs[from..durable];
    page, continuation := EMPTY_PAGE, from;
    var current: seq<Record> := [];
    ghost var start, seen, n := 0, 0, 0;
    StartsWalking(filter, limits, window);
    while true
      invariant reader.Valid() && reader.intact && (reader.cursor == null || fresh(reader.cursor)) && !reader.finished
      invariant reader.filter.selector.Valid()
      invariant seen <= |window| && reader.Pending() == rs[from + seen..]
      invariant Walking(filter, limits, window, page, start, n) && Gathered(window, current, start, seen)
      invariant continuation == from + start && (current == [] ==> seen == 0 && page == EMPTY_PAGE)
      decreases |window| - seen
    {
      var next := Pull(reader, durable, rs, from + seen);
      if next.None? {
        break;
      }
      if current != [] && current[0].envelope.batchId != next.value.envelope.batchId {
        var taken, filled, at := Absorb(filter, limits, page, current, window, from, start, seen, n);
        if !taken {
          return page, at;
        }
        page, continuation, current := filled, at, [];
        start, n := seen, n + 1;
      }
      GathersOne(window, current, start, seen);
      current := current + [next.value];
      seen := seen + 1;
    }
    page, continuation := EndPage(filter, limits, page, current, window, from, durable, start, seen, n, continuation);
  }

  /** The window is exhausted: close the last batch. */
  method EndPage(filter: FeedFilter, limits: Limits, page: Page, current: seq<Record>, ghost window: seq<Record>, from: nat, durable: nat,
                 ghost start: nat, ghost seen: nat, ghost n: nat, at: nat) returns (last: Page, continuation: nat)
    requires from <= durable && |window| == durable - from == seen && at == from + start && (current == [] ==> seen == 0 && page == EMPTY_PAGE)
    requires forall i :: 0 <= i < |window| ==> window[i].position == from + i
    requires Walking(filter, limits, window, page, start, n) && Gathered(window, current, start, seen)
    ensures PageOver(filter, limits, window) == (last, continuation - from) && from <= continuation <= durable
  {
    hide Walking, PageOver, SameId;
    if current != [] {
      var taken, filled, end := Absorb(filter, limits, page, current, window, from, start, seen, n);
      return if taken then filled else page, end;
    }
    WalkedNothing(filter, limits, window);
    return page, Max(at, durable);
  }

  method NextPage(db: Salamander, state: FeedState, sidecars: map<nat, Sidecar.Sidecar>) returns (r: Result<FeedPage>)
    requires db.LogHolds() && LogReading.SidecarsOf(db.log.State(), sidecars) && state.continuation <= db.durableHead
    modifies state`continuation
    ensures db.durableHead <= |M.Flat(db.batches)|
    ensures state.cancelled ==> r == Err(Cancelled) && state.continuation == old(state.continuation)
    ensures !state.cancelled ==>
      var page := PageOver(state.filter, state.limits, M.Flat(db.batches)[old(state.continuation)..db.durableHead]);
      && r == Ok(FeedPage(page.0.output, state.continuation, db.durableHead))
      && state.continuation == old(state.continuation) + page.1 <= db.durableHead
  {
    hide LogReader.Pending, LogReader.Valid, Salamander.LogHolds, PageOver, M.Flat;
    LogBounds(db);
    if state.cancelled {
      return Err(Cancelled);
    }
    var reader := OpenReader(db, state.continuation, sidecars);
    var page, continuation := FillPage(reader, state.filter, state.limits, state.continuation, db.durableHead, M.Flat(db.batches));
    state.continuation := continuation;
    return Ok(FeedPage(page.output, continuation, db.durableHead));
  }

  lemma WalkedNothing(filter: FeedFilter, limits: Limits, window: seq<Record>)
    ensures window == [] ==> PageOver(filter, limits, window) == (EMPTY_PAGE, 0)
  {
  }

  method OpenReader(db: Salamander, from: nat, sidecars: map<nat, Sidecar.Sidecar>) returns (reader: LogReader)
    requires db.LogHolds() && LogReading.SidecarsOf(db.log.State(), sidecars) && from <= db.durableHead
    ensures fresh(reader) && reader.Valid() && reader.intact && reader.cursor == null && !reader.finished && reader.filter.selector.Valid()
    ensures db.durableHead <= |M.Flat(db.batches)| && reader.Pending() == M.Flat(db.batches)[from..]
    ensures forall p :: 0 <= p < |M.Flat(db.batches)| ==> M.Flat(db.batches)[p].position == p
  {
    hide LogReader.Pending, LogReader.Valid, LM.Readable, Filtered, M.Flat, LM.LogInv, Log.Log.Valid, Limited, LogReading.SidecarsOf;
    db.HeadIsLogHead();
    LogBounds(db);
    NoLimit(Filtered(RawFilter(from, db.log.active.nextOffset, UserEvents), M.Flat(db.batches)));
    db.LogIsReadable();
    LogLaws.ReadableShape(db.log.State());
    var filter := RawFilter(from, db.log.active.nextOffset, UserEvents);
    reader := LogReading.PlanReader(db.log, filter, sidecars);
    RawReadsTail(M.Flat(db.batches), from, db.log.active.nextOffset, 0);
  }

  lemma LogBounds(db: Salamander)
    requires db.LogHolds()
    ensures db.durableHead <= |M.Flat(db.batches)|
    ensures forall p :: 0 <= p < |M.Flat(db.batches)| ==> M.Flat(db.batches)[p].position == p
  {
    hide LM.Readable, M.Flat, LM.LogInv, Log.Log.Valid;
    db.HeadIsLogHead();
    db.LogIsReadable();
    LogLaws.ReadableShape(db.log.State());
    LogSafety.InvParts(db.log.State());
  }

  // ── completeness over whole runs ───────────────────────────────────────

  lemma NoBatches()
    ensures M.Flat([]) == []
  {
  }

  lemma {:induction false} FlatSlice(bs: M.Batches, i: nat, j: nat)
    requires i <= j <= |bs|
    ensures M.Flat(bs[..j]) == M.Flat(bs[..i]) + M.Flat(bs[i..j])
    decreases j
  {
    hide M.Flat;
    if i == j {
      assert bs[i..j] == [];
      NoBatches();
    } else {
      FlatSlice(bs, i, j - 1);
      StartNext(bs, j - 1);
      assert bs[i..j] == bs[i..j - 1] + [bs[j - 1]];
      FlatSnoc(bs[i..j - 1], bs[j - 1]);
    }
  }

  lemma WindowOf(bs: M.Batches, i: nat, j: nat)
    requires i <= j <= |bs|
    ensures M.Start(bs, i) <= M.Start(bs, j) <= |M.Flat(bs)|
    ensures M.Flat(bs)[M.Start(bs, i)..M.Start(bs, j)] == M.Flat(bs[i..j])
  {
    FlatSlice(bs, i, j);
    FlatSlice(bs, j, |bs|);
    WholeFlat(bs);
  }

  /** Stored batches are what grouping their records by batch ID finds. */
  lemma GroupsOfStored(db: M.Db, i: nat, j: nat)
    requires DbInv(db) && i <= j <= |db.batches|
    ensures AllSome(db.batches[i..j]) && Groups(M.Flat(db.batches[i..j])) == db.batches[i..j]
  {
    hide StreamsIndexed, StreamIdsIndexed, EventsIndexed, KeysIndexed, BranchCatalogs.ValidBranches, OnBranches, ForksAtBoundaries, IsBoundary,
         M.Flat, Groups, Placed, ReceiptIndexed;
    var bs := db.batches[i..j];
    forall k | 0 <= k < |bs| ensures bs[k] != [] && SameId(bs[k]) {
      StoredHasOneId(db.batches, i + k);
    }
    GroupsOfBatches(bs);
  }

  lemma StoredHasOneId(batches: M.Batches, k: nat)
    requires AllPlaced(batches) && k < |batches|
    ensures batches[k] != [] && SameId(batches[k])
  {
    hide M.Flat, StreamNameOf, CountIn, NameIn;
    assert Placed(batches, k);
  }

  /** One page over stored batches from one boundary to another: it takes in whole batches
      and holds exactly the selected ones among them. */
  lemma PageOfStored(db: M.Db, filter: FeedFilter, limits: Limits, i: nat, j: nat) returns (t: nat)
    requires DbInv(db) && i <= j <= |db.batches| && limits.batches >= 1
    ensures M.Start(db.batches, i) <= M.Start(db.batches, j) <= |M.Flat(db.batches)|
    ensures var page := PageOver(filter, limits, M.Flat(db.batches)[M.Start(db.batches, i)..M.Start(db.batches, j)]);
      && i <= t <= j && (i < j ==> i < t) && AllSome(db.batches[i..t])
      && page.0.output == Selection(filter, db.batches[i..t])
      && M.Start(db.batches, i) + page.1 == M.Start(db.batches, t)
      && |page.0.output| <= limits.batches && (|page.0.output| <= 1 || OutputBytes(page.0.output) <= limits.bytes)
      && (t < j ==> |page.0.output| + 1 > limits.batches || OutputBytes(page.0.output) + BatchSize(db.batches[t]) > limits.bytes)
  {
    hide DbInv, M.Flat, Groups, Selection, Filled, M.Start, OutputBytes, BatchSize, Wants;
    NoOutput();
    WindowOf(db.batches, i, j);
    GroupsOfStored(db, i, j);
    var bs := db.batches[i..j];
    var taken := Filled(filter, limits, EMPTY_PAGE, bs).0;
    PageIsSelection(filter, limits, EMPTY_PAGE, bs);
    PageWithinLimits(filter, limits, EMPTY_PAGE, bs);
    PageEndsWhenFull(filter, limits, EMPTY_PAGE, bs);
    t := i + taken;
    assert bs[..taken] == db.batches[i..t];
    assert [] + Selection(filter, bs[..taken]) == Selection(filter, bs[..taken]);
    WindowOf(db.batches, i, t);
  }

  lemma NoOutput()
    ensures OutputBytes(EMPTY_PAGE.output) == EMPTY_PAGE.bytes == 0
  {
  }

  /** A feed over a database: where it stands and what it has delivered. */
  datatype FeedRun = FeedRun(db: M.Db, at: nat, delivered: seq<CommittedBatch>)
  datatype FeedStep = Work(op: M.Op) | TakePage(limits: Limits)

  ghost predicate CanStep(s: FeedRun, step: FeedStep) {
    match step
    case Work(op) => M.Enabled(s.db, op)
    case TakePage(limits) => limits.batches >= 1 && s.at <= s.db.durable <= M.Head(s.db)
  }

  ghost function Stepped(filter: FeedFilter, s: FeedRun, step: FeedStep): FeedRun
    requires CanStep(s, step)
  {
    match step
    case Work(op) => s.(db := M.Apply(s.db, op))
    case TakePage(limits) =>
      var page := PageOver(filter, limits, M.Flat(s.db.batches)[s.at..s.db.durable]);
      FeedRun(s.db, s.at + page.1, s.delivered + page.0.output)
  }

  ghost predicate RunsFrom(filter: FeedFilter, s: FeedRun, steps: seq<FeedStep>)
    decreases |steps|
  {
    steps == [] || (CanStep(s, steps[0]) && RunsFrom(filter, Stepped(filter, s, steps[0]), steps[1..]))
  }

  ghost function RunTo(filter: FeedFilter, s: FeedRun, steps: seq<FeedStep>): FeedRun
    requires RunsFrom(filter, s, steps)
    decreases |steps|
  {
    if steps == [] then s else RunTo(filter, Stepped(filter, s, steps[0]), steps[1..])
  }

  /** Delivered so far: the selected batches from `i` up to the feed's position, which is a
      batch boundary no further than the durable head. */
  ghost predicate Complete(filter: FeedFilter, s: FeedRun, i: nat) {
    && DbInv(s.db) && s.at <= s.db.durable <= M.Head(s.db)
    && exists k :: CompleteUpTo(filter, s, i, k)
  }

  ghost predicate CompleteUpTo(filter: FeedFilter, s: FeedRun, i: nat, k: nat) {
    && i <= k <= |s.db.batches| && M.Start(s.db.batches, k) == s.at
    && AllSome(s.db.batches[i..k]) && s.delivered == Selection(filter, s.db.batches[i..k])
  }

  lemma WorkKeepsComplete(filter: FeedFilter, s: FeedRun, op: M.Op, i: nat)
    requires Complete(filter, s, i) && M.Enabled(s.db, op)
    ensures Complete(filter, s.(db := M.Apply(s.db, op)), i)
  {
    hide DbInv, M.Apply, M.Enabled, M.Flat, Selection, CatalogGrows;
    StepKeeps(s.db, op);
    var next := M.Apply(s.db, op);
    NothingGrows(next);
    var k: nat :| CompleteUpTo(filter, s, i, k);
    assert next.batches[..k] == s.db.batches[..k] by {
      assert next.batches[..|s.db.batches|][..k] == next.batches[..k];
    }
    assert next.batches[i..k] == next.batches[..k][i..] == s.db.batches[..k][i..] == s.db.batches[i..k];
    assert CompleteUpTo(filter, s.(db := next), i, k);
  }

  lemma PageKeepsComplete(filter: FeedFilter, s: FeedRun, limits: Limits, i: nat)
    requires Complete(filter, s, i) && limits.batches >= 1
    ensures var next := Stepped(filter, s, TakePage(limits));
      Complete(filter, next, i) && next.at >= s.at && (s.at < s.db.durable ==> next.at > s.at)
  {
    hide DbInv, M.Flat, Selection, M.Start, PageOver;
    var bs := s.db.batches;
    var k: nat :| CompleteUpTo(filter, s, i, k);
    var j := DurableBatch(s.db, k);
    var t := PageOfStored(s.db, filter, limits, k, j);
    WindowOf(bs, t, j);
    SelectionConcat(filter, bs[i..k], bs[k..t]);
    assert bs[i..k] + bs[k..t] == bs[i..t];
    assert CompleteUpTo(filter, Stepped(filter, s, TakePage(limits)), i, t);
    if k < t {
      StartsRise(s.db, k, t);
    }
  }

  lemma StartsRise(db: M.Db, k: nat, t: nat)
    requires DbInv(db) && k < t <= |db.batches|
    ensures M.Start(db.batches, k) < M.Start(db.batches, t)
  {
    hide CatalogIndexes, BranchCatalogs.ValidBranches, OnBranches, ForksAtBoundaries, IsBoundary, M.Flat, Placed;
    StartNext(db.batches, k);
    StartsAscend(db.batches, k + 1, t);
  }

  /** The durable head is the boundary behind some batch at or after the feed's position. */
  lemma DurableBatch(db: M.Db, k: nat) returns (j: nat)
    requires DbInv(db) && k <= |db.batches| && M.Start(db.batches, k) <= db.durable
    ensures k <= j <= |db.batches| && M.Start(db.batches, j) == db.durable
  {
    hide CatalogIndexes, BranchCatalogs.ValidBranches, OnBranches, ForksAtBoundaries, M.Flat, AllPlaced, M.Start;
    j :| 0 <= j <= |db.batches| && M.Start(db.batches, j) == db.durable;
    if j < k {
      WindowOf(db.batches, j, k);
      j := k;
    }
  }

  /** FEED COMPLETENESS: however appends, commits, forks, archives and pages of any size
      interleave, the pages so far are exactly the selected batches from the starting
      boundary to the feed's position, in order, each whole and once. */
  lemma {:induction false} FeedDeliversEverything(filter: FeedFilter, s: FeedRun, steps: seq<FeedStep>, i: nat)
    requires Complete(filter, s, i) && RunsFrom(filter, s, steps)
    ensures Complete(filter, RunTo(filter, s, steps), i)
    decreases |steps|
  {
    hide Complete, PageOver, M.Apply, M.Enabled;
    if steps != [] {
      match steps[0] {
        case Work(op) => WorkKeepsComplete(filter, s, op, i);
        case TakePage(limits) => PageKeepsComplete(filter, s, limits, i);
      }
      FeedDeliversEverything(filter, Stepped(filter, s, steps[0]), steps[1..], i);
    }
  }

  /** A feed that has caught up has delivered every selected durable batch. */
  lemma CaughtUp(filter: FeedFilter, s: FeedRun, i: nat) returns (j: nat)
    requires Complete(filter, s, i) && s.at == s.db.durable
    ensures i <= j <= |s.db.batches| && M.Start(s.db.batches, j) == s.db.durable
    ensures AllSome(s.db.batches[i..j]) && s.delivered == Selection(filter, s.db.batches[i..j])
  {
    hide DbInv, Selection;
    j :| CompleteUpTo(filter, s, i, j);
  }
}
