/** Planning a read over the log, and the refinement: whatever the segment layout,
    whichever sidecars exist and whatever retention reclaimed, the streaming reader
    yields the plain filter of the readable events. */
module LogReading {
  import opened Base
  import opened Format
  import opened RecordWalk
  import opened RecordWalkLaws
  import opened LogMachine
  import opened LogLaws
  import opened LogSafety
  import Log
  import opened Continuity
  import opened ReadPlan
  import opened Sidecar
  import opened StreamingReader
  import opened ReadEvidence

  // ── planning ───────────────────────────────────────────────────────────

  /** The `i`-th segment as the planner sees it; its end is the next one's base. */
  function PlannedSegment(s: LogState, i: nat): Planned
    requires i < |Segs(s)|
  {
    Planned(Segs(s)[i].base, if i < |s.closed| then Segs(s)[i + 1].base else Head(s), Image(Segs(s)[i].units), i < |s.closed|)
  }

  function PlanRange(s: LogState, f: Filter): (r: (nat, nat))
    ensures r.0 <= r.1 <= |Segs(s)|
  {
    if f.kinds == SystemOnly then (0, |Segs(s)|)
    else IntersectingRange(Bases(Segs(s)), Head(s), f.from, f.until)
  }

  function Plan(s: LogState, f: Filter): seq<Planned> {
    var r := PlanRange(s, f);
    seq(r.1 - r.0, i requires 0 <= i < r.1 - r.0 => PlannedSegment(s, r.0 + i))
  }

  function FramesOf(gs: seq<Seg>): (fss: seq<seq<Frame>>)
    ensures |fss| == |gs| && forall i :: 0 <= i < |gs| ==> fss[i] == Frames(gs[i].units)
  {
    seq(|gs|, i requires 0 <= i < |gs| => Frames(gs[i].units))
  }

  function PlanFrames(s: LogState, f: Filter): seq<seq<Frame>> {
    var r := PlanRange(s, f);
    FramesOf(Segs(s)[r.0..r.1])
  }

  /** Reads at or above the floor, or of the system frames of a log nothing was reclaimed from. */
  ghost predicate Answerable(s: LogState, f: Filter) {
    && f.selector.Valid()
    && (f.kinds == UserEvents ==> f.from >= s.floor)
    && (f.kinds == SystemOnly ==> f.from == 0 && f.until >= Head(s) && forall i :: 0 <= i < |Segs(s)| ==> Segs(s)[i].base >= s.floor)
  }

  // ── selection over frames is filtering of events ──────────────────────

  lemma {:induction false} FilteredNone(f: Filter, rs: seq<Record>)
    requires f.selector.Valid() && f.kinds == UserEvents
    requires forall i :: 0 <= i < |rs| ==> rs[i].position >= f.until || rs[i].position < f.from
    ensures Filtered(f, rs) == []
    decreases |rs|
  {
    if rs != [] {
      FilteredNone(f, rs[1..]);
    }
  }

  lemma InEventsOf(fs: seq<Frame>, i: nat)
    requires i < |EventsIn(fs)|
    ensures exists x :: x in fs && x.rec == EventsIn(fs)[i] && x.rec.kind == Event
    decreases |fs|
  {
    assert fs == [fs[0]] + fs[1..];
    if fs[0].rec.kind == Event {
      if i > 0 {
        InEventsOf(fs[1..], i - 1);
      } else {
        assert fs[0] in fs;
      }
    } else {
      InEventsOf(fs[1..], i);
    }
  }

  /** Within one segment, stopping at the first event past the end loses nothing. */
  lemma PastTheFirst(f: Filter, events: seq<Record>, more: seq<Record>, end: nat)
    requires events != [] && PastEnd(f, events[0])
    requires forall i :: 0 <= i < |events| ==> events[0].position <= events[i].position < end
    requires forall i :: 0 <= i < |more| ==> more[i].position >= end
    ensures forall i :: 0 <= i < |events + more| ==> (events + more)[i].position >= f.until
  {
  }

  lemma {:induction false} SelectedSegment(f: Filter, c: Cont, fs: seq<Frame>, end: nat, rest: seq<Record>, restEvents: seq<Record>)
    requires f.selector.Valid() && f.kinds == UserEvents && Clean(c, fs, false, end)
    requires Selected(f, rest) == Filtered(f, restEvents)
    requires forall i :: 0 <= i < |restEvents| ==> restEvents[i].position >= end
    ensures Selected(f, Records(fs) + rest) == Filtered(f, EventsIn(fs) + restEvents)
    decreases |fs|
  {
    hide IsFrame, Advance, Passes, Selected, Filtered;
    if fs == [] {
      assert Records(fs) + rest == rest && EventsIn(fs) + restEvents == restEvents;
    } else {
      CleanIsDense(c, fs, false, end);
      SelectedSegment(f, Advance(c, fs[0], false).value, fs[1..], end, rest, restEvents);
      if fs[0].rec.kind != Event {
        PastNoEvent(f, fs, rest);
      } else if PastEnd(f, fs[0].rec) {
        StopsAtEvent(f, fs, end, rest, restEvents);
      } else {
        PastEvent(f, fs, rest, restEvents);
      }
    }
  }

  /** A frame that is no event is neither selected nor an event of the list. */
  lemma PastNoEvent(f: Filter, fs: seq<Frame>, rest: seq<Record>)
    requires f.selector.Valid() && f.kinds == UserEvents && fs != [] && fs[0].rec.kind != Event
    ensures Selected(f, Records(fs) + rest) == Selected(f, Records(fs[1..]) + rest) && EventsIn(fs) == EventsIn(fs[1..])
  {
    hide Records, Passes;
    RecordsStep(fs, rest);
    NotForUsers(f, fs[0].rec);
  }

  lemma NotForUsers(f: Filter, r: Record)
    requires f.selector.Valid() && f.kinds == UserEvents && r.kind != Event
    ensures !Passes(f, r) && !PastEnd(f, r)
  {
  }

  /** An event inside the window is kept by both or by neither. */
  lemma PastEvent(f: Filter, fs: seq<Frame>, rest: seq<Record>, restEvents: seq<Record>)
    requires f.selector.Valid() && f.kinds == UserEvents && fs != [] && fs[0].rec.kind == Event && !PastEnd(f, fs[0].rec)
    requires Selected(f, Records(fs[1..]) + rest) == Filtered(f, EventsIn(fs[1..]) + restEvents)
    ensures Selected(f, Records(fs) + rest) == Filtered(f, EventsIn(fs) + restEvents)
  {
    hide Passes, Selected, Filtered, PastEnd, Records, EventsIn;
    RecordsStep(fs, rest);
    EventsStep(fs, restEvents);
    SelectedStep(f, Records(fs) + rest);
    FilteredStep(f, EventsIn(fs) + restEvents);
  }

  lemma RecordsStep(fs: seq<Frame>, rest: seq<Record>)
    requires fs != []
    ensures var all := Records(fs) + rest; all[0] == fs[0].rec && all[1..] == Records(fs[1..]) + rest
  {
  }

  lemma EventsStep(fs: seq<Frame>, rest: seq<Record>)
    requires fs != [] && fs[0].rec.kind == Event
    ensures var events := EventsIn(fs) + rest; events != [] && events[0] == fs[0].rec && events[1..] == EventsIn(fs[1..]) + rest
  {
    assert EventsIn(fs) == [fs[0].rec] + EventsIn(fs[1..]);
  }

  lemma SelectedStep(f: Filter, rs: seq<Record>)
    requires f.selector.Valid() && rs != [] && !PastEnd(f, rs[0])
    ensures Selected(f, rs) == (if Passes(f, rs[0]) then [rs[0]] else []) + Selected(f, rs[1..])
  {
    hide Passes, PastEnd;
  }

  lemma FilteredStep(f: Filter, rs: seq<Record>)
    requires f.selector.Valid() && rs != [] && rs[0].kind == Event && !PastEnd(f, rs[0])
    ensures Filtered(f, rs) == (if Passes(f, rs[0]) then [rs[0]] else []) + Filtered(f, rs[1..])
  {
    hide Passes;
  }

  /** The first event at or past the end stops the read, and no later one is in the window. */
  lemma StopsAtEvent(f: Filter, fs: seq<Frame>, end: nat, rest: seq<Record>, restEvents: seq<Record>)
    requires f.selector.Valid() && f.kinds == UserEvents && fs != [] && fs[0].rec.kind == Event && PastEnd(f, fs[0].rec)
    requires forall i :: 0 <= i < |EventsIn(fs)| ==> EventsIn(fs)[0].position <= EventsIn(fs)[i].position < end
    requires forall i :: 0 <= i < |restEvents| ==> restEvents[i].position >= end
    ensures Selected(f, Records(fs) + rest) == Filtered(f, EventsIn(fs) + restEvents)
  {
    hide Passes, Filtered;
    assert (Records(fs) + rest)[0] == fs[0].rec;
    PastTheFirst(f, EventsIn(fs), restEvents, end);
    FilteredNone(f, EventsIn(fs) + restEvents);
  }

  /** Segments in order, each ending at or below the next one's base. */
  ghost predicate InOrder(gs: seq<Seg>) {
    && (forall i :: 0 <= i < |gs| ==> ValidUnits(gs[i].units, gs[i].base))
    && (forall i, j :: 0 <= i < j < |gs| ==> End(gs[i]) <= gs[j].base)
  }

  function EventsOf(gs: seq<Seg>): seq<Record> {
    if gs == [] then [] else Events(gs[0].units) + EventsOf(gs[1..])
  }

  lemma {:induction false} EventsOfBounds(gs: seq<Seg>, low: nat, high: nat)
    requires InOrder(gs) && forall i :: 0 <= i < |gs| ==> low <= gs[i].base && End(gs[i]) <= high
    ensures forall i :: 0 <= i < |EventsOf(gs)| ==> low <= EventsOf(gs)[i].position < high
    decreases |gs|
  {
    hide ValidUnits, Events;
    if gs != [] {
      EventsAreDense(gs[0].units, gs[0].base);
      EventsOfBounds(gs[1..], low, high);
    }
  }

  lemma {:induction false} SelectedSegments(f: Filter, gs: seq<Seg>)
    requires f.selector.Valid() && f.kinds == UserEvents && InOrder(gs)
    ensures Selected(f, AllRecords(FramesOf(gs))) == Filtered(f, EventsOf(gs))
    decreases |gs|
  {
    hide ValidUnits, Events, Frames, Clean, Selected, Filtered;
    SelectsNothing(f);
    if gs == [] {
      assert FramesOf(gs) == [];
    } else {
      var end := End(gs[0]);
      SelectedSegments(f, gs[1..]);
      assert FramesOf(gs)[1..] == FramesOf(gs[1..]);
      UnitsAreClean(gs[0].units, gs[0].base, false);
      EventsInFrames(gs[0].units, gs[0].base);
      var top := MaxEnd(gs[1..]);
      forall i | 0 <= i < |gs[1..]| ensures end <= gs[1..][i].base && End(gs[1..][i]) <= top {
      }
      EventsOfBounds(gs[1..], end, top);
      SelectedSegment(f, Cont(gs[0].base, None), Frames(gs[0].units), end, AllRecords(FramesOf(gs[1..])), EventsOf(gs[1..]));
    }
  }

  lemma SelectsNothing(f: Filter)
    requires f.selector.Valid()
    ensures Selected(f, []) == [] && Filtered(f, []) == []
  {
  }

  function MaxEnd(gs: seq<Seg>): (m: nat)
    ensures forall i :: 0 <= i < |gs| ==> End(gs[i]) <= m
  {
    if gs == [] then 0 else Max(End(gs[0]), MaxEnd(gs[1..]))
  }

  // ── pruning loses nothing ──────────────────────────────────────────────

  lemma {:induction false} ChainInOrder(gs: seq<Seg>, floor: nat)
    requires Chain(gs, floor)
    ensures InOrder(gs)
    decreases |gs|
  {
    hide ValidUnits;
    if |gs| > 1 {
      TailOfChain(gs, floor);
      ChainInOrder(gs[1..], floor);
      BasesAscend(gs, floor);
      assert Linked(gs[0], gs[0 + 1], floor);
      forall i, j | 0 <= i < j < |gs| ensures End(gs[i]) <= gs[j].base {
        if i > 0 {
          assert gs[i] == gs[1..][i - 1] && gs[j] == gs[1..][j - 1];
        }
      }
    }
  }

  lemma {:induction false} ReadableAbove(gs: seq<Seg>, floor: nat)
    requires forall i :: 0 <= i < |gs| ==> gs[i].base >= floor
    ensures ReadableFrom(gs, floor) == EventsOf(gs)
    decreases |gs|
  {
    if gs != [] {
      ReadableAbove(gs[1..], floor);
    }
  }

  lemma RangeOfBases(bases: seq<nat>, head: nat, from: nat, until: nat, k: nat)
    requires forall i, j :: 0 <= i < j < |bases| ==> bases[i] < bases[j]
    requires k < |bases| && bases[k] <= from
    ensures var r := IntersectingRange(bases, head, from, until);
      && (forall i :: r.0 <= i < r.1 ==> bases[k] <= bases[i])
      && (forall i :: r.1 <= i < |bases| ==> bases[i] >= until || from >= head || from >= until)
      && (r.0 > 0 ==> r.0 < |bases| && bases[r.0] <= from)
  {
    hide PartitionPoint;
    if from < Min(head, until) {
      var n := PartitionPoint(bases, from + 1);
      assert forall i :: 0 <= i <= k ==> bases[i] <= bases[k];
      assert n > k;
    }
  }

  /** Outside the planned range nothing can fall into the window. */
  lemma RangeShape(s: LogState, f: Filter)
    requires LogInv(s) && f.kinds == UserEvents && f.from >= s.floor
    ensures var r := PlanRange(s, f);
      && (forall i :: r.0 <= i < r.1 ==> Segs(s)[i].base >= s.floor)
      && (forall i :: r.1 <= i < |Segs(s)| ==> Segs(s)[i].base >= f.until || f.from >= Head(s) || f.from >= f.until)
      && (forall i :: 0 <= i < r.0 ==> End(Segs(s)[i]) <= f.from)
  {
    hide LogInv, Chain, End, Head, IntersectingRange;
    ChainOf(s);
    BasesAscend(Segs(s), s.floor);
    ChainOrders(Segs(s), s.floor);
    var bases := Bases(Segs(s));
    var k :| 0 <= k < |Segs(s)| && Segs(s)[k].base == s.floor;
    RangeOfBases(bases, Head(s), f.from, f.until, k);
  }

  lemma FilteredOutside(f: Filter, gs: seq<Seg>, floor: nat, head: nat)
    requires f.selector.Valid() && f.kinds == UserEvents && Chain(gs, floor)
    requires forall i :: 0 <= i < |gs| ==> End(gs[i]) <= head
    requires || (forall i :: 0 <= i < |gs| ==> End(gs[i]) <= f.from)
             || (forall i :: 0 <= i < |gs| ==> gs[i].base >= f.until || f.from >= head || f.from >= f.until)
    ensures Filtered(f, ReadableFrom(gs, floor)) == []
    decreases |gs|
  {
    hide ValidUnits, Filtered, Linked;
    SelectsNothing(f);
    if gs != [] {
      TailOfChain(gs, floor);
      FilteredOutside(f, gs[1..], floor, head);
      EventsAreDense(gs[0].units, gs[0].base);
      FilteredConcat(f, if gs[0].base >= floor then Events(gs[0].units) else [], ReadableFrom(gs[1..], floor));
      FilteredNone(f, Events(gs[0].units));
    }
  }

  lemma SubChain(gs: seq<Seg>, floor: nat, i: nat, j: nat)
    requires Chain(gs, floor) && i <= j <= |gs|
    ensures Chain(gs[i..j], floor)
  {
    hide ValidUnits;
    forall k | 0 <= k < |gs[i..j]| - 1 ensures Linked(gs[i..j][k], gs[i..j][k + 1], floor) {
      assert Linked(gs[i + k], gs[i + k + 1], floor);
    }
  }

  lemma ReadableSplit(gs: seq<Seg>, floor: nat, i: nat, j: nat)
    requires i <= j <= |gs|
    ensures ReadableFrom(gs, floor) == ReadableFrom(gs[..i], floor) + (ReadableFrom(gs[i..j], floor) + ReadableFrom(gs[j..], floor))
  {
    hide ReadableFrom;
    assert gs == gs[..i] + (gs[i..j] + gs[j..]);
    ReadableConcat(gs[..i], gs[i..j] + gs[j..], floor);
    ReadableConcat(gs[i..j], gs[j..], floor);
  }

  lemma EndsBelowHead(s: LogState)
    requires LogInv(s)
    ensures forall i :: 0 <= i < |Segs(s)| ==> End(Segs(s)[i]) <= Head(s)
  {
    hide ValidUnits, Linked, LogInv;
    ChainOf(s);
    ChainInOrder(Segs(s), s.floor);
  }

  /** The planner's pruning, said over the events. */
  lemma PruningLosesNothing(s: LogState, f: Filter)
    requires LogInv(s) && f.kinds == UserEvents && Answerable(s, f)
    ensures Selected(f, AllRecords(PlanFrames(s, f))) == Filtered(f, Readable(s))
  {
    hide LogInv, Selected, Filtered, ReadableFrom, Chain, AllRecords, PlanRange, InOrder, EventsOf;
    var gs, r := Segs(s), PlanRange(s, f);
    ChainOf(s);
    RangeShape(s, f);
    EndsBelowHead(s);
    SubChain(gs, s.floor, 0, r.0);
    SubChain(gs, s.floor, r.0, r.1);
    SubChain(gs, s.floor, r.1, |gs|);
    assert gs[0..r.0] == gs[..r.0] && gs[r.1..|gs|] == gs[r.1..];
    ChainInOrder(gs[r.0..r.1], s.floor);
    SelectedSegments(f, gs[r.0..r.1]);
    ReadableAbove(gs[r.0..r.1], s.floor);
    ReadableSplit(gs, s.floor, r.0, r.1);
    FilteredConcat(f, ReadableFrom(gs[..r.0], s.floor), ReadableFrom(gs[r.0..r.1], s.floor) + ReadableFrom(gs[r.1..], s.floor));
    FilteredConcat(f, ReadableFrom(gs[r.0..r.1], s.floor), ReadableFrom(gs[r.1..], s.floor));
    FilteredOutside(f, gs[..r.0], s.floor, Head(s));
    FilteredOutside(f, gs[r.1..], s.floor, Head(s));
    var kept := Filtered(f, EventsOf(gs[r.0..r.1]));
    assert [] + (kept + []) == kept;
  }

  /** The planned range lies at or above the floor, and within the head. */
  lemma PlanRangeAboveFloor(s: LogState, f: Filter)
    requires LogInv(s) && Answerable(s, f)
    ensures forall i :: PlanRange(s, f).0 <= i < PlanRange(s, f).1 ==> Segs(s)[i].base >= s.floor
  {
    hide LogInv, IntersectingRange;
    if f.kinds == UserEvents {
      RangeShape(s, f);
    }
  }

  /** Every planned segment holds exactly its frames and reaches its recorded end. */
  lemma PlanIsIntact(s: LogState, f: Filter, sidecars: map<nat, Sidecar>)
    requires LogInv(s) && Answerable(s, f) && SidecarsOf(s, sidecars)
    ensures IntactPlan(f, Plan(s, f), Head(s), sidecars, PlanFrames(s, f))
  {
    hide LogInv, IntactSegment, ValidUnits, Sound, Events, Frames, Chain, PlanRange, PlannedSegment, Segs, End, Head;
    var gs, r := Segs(s), PlanRange(s, f);
    var ps, fss := Plan(s, f), PlanFrames(s, f);
    PlanRangeAboveFloor(s, f);
    ChainOf(s);
    EndsBelowHead(s);
    ChainOrders(gs, s.floor);
    forall i | 0 <= i < |ps|
      ensures IntactSegment(ps[i], fss[i]) && ps[i].end == End(gs[r.0 + i]) && ps[i].base == gs[r.0 + i].base
    {
      PlannedIsIntact(s, r.0 + i);
      assert fss[i] == Frames(gs[r.0 + i].units);
    }
    assert SoundSidecars(ps, fss, sidecars);
    WholeRange(s, f);
  }

  lemma WholeRange(s: LogState, f: Filter)
    requires Answerable(s, f) && forall p :: p in Plan(s, f) ==> p.end <= Head(s)
    ensures WholeIfSystem(f, Plan(s, f))
  {
    hide Plan, Head;
  }

  lemma ChainOrders(gs: seq<Seg>, floor: nat)
    requires Chain(gs, floor)
    ensures forall i, j :: 0 <= i < j < |gs| ==> End(gs[i]) <= gs[j].base
  {
    hide ValidUnits;
    ChainInOrder(gs, floor);
  }

  lemma SegmentAt(s: LogState, i: nat)
    requires LogInv(s) && i < |Segs(s)| && Segs(s)[i].base >= s.floor
    ensures ValidUnits(Segs(s)[i].units, Segs(s)[i].base) && PlannedSegment(s, i).end == End(Segs(s)[i])
  {
    hide ValidUnits, End;
    if i < |s.closed| {
      assert Linked(s.closed[i], Segs(s)[i + 1], s.floor);
    }
  }

  lemma PlannedIsIntact(s: LogState, i: nat)
    requires LogInv(s) && i < |Segs(s)| && Segs(s)[i].base >= s.floor
    ensures IntactSegment(PlannedSegment(s, i), Frames(Segs(s)[i].units))
    ensures PlannedSegment(s, i).end == End(Segs(s)[i]) && PlannedSegment(s, i).base == Segs(s)[i].base
  {
    hide Clean, ValidUnits, Frames, Image, FrameBytes, LogInv, Events;
    var g := Segs(s)[i];
    SegmentAt(s, i);
    FramesOfUnits(g.units);
    UnitsAreClean(g.units, g.base, false);
    UnitsAreClean(g.units, g.base, true);
  }

  /** Any subset of the sidecars of the log's segments. */
  ghost predicate SidecarsOf(s: LogState, sidecars: map<nat, Sidecar>) {
    forall i :: 0 <= i < |Segs(s)| && Segs(s)[i].base in sidecars ==>
      Sound(sidecars[Segs(s)[i].base], Segs(s)[i].base, End(Segs(s)[i]), Frames(Segs(s)[i].units))
  }

  /** What the planner sees of the log's own fields. */
  lemma LogFields(log: Log.Log)
    requires log.Valid()
    ensures log.closed == Files(log.State().closed) && log.active.baseOffset == log.State().active.base
    ensures log.active.file == Image(log.State().active.units) && log.active.nextOffset == Head(log.State())
    ensures LogInv(log.State()) && log.manifest.retentionFloor == log.State().floor
  {
    hide LogInv;
    log.active.Facts();
  }

  method SegmentBases(log: Log.Log) returns (bases: seq<nat>)
    requires log.Valid()
    ensures bases == Bases(Segs(log.State()))
  {
    hide LogInv, Log.Log.Valid, Image;
    LogFields(log);
    bases := [];
    var i := 0;
    while i < |log.closed|
      invariant 0 <= i <= |log.closed|
      invariant bases == Bases(Segs(log.State()))[..i]
    {
      bases := bases + [log.closed[i].base];
      i := i + 1;
    }
    bases := bases + [log.active.baseOffset];
  }

  /** The planned segments of an index range, with their ends taken from the layout. */
  method PlanSegments(log: Log.Log, f: Filter, bases: seq<nat>, range: (nat, nat)) returns (segments: seq<Planned>)
    requires log.Valid() && range == PlanRange(log.State(), f) && bases == Bases(Segs(log.State()))
    ensures segments == Plan(log.State(), f)
  {
    hide LogInv, Log.Log.Valid, Image, IntersectingRange, Head;
    LogFields(log);
    ghost var s := log.State();
    segments := [];
    var i := range.0;
    while i < range.1
      invariant range.0 <= i <= range.1
      invariant segments == Plan(s, f)[..i - range.0]
    {
      var closed := i < |log.closed|;
      var planned := Planned(bases[i], if closed then bases[i + 1] else log.active.nextOffset,
                             if closed then log.closed[i].bytes else log.active.file, closed);
      assert planned == PlannedSegment(s, i) == Plan(s, f)[i - range.0];
      segments := segments + [planned];
      i := i + 1;
    }
  }

  /** Planning a reader over a log in any reachable state: what it will yield is the plain
      filter of the readable events, and no sidecar, layout or reclaim can change that. */
  method PlanReader(log: Log.Log, f: Filter, sidecars: map<nat, Sidecar>) returns (reader: LogReader)
    requires log.Valid() && Answerable(log.State(), f) && SidecarsOf(log.State(), sidecars)
    ensures fresh(reader) && reader.Valid() && reader.intact && reader.cursor == null && reader.filter == f
    ensures reader.head == Head(log.State()) && reader.continuation == f.from && !reader.finished && reader.trace == NO_TRACE
    ensures f.kinds == UserEvents ==> reader.Pending() == Limited(Filtered(f, Readable(log.State())), f.maxEvents, 0)
    ensures f.kinds == SystemOnly ==> reader.Pending() == Limited(Selected(f, AllRecords(FramesOf(Segs(log.State())))), f.maxEvents, 0)
  {
    hide LogInv, Selected, Filtered, Readable, IntactPlan, Limited, PlanFrames, SidecarsOf, LogReader.Valid, AllRecords, FramesOf,
         Log.Log.Valid, Image, IntersectingRange, Head;
    LogFields(log);
    ghost var s := log.State();
    PlanIsIntact(s, f, sidecars);
    var bases := SegmentBases(log);
    var range := if f.kinds == SystemOnly then (0, |bases|) else IntersectingRange(bases, log.active.nextOffset, f.from, f.until);
    var segments := PlanSegments(log, f, bases, range);
    reader := new LogReader(f, segments, log.active.nextOffset, sidecars, PlanFrames(s, f));
    if f.kinds == UserEvents {
      PruningLosesNothing(s, f);
    } else {
      SystemPlan(s, f);
    }
  }

  lemma SystemPlan(s: LogState, f: Filter)
    requires f.kinds == SystemOnly
    ensures PlanFrames(s, f) == FramesOf(Segs(s))
  {
    assert Segs(s)[0..|Segs(s)|] == Segs(s);
  }

  /** Draining the reader yields exactly the filtered events, in order. */
  method ReadAll(log: Log.Log, f: Filter, sidecars: map<nat, Sidecar>) returns (records: seq<Record>, continuation: nat)
    requires log.Valid() && Answerable(log.State(), f) && SidecarsOf(log.State(), sidecars) && f.kinds == UserEvents
    ensures records == Limited(Filtered(f, Readable(log.State())), f.maxEvents, 0)
    ensures f.maxEvents.None? ==> continuation >= Min(f.until, Head(log.State()))
  {
    hide LogInv, Filtered, Readable, Limited, LogReader.Pending, LogReader.Valid, SidecarsOf, Answerable, Log.Log.Valid;
    var reader := PlanReader(log, f, sidecars);
    var drained := Drain(reader);
    return drained.value, reader.continuation;
  }

  // ── resuming and reclaiming ────────────────────────────────────────────

  /** A read resumed at a continuation has neither gaps nor duplicates. */
  lemma {:induction false} ResumeSplits(f: Filter, rs: seq<Record>, at: nat)
    requires f.selector.Valid() && f.kinds == UserEvents && f.from <= at
    requires forall i, j :: 0 <= i < j < |rs| ==> rs[i].position < rs[j].position
    ensures Filtered(f, rs) == Filtered(f.(until := Min(f.until, at)), rs) + Filtered(f.(from := at), rs)
    decreases |rs|
  {
    hide Passes;
    var low, high := f.(until := Min(f.until, at)), f.(from := at);
    if rs != [] {
      if rs[0].position >= at {
        FilteredNone(low, rs);
        SameAbove(f, rs, at);
      } else {
        ResumeSplits(f, rs[1..], at);
        SplitOne(f, rs[0], at);
        var first := if Passes(f, rs[0]) && rs[0].position < f.until then [rs[0]] else [];
        assert Filtered(low, rs) == first + Filtered(low, rs[1..]);
        assert Filtered(high, rs) == Filtered(high, rs[1..]);
      }
    }
  }

  lemma {:induction false} SameAbove(f: Filter, rs: seq<Record>, at: nat)
    requires f.selector.Valid() && f.kinds == UserEvents && f.from <= at
    requires forall i :: 0 <= i < |rs| ==> rs[i].position >= at
    ensures Filtered(f, rs) == Filtered(f.(from := at), rs)
    decreases |rs|
  {
    hide Passes;
    if rs != [] {
      SplitOne(f, rs[0], at);
      SameAbove(f, rs[1..], at);
    }
  }

  lemma SplitOne(f: Filter, r: Record, at: nat)
    requires f.selector.Valid() && f.kinds == UserEvents && f.from <= at
    ensures Passes(f.(until := Min(f.until, at)), r) <==> Passes(f, r)
    ensures Passes(f.(from := at), r) <==> Passes(f, r) && r.position >= at
  {
  }

  /** Above the floor, no reclaim changes what a read yields, whichever removals fail. */
  lemma ReclaimKeepsAnswers(s: LogState, stuck: set<nat>, f: Filter)
    requires LogInv(s) && s.stage.Idle? && f.kinds == UserEvents && Answerable(s, f)
    ensures var t := Apply(s, Reclaim(stuck));
      && LogInv(t) && Answerable(t, f)
      && Filtered(f, Readable(t)) == Filtered(f, Readable(s))
      && Selected(f, AllRecords(PlanFrames(t, f))) == Selected(f, AllRecords(PlanFrames(s, f)))
  {
    hide LogInv, Readable, Filtered, Selected, PlanFrames;
    ReclaimKeeps(s, stuck);
    PruningLosesNothing(s, f);
    PruningLosesNothing(Apply(s, Reclaim(stuck)), f);
  }
}
