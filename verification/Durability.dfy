/** How far the log's head can be trusted: a position survives every further crash exactly
    if it was synced, and a reopened log's head need not have been. */
module Durability {
  import opened Base
  import opened Format
  import opened RecordWalk
  import opened RecordWalkLaws
  import opened LogMachine
  import opened LogLaws
  import opened LogSafety

  // ── what was synced stays ──────────────────────────────────────────────

  /** Every position below `n` reads the same, until retention moves the floor above it. */
  ghost predicate KeepsBelow(s: LogState, t: LogState, n: nat) {
    && s.floor <= t.floor
    && n - t.floor <= |Readable(t)| && n - s.floor <= |Readable(s)|
    && forall p :: t.floor <= p < n ==> EventAt(t, p) == EventAt(s, p)
  }

  /** Two states that differ only in the last head a commit returned. */
  predicate Promises(s: LogState, t: LogState) {
    s == t.(committed := s.committed) && s.committed <= t.committed
  }

  lemma PromisedStep(s: LogState, t: LogState, step: Step)
    requires Promises(s, t) && Enabled(s, step)
    ensures Enabled(t, step) && Promises(Apply(s, step), Apply(t, step))
  {
    hide RetentionBoundary, Reclaimed, Recovered, ValidUnit, Cuttable, Events, ShortenedAll;
    if step.Retain? {
      SameBoundary(s, t, step.requested);
    }
  }

  lemma SameBoundary(s: LogState, t: LogState, requested: nat)
    requires Promises(s, t)
    ensures RetentionBoundary(s, requested) == RetentionBoundary(t, requested)
  {
  }

  lemma {:induction false} PromisedRun(s: LogState, t: LogState, steps: seq<Step>)
    requires Promises(s, t) && RunFrom(s, steps)
    ensures RunFrom(t, steps) && Promises(After(s, steps), After(t, steps))
    decreases |steps|
  {
    hide Promises, Enabled, Apply;
    if steps != [] {
      PromisedStep(s, t, steps[0]);
      PromisedRun(Apply(s, steps[0]), Apply(t, steps[0]), steps[1..]);
    }
  }

  lemma SyncedIsForever(s: LogState, steps: seq<Step>)
    requires LogInv(s) && RunFrom(s, steps)
    ensures LogInv(After(s, steps)) && s.active.synced <= |s.active.units| && KeepsBelow(s, After(s, steps), SyncedHead(s))
  {
    hide LogInv, Readable, RunFrom, After, Events, NothingLost, KeepsBelow;
    InvParts(s);
    var t := s.(committed := SyncedHead(s));
    RaisePromise(s);
    PromisedRun(s, t, steps);
    CommittedIsForever(s, steps);
    CommittedIsForever(t, steps);
    SameReadable(s, t);
    SameReadable(After(s, steps), After(t, steps));
    Carried(s, t, After(s, steps), After(t, steps));
  }

  lemma Carried(s: LogState, s': LogState, t: LogState, t': LogState)
    requires NothingLost(s', t') && Readable(s) == Readable(s') && Readable(t) == Readable(t')
    requires s.floor == s'.floor && t.floor == t'.floor
    ensures KeepsBelow(s, t, s'.committed)
  {
    hide Readable;
    forall p | t.floor <= p < s'.committed ensures EventAt(t, p) == EventAt(s, p) {
      assert EventAt(t', p) == EventAt(s', p);
    }
  }

  lemma RaisePromise(s: LogState)
    requires LogInv(s)
    ensures s.active.synced <= |s.active.units| && LogInv(s.(committed := SyncedHead(s)))
  {
    hide ValidUnits, Events;
    var t := s.(committed := SyncedHead(s));
    assert Segs(t) == Segs(s);
  }

  lemma SameReadable(s: LogState, t: LogState)
    requires Promises(s, t)
    ensures Readable(s) == Readable(t)
  {
    assert Segs(s) == Segs(t);
  }

  // ── what was not synced can go ─────────────────────────────────────────

  /** A crash that spares every retired file whole. */
  function Whole(s: LogState): (cuts: seq<nat>)
    ensures |cuts| == |s.closed|
  {
    seq(|s.closed|, i requires 0 <= i < |s.closed| => |Image(s.closed[i].units)|)
  }

  /** The crash that takes everything it can. */
  function Worst(s: LogState): Step
    requires s.active.synced <= |s.active.units|
  {
    Crash(Whole(s), |Image(s.active.units[..s.active.synced])|, false)
  }

  /** The crash that takes nothing. */
  function Mildest(s: LogState): Step {
    Crash(Whole(s), |Image(s.active.units)|, false)
  }

  lemma CrashesPossible(s: LogState)
    requires LogInv(s)
    ensures s.active.synced <= |s.active.units| && Enabled(s, Worst(s)) && Enabled(s, Mildest(s))
  {
    hide ValidUnits, Image, Events;
    InvParts(s);
    forall i | 0 <= i < |s.closed| ensures Cuttable(s.closed[i], Whole(s)[i]) {
      SyncedAll(s.closed[i]);
    }
    SyncedAll(s.active);
    ImageMonotone(s.active.units, s.active.synced, |s.active.units|);
  }

  lemma UnitHasBytes(u: Unit, next: nat)
    requires ValidUnit(u, next)
    ensures UnitBytes(u) != []
  {
    match u
    case Single(f) => DecodableIsNonempty(f);
    case Sys(f) => DecodableIsNonempty(f);
    case Batch(begin, _, _) => DecodableIsNonempty(begin);
  }

  lemma NextUnit(us: seq<Unit>, base: nat, i: nat)
    requires ValidUnits(us, base) && i < |us|
    ensures |Image(us[..i])| < |Image(us[..i + 1])|
  {
    hide UnitBytes, ValidUnit, ValidUnits, Image, Events;
    assert us == us[..i] + us[i..];
    ValidConcat(us[..i], us[i..], base);
    FirstIsValid(us[i..], base + |Events(us[..i])|);
    UnitHasBytes(us[i], base + |Events(us[..i])|);
    assert us[..i + 1] == us[..i] + [us[i]];
    UnitsSnoc(us[..i], us[i], base);
  }

  lemma FirstIsValid(us: seq<Unit>, base: nat)
    requires ValidUnits(us, base) && us != []
    ensures ValidUnit(us[0], base)
  {
  }

  lemma WorstCut(g: Seg)
    requires ValidUnits(g.units, g.base) && g.synced <= |g.units|
    ensures UnitsWithin(g.units, |Image(g.units[..g.synced])|) == g.synced
  {
    hide ValidUnits, Image, ScanFrom;
    var cut := |Image(g.units[..g.synced])|;
    SyncedAll(g);
    ImageMonotone(g.units, g.synced, |g.units|);
    CutRecoversWholeUnits(g.units, ScanState(0, 0, g.base, [], [], None), cut);
    var m := UnitsWithin(g.units, cut);
    if m < g.synced {
      ImageMonotone(g.units, m + 1, g.synced);
    } else if m > g.synced {
      NextUnit(g.units, g.base, g.synced);
      ImageMonotone(g.units, g.synced + 1, m);
    }
  }

  /** The worst crash leaves the synced head, the mildest the whole one. */
  lemma CrashExtremes(s: LogState)
    requires LogInv(s)
    ensures s.active.synced <= |s.active.units| && Enabled(s, Worst(s)) && Enabled(s, Mildest(s))
    ensures Head(Apply(s, Worst(s))) == SyncedHead(s)
    ensures Apply(s, Mildest(s)).active == s.active && Apply(s, Mildest(s)).closed == s.closed
  {
    hide LogInv, ValidUnits, Image, Events, Enabled, ShortenedAll;
    CrashesPossible(s);
    InvParts(s);
    WorstCut(s.active);
    AllWithin(s.active.units);
    SyncedAll(s.active);
    RetiredSurvive(s, Whole(s), |Image(s.active.units)|, false);
    assert s.active.units[..s.active.synced][..s.active.synced] == s.active.units[..s.active.synced];
  }

  // ── exactly when a head is durable ─────────────────────────────────────

  lemma OneStep(s: LogState, step: Step)
    requires Enabled(s, step)
    ensures RunFrom(s, [step]) && After(s, [step]) == Apply(s, step)
  {
    assert [step][1..] == [];
  }

  /** DURABLE EXACTLY IF SYNCED: every position below `n` outlives every run of the log,
      crashes included, if and only if `n` lies within what was synced. */
  lemma DurableIffSynced(s: LogState, n: nat)
    requires LogInv(s) && n <= Head(s)
    ensures s.active.synced <= |s.active.units|
    ensures n <= SyncedHead(s) <==> forall steps :: RunFrom(s, steps) ==> KeepsBelow(s, After(s, steps), n)
  {
    hide LogInv, Readable, RunFrom, After, Apply, Enabled, Head, SyncedHead;
    InvParts(s);
    if n <= SyncedHead(s) {
      forall steps | RunFrom(s, steps) ensures KeepsBelow(s, After(s, steps), n) {
        SyncedIsForever(s, steps);
        Narrower(s, After(s, steps), SyncedHead(s), n);
      }
    } else {
      CrashExtremes(s);
      OneStep(s, Worst(s));
      StepKeeps(s, Worst(s));
      ReadableShape(Apply(s, Worst(s)));
      assert !KeepsBelow(s, After(s, [Worst(s)]), n);
    }
  }

  lemma Narrower(s: LogState, t: LogState, n: nat, m: nat)
    requires KeepsBelow(s, t, n) && m <= n
    ensures KeepsBelow(s, t, m)
  {
    hide Readable;
    forall p | t.floor <= p < m ensures EventAt(t, p) == EventAt(s, p) {
    }
  }

  lemma KeptAt(s: LogState, t: LogState, n: nat, p: nat)
    requires KeepsBelow(s, t, n) && t.floor <= p < n
    ensures s.floor <= p < s.floor + |Readable(s)| && p < t.floor + |Readable(t)| && EventAt(t, p) == EventAt(s, p)
  {
    hide Readable;
  }

  /** What the caller can see after `open`: a torn tail was cut off, or everything read back
      had been synced before. */
  ghost predicate SettledByOpen(s: LogState, cut: nat, t: LogState) {
    |Image(t.active.units)| < cut || Events(t.active.units[Min(s.active.synced, |t.active.units|)..]) == []
  }

  /** A REOPENED HEAD IS DURABLE exactly if the open truncated a torn tail, which syncs, or
      read back no event that was never synced. */
  lemma ReopenedHeadIsDurable(s: LogState, older: seq<nat>, cut: nat, orphanSurvives: bool)
    requires LogInv(s) && Enabled(s, Crash(older, cut, orphanSurvives))
    ensures var t := Apply(s, Crash(older, cut, orphanSurvives));
      && LogInv(t)
      && (SettledByOpen(s, cut, t) <==> forall steps :: RunFrom(t, steps) ==> KeepsBelow(t, After(t, steps), Head(t)))
  {
    hide LogInv, Readable, RunFrom, After, Head, SyncedHead, KeepsBelow, Image, ValidUnits, Events, ShortenedAll;
    var t := Apply(s, Crash(older, cut, orphanSurvives));
    StepKeeps(s, Crash(older, cut, orphanSurvives));
    InvParts(s);
    RecoveredShape(s.active, cut);
    InvParts(t);
    SyncedHeadIsHead(t);
    NoUnits(0);
    if |Image(t.active.units)| < cut {
      assert t.active.units[t.active.synced..] == [];
    } else {
      assert t.active.synced == Min(s.active.synced, |t.active.units|);
    }
    DurableIffSynced(t, Head(t));
  }

  /** Nothing but system frames behind the synced part: the head itself is synced. */
  lemma SyncedHeadIsHead(s: LogState)
    requires s.active.synced <= |s.active.units|
    ensures SyncedHead(s) <= Head(s)
    ensures SyncedHead(s) == Head(s) <==> Events(s.active.units[s.active.synced..]) == []
  {
    hide Events;
    var us, k := s.active.units, s.active.synced;
    assert us == us[..k] + us[k..];
    ContentConcat(us[..k], us[k..]);
  }

  /** A commit after the open makes the head durable. */
  lemma CommitSettles(s: LogState)
    requires LogInv(s) && s.stage.Idle?
    ensures LogInv(Apply(s, Commit)) && Head(Apply(s, Commit)) == Head(s)
    ensures forall steps :: RunFrom(Apply(s, Commit), steps) ==> KeepsBelow(Apply(s, Commit), After(Apply(s, Commit), steps), Head(s))
  {
    hide LogInv, Readable, RunFrom, After, KeepsBelow, Events;
    StepKeeps(s, Commit);
    var t := Apply(s, Commit);
    SyncedAll(t.active);
    DurableIffSynced(t, Head(t));
  }

  /** IT HAPPENS, from every state: append events, lose nothing in a crash, reopen, crash
      again. The second open was told a head that the third no longer has. */
  lemma UnsyncedHeadIsLost(s: LogState, u: Unit)
    requires LogInv(s) && Enabled(s, Append(u)) && UnitEvents(u) != []
    ensures var written := Apply(s, Append(u));
      var reopened := Apply(written, Mildest(written));
      && LogInv(written) && LogInv(reopened) && Enabled(written, Mildest(written)) && Enabled(reopened, Worst(reopened))
      && Head(reopened) == Head(s) + |UnitEvents(u)|
      && Head(Apply(reopened, Worst(reopened))) == SyncedHead(s) <= Head(s) < Head(reopened)
  {
    hide LogInv, ValidUnit, ValidUnits, Image, Events, Enabled, UnitEvents, ShortenedAll;
    var written := Apply(s, Append(u));
    StepKeeps(s, Append(u));
    InvParts(s);
    UnitsSnoc(s.active.units, u, s.active.base);
    CrashExtremes(written);
    var reopened := Apply(written, Mildest(written));
    StepKeeps(written, Mildest(written));
    CrashExtremes(reopened);
    assert written.active.units[..s.active.synced] == s.active.units[..s.active.synced];
  }

  // ── units outlive crashes too, also those that take no position ───────

  /** The units of the segments at and above a floor. */
  function LiveUnits(gs: seq<Seg>, floor: nat): seq<Unit> {
    if gs == [] then []
    else (if gs[0].base >= floor then gs[0].units else []) + LiveUnits(gs[1..], floor)
  }

  lemma {:induction false} LiveConcat(a: seq<Seg>, b: seq<Seg>, floor: nat)
    ensures LiveUnits(a + b, floor) == LiveUnits(a, floor) + LiveUnits(b, floor)
    decreases |a|
  {
    if a == [] {
      assert a + b == b;
    } else {
      assert (a + b)[1..] == a[1..] + b;
      LiveConcat(a[1..], b, floor);
    }
  }

  lemma LiveOfOne(g: Seg, floor: nat)
    ensures LiveUnits([g], floor) == if g.base >= floor then g.units else []
  {
    assert [g][1..] == [];
  }

  lemma {:induction false} LiveOfReclaimed(closed: seq<Seg>, low: nat, stuck: set<nat>, floor: nat)
    requires low <= floor
    ensures LiveUnits(Reclaimed(closed, low, stuck), floor) == LiveUnits(closed, floor)
    decreases |closed|
  {
    if closed != [] {
      var first := if closed[0].base >= low || closed[0].base in stuck then [closed[0]] else [];
      LiveOfReclaimed(closed[1..], low, stuck, floor);
      LiveConcat(first, Reclaimed(closed[1..], low, stuck), floor);
      LiveOfOne(closed[0], floor);
    }
  }

  lemma {:induction false} EverythingLives(gs: seq<Seg>)
    ensures LiveUnits(gs, 0) == UnitsOf(gs)
    decreases |gs|
  {
    if gs != [] {
      EverythingLives(gs[1..]);
    }
  }

  /** The live units of which the disk is known to hold every byte. */
  function SyncedUnits(s: LogState, floor: nat): seq<Unit>
    requires s.active.synced <= |s.active.units|
  {
    LiveUnits(s.closed, floor) + if s.active.base >= floor then s.active.units[..s.active.synced] else []
  }

  lemma LiveParts(s: LogState, floor: nat)
    ensures LiveUnits(Segs(s), floor) == LiveUnits(s.closed, floor) + if s.active.base >= floor then s.active.units else []
  {
    LiveConcat(s.closed, [s.active], floor);
    LiveOfOne(s.active, floor);
  }

  lemma SyncedStep(s: LogState, step: Step, floor: nat)
    requires LogInv(s) && Enabled(s, step) && floor >= Apply(s, step).floor
    ensures s.active.synced <= |s.active.units| && LogInv(Apply(s, step)) && Apply(s, step).active.synced <= |Apply(s, step).active.units|
    ensures s.floor <= Apply(s, step).floor
    ensures SyncedUnits(s, floor) <= SyncedUnits(Apply(s, step), floor)
  {
    hide LogInv, LiveUnits, ValidUnits, ValidUnit, Events, Image, Recovered, ShortenedAll, RetentionBoundary, Reclaimed, Cuttable;
    InvParts(s);
    StepKeeps(s, step);
    InvParts(Apply(s, step));
    match step
    case Append(u) =>
      assert (s.active.units + [u])[..s.active.synced] == s.active.units[..s.active.synced];
    case Commit =>
    case RollSync =>
    case RollCreate =>
    case RollSwitch =>
      LiveConcat(s.closed, [s.active], floor);
      LiveOfOne(s.active, floor);
      assert s.active.units[..s.active.synced] == s.active.units;
    case Retain(requested) =>
      BoundaryIsBase(s, requested);
    case Reclaim(stuck) =>
      LiveOfReclaimed(s.closed, s.floor, stuck, floor);
    case Crash(older, cut, orphanSurvives) =>
      RetiredSurvive(s, older, cut, orphanSurvives);
      CutIsBehindSync(s.active, cut, Enabled(s, step));
      RecoveredShape(s.active, cut);
      var r := Recovered(s.active, cut);
      assert r.units[..r.synced] == s.active.units[..|r.units|][..r.synced];
      assert r.units[..r.synced][..s.active.synced] == s.active.units[..s.active.synced];
  }

  lemma CutIsBehindSync(g: Seg, cut: nat, possible: bool)
    requires Cuttable(g, cut)
    ensures g.synced <= |g.units| && |Image(g.units[..g.synced])| <= cut <= |Image(g.units)|
  {
  }

  /** SYNCED UNITS STAY: a unit that was synced is still in the log after every run, crashes
      included, unless retention moved the floor above its segment. */
  lemma {:induction false} UnitsAreForever(s: LogState, steps: seq<Step>)
    requires LogInv(s) && RunFrom(s, steps)
    ensures s.active.synced <= |s.active.units| && s.floor <= After(s, steps).floor
    ensures SyncedUnits(s, After(s, steps).floor) <= LiveUnits(Segs(After(s, steps)), After(s, steps).floor)
    decreases |steps|
  {
    hide LogInv, LiveUnits, Enabled, Apply, SyncedUnits;
    InvParts(s);
    if steps == [] {
      SyncedIsLive(s);
    } else {
      var next, floor := Apply(s, steps[0]), After(s, steps).floor;
      StepKeeps(s, steps[0]);
      UnitsAreForever(next, steps[1..]);
      SyncedStep(s, steps[0], floor);
    }
  }

  lemma SyncedIsLive(s: LogState)
    requires s.active.synced <= |s.active.units|
    ensures SyncedUnits(s, s.floor) <= LiveUnits(Segs(s), s.floor)
  {
    hide LiveUnits;
    LiveParts(s, s.floor);
  }

  /** No system frame is waiting to be synced. */
  predicate FramesSynced(s: LogState) {
    s.active.synced <= |s.active.units| && Systems(s.active.units[s.active.synced..]) == []
  }

  function LiveFrames(s: LogState): seq<Record> {
    Systems(LiveUnits(Segs(s), s.floor))
  }

  /** The frames of one state are the first of another's, unless retention moved the floor. */
  predicate KeepsFrames(s: LogState, t: LogState) {
    t.floor == s.floor ==> LiveFrames(s) <= LiveFrames(t)
  }

  lemma LiveFramesSplit(s: LogState)
    requires LogInv(s)
    ensures s.active.synced <= |s.active.units| && s.floor <= s.active.base
    ensures LiveFrames(s) == Systems(SyncedUnits(s, s.floor)) + Systems(s.active.units[s.active.synced..])
  {
    hide LogInv, LiveUnits, Systems, Readable, Events;
    InvParts(s);
    ReadableShape(s);
    LiveParts(s, s.floor);
    SystemsFrom(LiveUnits(s.closed, s.floor), s.active.units, s.active.synced);
  }

  lemma SystemsFrom(live: seq<Unit>, us: seq<Unit>, k: nat)
    requires k <= |us|
    ensures Systems(live + us) == Systems(live + us[..k]) + Systems(us[k..])
  {
    hide Systems, Events, Image;
    assert live + us == (live + us[..k]) + us[k..];
    ContentConcat(live + us[..k], us[k..]);
  }

  lemma SystemsOfPrefix(a: seq<Unit>, b: seq<Unit>)
    requires a <= b
    ensures Systems(a) <= Systems(b)
  {
    hide Systems;
    assert b == a + b[|a|..];
    ContentConcat(a, b[|a|..]);
  }

  /** FRAMES DURABLE EXACTLY IF SYNCED: every system frame above the floor outlives every run
      that leaves the floor, crashes included, if and only if none is waiting to be synced. */
  lemma FramesDurableIffSynced(s: LogState)
    requires LogInv(s)
    ensures FramesSynced(s) <==> forall steps :: RunFrom(s, steps) ==> KeepsFrames(s, After(s, steps))
  {
    hide LogInv, LiveUnits, RunFrom, After, Apply, Enabled, Systems, SyncedUnits;
    LiveFramesSplit(s);
    if FramesSynced(s) {
      forall steps | RunFrom(s, steps) ensures KeepsFrames(s, After(s, steps)) {
        UnitsAreForever(s, steps);
        if After(s, steps).floor == s.floor {
          SystemsOfPrefix(SyncedUnits(s, s.floor), LiveUnits(Segs(After(s, steps)), s.floor));
        }
      }
    } else {
      CrashExtremes(s);
      OneStep(s, Worst(s));
      WorstFrames(s);
      assert !KeepsFrames(s, After(s, [Worst(s)]));
    }
  }

  /** What the caller can see after `open`, for the frames: a torn tail was cut off, or every
      frame read back had been synced before. */
  ghost predicate FramesSettledByOpen(s: LogState, cut: nat, t: LogState) {
    |Image(t.active.units)| < cut || Systems(t.active.units[Min(s.active.synced, |t.active.units|)..]) == []
  }

  /** REOPENED FRAMES ARE DURABLE exactly if the open truncated a torn tail or read back no
      frame that was never synced. */
  lemma ReopenedFramesAreDurable(s: LogState, older: seq<nat>, cut: nat, orphanSurvives: bool)
    requires LogInv(s) && Enabled(s, Crash(older, cut, orphanSurvives))
    ensures var t := Apply(s, Crash(older, cut, orphanSurvives));
      && LogInv(t) && (FramesSettledByOpen(s, cut, t) <==> FramesSynced(t))
      && (FramesSettledByOpen(s, cut, t) <==> forall steps :: RunFrom(t, steps) ==> KeepsFrames(t, After(t, steps)))
  {
    hide LogInv, RunFrom, After, KeepsFrames, Image, ValidUnits, Events, Systems, ShortenedAll;
    var t := Apply(s, Crash(older, cut, orphanSurvives));
    StepKeeps(s, Crash(older, cut, orphanSurvives));
    InvParts(s);
    RecoveredShape(s.active, cut);
    NoFrames();
    if |Image(t.active.units)| < cut {
      assert t.active.units[t.active.synced..] == [];
    } else {
      assert t.active.synced == Min(s.active.synced, |t.active.units|);
    }
    FramesDurableIffSynced(t);
  }

  lemma NoFrames()
    ensures Systems([]) == []
  {
  }

  /** The worst crash leaves the synced units and nothing more. */
  lemma WorstFrames(s: LogState)
    requires LogInv(s)
    ensures s.active.synced <= |s.active.units| && s.floor <= s.active.base
    ensures Apply(s, Worst(s)).floor == s.floor && LiveFrames(Apply(s, Worst(s))) == Systems(SyncedUnits(s, s.floor))
  {
    hide LogInv, LiveUnits, ValidUnits, Image, Events, Enabled, ShortenedAll, Systems, Readable;
    CrashExtremes(s);
    InvParts(s);
    ReadableShape(s);
    WorstCut(s.active);
    RetiredSurvive(s, Whole(s), |Image(s.active.units[..s.active.synced])|, false);
    LiveParts(Apply(s, Worst(s)), s.floor);
  }
}
