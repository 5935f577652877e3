/** Crash safety over whole runs: what a commit covered is never lost or altered, and
    every crash point reopens. */
module LogSafety {
  import opened Base
  import opened Format
  import opened RecordWalk
  import opened RecordWalkLaws
  import opened LogMachine
  import opened LogLaws

  // ── a crash reopens to a whole-unit prefix ─────────────────────────────

  lemma RecoveredShape(g: Seg, cut: nat)
    requires ValidUnits(g.units, g.base) && g.synced <= |g.units|
    requires |Image(g.units[..g.synced])| <= cut <= |Image(g.units)|
    ensures var r := Recovered(g, cut);
      && r.base == g.base && g.synced <= |r.units| <= |g.units| && r.units == g.units[..|r.units|]
      && r.synced <= |r.units| && g.synced <= r.synced
      && ValidUnits(r.units, r.base)
      && |Events(g.units[..g.synced])| <= |Events(r.units[..r.synced])| <= |Events(r.units)| <= |Events(g.units)|
      && Events(r.units) <= Events(g.units)
  {
    hide ValidUnits, Events, Recovered;
    RecoveredUnits(g, cut);
    var r := Recovered(g, cut);
    var m := |r.units|;
    assert g.units == g.units[..m] + g.units[m..];
    ContentConcat(g.units[..m], g.units[m..]);
    ValidConcat(g.units[..m], g.units[m..], g.base);
    PrefixEvents(g.units, g.synced, r.synced);
    PrefixEvents(g.units, r.synced, m);
    assert r.units[..r.synced] == g.units[..r.synced];
  }

  /** Which units survive: no fewer than were synced. */
  lemma RecoveredUnits(g: Seg, cut: nat)
    requires ValidUnits(g.units, g.base) && g.synced <= |g.units|
    requires |Image(g.units[..g.synced])| <= cut <= |Image(g.units)|
    ensures var r := Recovered(g, cut);
      && r.base == g.base && g.synced <= |r.units| <= |g.units| && r.units == g.units[..|r.units|]
      && g.synced <= r.synced <= |r.units|
  {
    hide ValidUnits, Image, ScanFrom, UnitsWithin, AfterUnits;
    CutRecoversWholeUnits(g.units, ScanState(0, 0, g.base, [], [], None), cut);
    var m := UnitsWithin(g.units, cut);
    if m < g.synced {
      ImageMonotone(g.units, m + 1, g.synced);
    }
  }

  lemma ImageMonotone(us: seq<Unit>, i: nat, j: nat)
    requires i <= j <= |us|
    ensures |Image(us[..i])| <= |Image(us[..j])|
  {
    assert us[..j] == us[..i] + us[i..j];
    ContentConcat(us[..i], us[i..j]);
  }

  lemma PrefixEvents(us: seq<Unit>, i: nat, j: nat)
    requires i <= j <= |us|
    ensures Events(us[..i]) <= Events(us[..j])
  {
    assert us[..j] == us[..i] + us[i..j];
    ContentConcat(us[..i], us[i..j]);
  }

  lemma {:induction false} ClosedStayClosed(files: seq<SegFile>, rest: seq<SegFile>, activeBase: nat, done: Sorted)
    requires forall i :: 0 <= i < |files| ==> files[i].base < activeBase
    ensures SortSegments(files + rest, activeBase, done)
         == SortSegments(rest, activeBase, done.(closed := done.closed + files))
    decreases |files|
  {
    hide Scan;
    if files == [] {
      assert files + rest == rest && done.closed + files == done.closed;
    } else {
      assert (files + rest)[1..] == files[1..] + rest;
      ClosedStayClosed(files[1..], rest, activeBase, done.(closed := done.closed + [files[0]]));
      assert done.closed + [files[0]] + files[1..] == done.closed + files;
    }
  }

  /** Recovering the active file yields exactly the units the cut holds whole. */
  lemma ActiveRecovers(g: Seg, cut: nat)
    requires ValidUnits(g.units, g.base) && cut <= |Image(g.units)|
    ensures var scanned := Scan(Image(g.units)[..cut], g.base);
      && scanned.Ok?
      && Recovered(g, cut).base == g.base
      && scanned.value.nextOffset == End(Recovered(g, cut))
      && Image(g.units)[..cut][..Min(scanned.value.validBytes, cut)] == Image(Recovered(g, cut).units)
  {
    hide ValidUnits, ScanFrom, Image, Events, AfterUnits, UnitsWithin;
    var st := StartScan(g.base);
    CutRecoversWholeUnits(g.units, st, cut);
    var kept := Recovered(g, cut).units;
    AfterUnitsFields(st, kept);
    assert g.units == kept + g.units[|kept|..];
    ContentConcat(kept, g.units[|kept|..]);
    assert Image(g.units)[..cut][..|Image(kept)|] == Image(kept);
  }

  lemma SortFinds(g: Seg, cut: nat, orphan: seq<SegFile>, closed: seq<SegFile>)
    requires ValidUnits(g.units, g.base) && cut <= |Image(g.units)|
    requires |orphan| <= 1 && forall f :: f in orphan ==> f.base > g.base && f.bytes == []
    ensures SortSegments([SegFile(g.base, Image(g.units)[..cut])] + orphan, g.base, Sorted(closed, None))
         == Ok(Sorted(closed, Some((FileOf(Recovered(g, cut)), End(Recovered(g, cut))))))
  {
    hide Scan, ValidUnits, Recovered;
    ActiveRecovers(g, cut);
    var files := [SegFile(g.base, Image(g.units)[..cut])] + orphan;
    assert files[1..] == orphan;
    var done := Sorted(closed, Some((FileOf(Recovered(g, cut)), End(Recovered(g, cut)))));
    assert SortSegments([], g.base, done) == Ok(done);
    if orphan != [] {
      assert orphan[0] in orphan;
      assert orphan[1..] == [];
    }
    assert SortSegments(orphan, g.base, done) == Ok(done);
    assert SortSegments(files, g.base, Sorted(closed, None)) == SortSegments(files[1..], g.base, done);
  }

  /** A fully synced segment has nothing a crash could take. */
  lemma SyncedIsWhole(g: Seg, cut: nat)
    requires Cuttable(g, cut) && g.synced == |g.units|
    ensures Shortened(g, cut) == g && CutFile(g, cut) == FileOf(g)
  {
    SyncedAll(g);
    AllWithin(g.units);
  }

  lemma {:induction false} AllWithin(us: seq<Unit>)
    ensures UnitsWithin(us, |Image(us)|) == |us|
  {
    hide UnitBytes;
    if us != [] {
      AllWithin(us[1..]);
    }
  }

  /** RETIRED SEGMENTS SURVIVE: each was synced before the manifest moved past it. */
  lemma RetiredSurvive(s: LogState, older: seq<nat>, cut: nat, orphanSurvives: bool)
    requires LogInv(s) && Enabled(s, Crash(older, cut, orphanSurvives))
    ensures ShortenedAll(s.closed, older) == s.closed && CutFiles(s.closed, older) == Files(s.closed)
  {
    hide ValidUnits, Events, Shortened, CutFile, FileOf;
    forall i | 0 <= i < |s.closed| ensures Shortened(s.closed[i], older[i]) == s.closed[i] && CutFile(s.closed[i], older[i]) == FileOf(s.closed[i]) {
      SyncedIsWhole(s.closed[i], older[i]);
    }
  }

  /** From every state of every run, every crash reopens: the closed segments byte for
      byte, the active one to the whole units inside the surviving bytes, which include
      every position below the last head a commit returned. An orphan segment of an
      interrupted roll changes nothing. */
  lemma CrashReopens(s: LogState, older: seq<nat>, cut: nat, orphanSurvives: bool)
    requires LogInv(s) && Enabled(s, Crash(older, cut, orphanSurvives))
    ensures var s' := Apply(s, Crash(older, cut, orphanSurvives));
      && OpenedLog(CrashDisk(s, older, cut, orphanSurvives)) == Ok(OpenedState(s'))
      && s'.closed == s.closed
      && s'.active.units <= s.active.units
      && s.committed <= Head(s') <= Head(s)
  {
    hide LogInv, ValidUnits, Recovered, Scan, ShortenedAll, Files, SortSegments, Events;
    InvParts(s);
    RetiredSurvive(s, older, cut, orphanSurvives);
    RecoveredShape(s.active, cut);
    var orphan := Orphan(s, orphanSurvives);
    CrashLeaves(s, older, cut, orphanSurvives);
    RetiredAreOlder(s);
    var closed := Files(s.closed);
    ClosedStayClosed(closed, [SegFile(s.active.base, Image(s.active.units)[..cut])] + orphan, s.active.base, Sorted([], None));
    assert [] + closed == closed;
    SortFinds(s.active, cut, orphan, closed);
  }

  /** The empty successor an interrupted roll may leave. */
  function Orphan(s: LogState, survives: bool): seq<SegFile> {
    if s.stage.Created? && survives then [SegFile(Head(s), [])] else []
  }

  lemma CrashLeaves(s: LogState, older: seq<nat>, cut: nat, orphanSurvives: bool)
    requires LogInv(s) && Enabled(s, Crash(older, cut, orphanSurvives))
    ensures CrashDisk(s, older, cut, orphanSurvives)
         == Disk(Files(s.closed) + ([SegFile(s.active.base, Image(s.active.units)[..cut])] + Orphan(s, orphanSurvives)),
                 Some(Manifest(s.active.base, s.floor, s.active.base)))
  {
    hide LogInv, CutFiles, Files, Image, Head, ShortenedAll;
    RetiredSurvive(s, older, cut, orphanSurvives);
  }

  lemma RetiredAreOlder(s: LogState)
    requires LogInv(s)
    ensures forall i :: 0 <= i < |Files(s.closed)| ==> Files(s.closed)[i].base < s.active.base
  {
    hide LogInv, FileOf, Chain;
    ChainOf(s);
    BasesAscend(Segs(s), s.floor);
    forall i | 0 <= i < |s.closed| ensures FileOf(s.closed[i]).base < s.active.base {
      FileBase(s.closed[i]);
      assert Segs(s)[i] == s.closed[i];
    }
  }

  lemma FileBase(g: Seg)
    ensures FileOf(g).base == g.base
  {
  }

  /** First-ever open, and one that crashed before its manifest was written. */
  lemma FreshDisksOpen()
    ensures OpenedLog(Disk([], None)) == Ok(OpenedState(FreshLog()))
    ensures OpenedLog(Disk([SegFile(0, [])], None)) == Ok(OpenedState(FreshLog()))
  {
    hide ScanFrom;
    StopsAtEnd(StartScan(0));
    var files := [SegFile(0, [])];
    var done := Sorted([], Some((SegFile(0, []), 0)));
    assert files[1..] == [];
    assert files[0].bytes[..0] == [];
    assert SortSegments([], 0, done) == Ok(done);
    assert SortSegments(files, 0, Sorted([], None)) == Ok(done);
    assert Files([]) == [] && Image([]) == [] && Events([]) == [];
  }

  // ── one step ───────────────────────────────────────────────────────────

  /** Everything below the old committed head is still there, unless retention moved
      the floor past it, and neither the floor nor the committed head moved back. */
  ghost predicate Kept(s: LogState, t: LogState) {
    && s.floor <= t.floor <= s.committed <= t.committed
    && t.committed - t.floor <= |Readable(t)| && s.committed - s.floor <= |Readable(s)|
    && Readable(t)[..s.committed - t.floor] == Readable(s)[t.floor - s.floor..s.committed - s.floor]
  }

  lemma StateFrom(segs: seq<Seg>, closed: seq<Seg>, active: Seg, floor: nat)
    requires segs == closed + [active] && Chain(segs, floor)
    ensures forall i :: 0 <= i < |closed| ==> Linked(closed[i], segs[i + 1], floor)
  {
    hide ValidUnits;
    forall i | 0 <= i < |closed| ensures Linked(closed[i], segs[i + 1], floor) {
      assert Linked(segs[i], segs[i + 1], floor) && segs[i] == closed[i];
    }
  }

  /** Replacing the active segment by one that starts at the same base. */
  lemma ReplaceActive(s: LogState, active: Seg, stage: RollStage, committed: nat)
    requires LogInv(s)
    requires active.base == s.active.base && ValidUnits(active.units, active.base) && active.synced <= |active.units|
    requires !stage.Idle? ==> active.synced == |active.units|
    requires stage.Created? ==> End(active) > active.base
    requires s.floor <= committed <= active.base + |Events(active.units[..active.synced])|
    ensures LogInv(s.(active := active, stage := stage, committed := committed))
  {
    hide ValidUnits, Events, AllValid, AllLinked, FloorIsBase, RetiredSynced;
    var t := s.(active := active, stage := stage, committed := committed);
    ReplacedChain(s, t);
    SameRetired(s, t);
  }

  lemma ReplacedChain(s: LogState, t: LogState)
    requires AllValid(s) && AllLinked(s) && FloorIsBase(s)
    requires t.closed == s.closed && t.floor == s.floor && t.active.base == s.active.base && ValidUnits(t.active.units, t.active.base)
    ensures AllValid(t) && AllLinked(t) && FloorIsBase(t)
  {
    hide ValidUnits, AllValid, AllLinked, FloorIsBase;
    ReplacedValid(s, t);
    ReplacedLinked(s, t);
    ReplacedFloor(s, t);
  }

  lemma ReplacedValid(s: LogState, t: LogState)
    requires AllValid(s) && t.closed == s.closed && ValidUnits(t.active.units, t.active.base)
    ensures AllValid(t)
  {
    hide ValidUnits;
    forall i | 0 <= i < |Segs(t)| ensures ValidUnits(Segs(t)[i].units, Segs(t)[i].base) {
      if i < |s.closed| {
        assert Segs(s)[i] == Segs(t)[i];
      }
    }
  }

  lemma ReplacedLinked(s: LogState, t: LogState)
    requires AllLinked(s) && t.closed == s.closed && t.floor == s.floor && t.active.base == s.active.base
    ensures AllLinked(t)
  {
    forall i | 0 <= i < |t.closed| ensures Linked(t.closed[i], Segs(t)[i + 1], t.floor) {
      assert Linked(s.closed[i], Segs(s)[i + 1], s.floor);
      assert Segs(t)[i + 1].base == Segs(s)[i + 1].base;
    }
  }

  lemma ReplacedFloor(s: LogState, t: LogState)
    requires FloorIsBase(s) && t.closed == s.closed && t.floor == s.floor && t.active.base == s.active.base
    ensures FloorIsBase(t)
  {
    var k :| 0 <= k < |Segs(s)| && Segs(s)[k].base == s.floor;
    assert Segs(t)[k].base == t.floor;
  }

  lemma SameRetired(s: LogState, t: LogState)
    requires RetiredSynced(s) && t.closed == s.closed
    ensures RetiredSynced(t)
  {
  }

  lemma ReadableOf(s: LogState)
    requires s.active.base >= s.floor
    ensures Readable(s) == ReadableFrom(s.closed, s.floor) + Events(s.active.units)
  {
    hide ReadableFrom, Events;
    ReadableConcat(s.closed, [s.active], s.floor);
    ReadableOfOne(s.active, s.floor);
  }

  lemma SyncedAll(g: Seg)
    ensures g.units[..|g.units|] == g.units
  {
  }

  lemma ActiveStepKeeps(s: LogState, step: Step)
    requires LogInv(s) && Enabled(s, step)
    requires step.Append? || step.Commit? || step.RollSync? || step.RollCreate? || step.Crash?
    ensures LogInv(Apply(s, step)) && Kept(s, Apply(s, step))
  {
    hide ValidUnits, ValidUnit, Events, LogInv, Recovered, ShortenedAll, Cuttable;
    match step
    case Append(u) => AppendReplaces(s, u);
    case Commit => SyncReplaces(s, Idle, Head(s));
    case RollSync => SyncReplaces(s, Synced, s.committed);
    case RollCreate => CreateReplaces(s);
    case Crash(older, cut, orphanSurvives) => CrashReplaces(s, older, cut, orphanSurvives);
  }

  /** A step that replaces the active segment keeps the invariant and what was committed, if
      the events it holds before and after extend one another. */
  lemma ReplacedKeeps(s: LogState, t: LogState)
    requires LogInv(s) && t == s.(active := t.active, stage := t.stage, committed := t.committed)
    requires t.active.base == s.active.base && ValidUnits(t.active.units, t.active.base) && t.active.synced <= |t.active.units|
    requires !t.stage.Idle? ==> t.active.synced == |t.active.units|
    requires t.stage.Created? ==> Head(t) > t.active.base
    requires s.committed <= t.committed <= SyncedHead(t)
    requires Events(s.active.units) <= Events(t.active.units) || Events(t.active.units) <= Events(s.active.units)
    ensures LogInv(t) && Kept(s, t)
  {
    hide ValidUnits, Events, LogInv, Readable, ReadableFrom;
    InvParts(s);
    ReplaceActive(s, t.active, t.stage, t.committed);
    InvParts(t);
    ReadableShape(s);
    ReadableShape(t);
    ReadableOf(s);
    ReadableOf(t);
    KeepPrefix(ReadableFrom(s.closed, s.floor), Events(s.active.units), Events(t.active.units), s.committed - s.floor);
  }

  lemma AppendReplaces(s: LogState, u: Unit)
    requires LogInv(s) && Enabled(s, Append(u))
    ensures LogInv(Apply(s, Append(u))) && Kept(s, Apply(s, Append(u)))
  {
    hide ValidUnits, ValidUnit, Events, LogInv, Kept;
    InvParts(s);
    UnitsSnoc(s.active.units, u, s.active.base);
    var t := Apply(s, Append(u));
    assert t.active.units[..t.active.synced] == s.active.units[..s.active.synced];
    ReplacedKeeps(s, t);
  }

  /** Syncing, as a commit or as the first stage of a roll. */
  lemma SyncReplaces(s: LogState, stage: RollStage, committed: nat)
    requires LogInv(s) && !stage.Created? && (committed == s.committed || committed == Head(s))
    ensures var t := s.(active := s.active.(synced := |s.active.units|), stage := stage, committed := committed);
      LogInv(t) && Kept(s, t)
  {
    hide ValidUnits, Events, LogInv, Kept;
    InvParts(s);
    SyncedAll(s.active);
    ReplacedKeeps(s, s.(active := s.active.(synced := |s.active.units|), stage := stage, committed := committed));
  }

  lemma CreateReplaces(s: LogState)
    requires LogInv(s) && Enabled(s, RollCreate)
    ensures LogInv(Apply(s, RollCreate)) && Kept(s, Apply(s, RollCreate))
  {
    hide ValidUnits, Events, LogInv, Kept;
    InvParts(s);
    ReplacedKeeps(s, Apply(s, RollCreate));
  }

  lemma CrashReplaces(s: LogState, older: seq<nat>, cut: nat, orphanSurvives: bool)
    requires LogInv(s) && Enabled(s, Crash(older, cut, orphanSurvives))
    ensures LogInv(Apply(s, Crash(older, cut, orphanSurvives))) && Kept(s, Apply(s, Crash(older, cut, orphanSurvives)))
  {
    hide ValidUnits, Events, LogInv, Recovered, ShortenedAll, Kept;
    InvParts(s);
    RecoveredShape(s.active, cut);
    RetiredSurvive(s, older, cut, orphanSurvives);
    ReplacedKeeps(s, Apply(s, Crash(older, cut, orphanSurvives)));
  }

  lemma KeepPrefix(before: seq<Record>, a: seq<Record>, b: seq<Record>, n: nat)
    requires a <= b || b <= a
    requires n <= |before + a| && n <= |before + b|
    ensures (before + a)[..n] == (before + b)[..n]
  {
  }

  lemma InvParts(s: LogState)
    requires LogInv(s)
    ensures ValidUnits(s.active.units, s.active.base)
    ensures s.active.synced <= |s.active.units|
    ensures !s.stage.Idle? ==> s.active.synced == |s.active.units|
    ensures s.stage.Created? ==> Head(s) > s.active.base
    ensures s.floor <= s.committed <= s.active.base + |Events(s.active.units[..s.active.synced])|
    ensures s.active.base + |Events(s.active.units[..s.active.synced])| <= Head(s)
  {
    hide ValidUnits;
    assert Segs(s)[|s.closed|] == s.active;
    SyncedAll(s.active);
    PrefixEvents(s.active.units, s.active.synced, |s.active.units|);
  }

  lemma SwitchKeeps(s: LogState)
    requires LogInv(s) && Enabled(s, RollSwitch)
    ensures LogInv(Apply(s, RollSwitch)) && Kept(s, Apply(s, RollSwitch))
  {
    hide ValidUnits, Events, Readable, AllValid, AllLinked, FloorIsBase, RetiredSynced;
    var t := Apply(s, RollSwitch);
    InvParts(s);
    ReadableShape(s);
    NoUnits(Head(s));
    SyncedAll(s.active);
    SwitchedChain(s);
    SwitchedRetired(s);
    ReadableOfSwitch(s);
    ReadableShape(t);
  }

  lemma SwitchedRetired(s: LogState)
    requires RetiredSynced(s) && s.active.synced == |s.active.units|
    ensures RetiredSynced(Apply(s, RollSwitch))
  {
  }

  lemma SwitchedChain(s: LogState)
    requires AllValid(s) && AllLinked(s) && FloorIsBase(s) && Head(s) > s.active.base
    ensures AllValid(Apply(s, RollSwitch)) && AllLinked(Apply(s, RollSwitch)) && FloorIsBase(Apply(s, RollSwitch))
  {
    hide ValidUnits, Events;
    var t := Apply(s, RollSwitch);
    NoUnits(Head(s));
    assert Segs(t) == Segs(s) + [t.active];
    forall i | 0 <= i < |t.closed| ensures Linked(t.closed[i], Segs(t)[i + 1], t.floor) {
      if i < |s.closed| {
        assert Linked(s.closed[i], Segs(s)[i + 1], s.floor);
        assert Segs(t)[i + 1] == Segs(s)[i + 1];
      }
    }
    forall i | 0 <= i < |Segs(t)| ensures ValidUnits(Segs(t)[i].units, Segs(t)[i].base) {
      if i < |Segs(s)| {
        assert Segs(t)[i] == Segs(s)[i];
      }
    }
    var k :| 0 <= k < |Segs(s)| && Segs(s)[k].base == s.floor;
    assert Segs(t)[k].base == t.floor;
  }

  lemma NoUnits(base: nat)
    ensures ValidUnits([], base) && Events([]) == [] && Image([]) == []
  {
  }

  lemma ReadableOfSwitch(s: LogState)
    requires s.floor <= Head(s)
    ensures Readable(Apply(s, RollSwitch)) == Readable(s)
  {
    hide ReadableFrom, Events;
    var t := Apply(s, RollSwitch);
    assert Segs(t) == Segs(s) + [t.active];
    ReadableConcat(Segs(s), [t.active], s.floor);
    ReadableOfOne(t.active, s.floor);
    NoUnits(Head(s));
  }

  lemma RetainKeepsInv(s: LogState, requested: nat)
    requires LogInv(s) && Enabled(s, Retain(requested))
    ensures LogInv(Apply(s, Retain(requested))) && s.floor <= RetentionBoundary(s, requested) <= s.committed
  {
    hide ValidUnits, Events, RetentionBoundary;
    var t := Apply(s, Retain(requested));
    BoundaryIsBase(s, requested);
    assert Segs(t) == Segs(s);
    forall i | 0 <= i < |t.closed| ensures Linked(t.closed[i], Segs(t)[i + 1], t.floor) {
      assert Linked(s.closed[i], Segs(s)[i + 1], s.floor);
    }
  }

  lemma RetainKeeps(s: LogState, requested: nat)
    requires LogInv(s) && Enabled(s, Retain(requested))
    ensures LogInv(Apply(s, Retain(requested))) && Kept(s, Apply(s, Retain(requested)))
  {
    hide ValidUnits, Events, ReadableFrom, LogInv, RetentionBoundary, Chain;
    var t := Apply(s, Retain(requested));
    RetainKeepsInv(s, requested);
    InvParts(s);
    ReadableShape(s);
    ReadableShape(t);
    ChainOf(s);
    BasesAscend(Segs(s), s.floor);
    var dropped := RaiseFloor(Segs(s), s.floor, t.floor);
    assert |dropped| == t.floor - s.floor;
    assert Readable(s)[|dropped|..s.committed - s.floor] == Readable(t)[..s.committed - t.floor];
  }

  lemma ReclaimKeepsInv(s: LogState, stuck: set<nat>)
    requires LogInv(s) && Enabled(s, Reclaim(stuck))
    ensures LogInv(Apply(s, Reclaim(stuck)))
  {
    hide ValidUnits, Events, Reclaimed, Linked;
    var t := Apply(s, Reclaim(stuck));
    ChainOf(s);
    ReclaimedKeepsChain(s.closed, s.active, s.floor, stuck);
    StateFrom(Segs(t), t.closed, t.active, t.floor);
    ReclaimedSynced(s.closed, s.floor, stuck);
    FloorStaysBase(s, stuck);
  }

  lemma ReclaimedSynced(closed: seq<Seg>, floor: nat, stuck: set<nat>)
    requires forall i :: 0 <= i < |closed| ==> closed[i].synced == |closed[i].units|
    ensures var kept := Reclaimed(closed, floor, stuck); forall i :: 0 <= i < |kept| ==> kept[i].synced == |kept[i].units|
  {
    hide Reclaimed;
    ReclaimedSubset(closed, floor, stuck);
    var kept := Reclaimed(closed, floor, stuck);
    forall i | 0 <= i < |kept| ensures kept[i].synced == |kept[i].units| {
      assert kept[i] in kept;
    }
  }

  lemma FloorStaysBase(s: LogState, stuck: set<nat>)
    requires HasBase(Segs(s), s.floor)
    ensures HasBase(Segs(Apply(s, Reclaim(stuck))), s.floor)
  {
    hide Reclaimed;
    var t := Apply(s, Reclaim(stuck));
    ReclaimedSubset(s.closed, s.floor, stuck);
    var k :| 0 <= k < |Segs(s)| && Segs(s)[k].base == s.floor;
    if k < |s.closed| {
      assert s.closed[k] in t.closed;
      var j :| 0 <= j < |t.closed| && t.closed[j] == s.closed[k];
      assert Segs(t)[j].base == t.floor;
    } else {
      assert Segs(t)[|t.closed|].base == t.floor;
    }
  }

  /** Whichever removals fail, reclaim changes nothing a reader at or above the floor sees. */
  lemma ReclaimKeeps(s: LogState, stuck: set<nat>)
    requires LogInv(s) && Enabled(s, Reclaim(stuck))
    ensures LogInv(Apply(s, Reclaim(stuck))) && Kept(s, Apply(s, Reclaim(stuck)))
    ensures Readable(Apply(s, Reclaim(stuck))) == Readable(s)
  {
    hide ValidUnits, Events, ReadableFrom, Reclaimed, LogInv;
    var t := Apply(s, Reclaim(stuck));
    ReclaimKeepsInv(s, stuck);
    ReclaimedReadsSame(s.closed, s.floor, stuck);
    ReadableConcat(s.closed, [s.active], s.floor);
    ReadableConcat(t.closed, [s.active], s.floor);
    ReadableShape(s);
    InvParts(s);
  }

  lemma StepKeeps(s: LogState, step: Step)
    requires LogInv(s) && Enabled(s, step)
    ensures LogInv(Apply(s, step)) && Kept(s, Apply(s, step))
  {
    match step
    case RollSwitch => SwitchKeeps(s);
    case Retain(requested) => RetainKeeps(s, requested);
    case Reclaim(stuck) => ReclaimKeeps(s, stuck);
    case Append(_) => ActiveStepKeeps(s, step);
    case Commit => ActiveStepKeeps(s, step);
    case RollSync => ActiveStepKeeps(s, step);
    case RollCreate => ActiveStepKeeps(s, step);
    case Crash(_, _, _) => ActiveStepKeeps(s, step);
  }

  // ── whole runs ─────────────────────────────────────────────────────────

  lemma FreshIsInv()
    ensures LogInv(FreshLog())
  {
    NoUnits(0);
    assert Segs(FreshLog())[0].base == 0;
  }

  /** The record a read of position `p` returns. */
  function EventAt(s: LogState, p: nat): Record
    requires s.floor <= p < s.floor + |Readable(s)|
  {
    Readable(s)[p - s.floor]
  }

  ghost predicate NothingLost(s: LogState, t: LogState) {
    && s.floor <= t.floor && s.committed <= t.committed
    && t.committed - t.floor <= |Readable(t)| && s.committed - s.floor <= |Readable(s)|
    && forall p :: t.floor <= p < s.committed ==> EventAt(t, p) == EventAt(s, p)
  }

  /** After any run of appends, commits, interrupted rolls, retention steps and crashes,
      every position a commit once covered still reads as the same record, until
      retention moves the floor above it. */
  lemma {:induction false} CommittedIsForever(s: LogState, steps: seq<Step>)
    requires LogInv(s) && RunFrom(s, steps)
    ensures LogInv(After(s, steps)) && NothingLost(s, After(s, steps))
    decreases |steps|
  {
    hide LogInv, Enabled, Apply, Readable;
    CommittedReadable(s);
    if steps != [] {
      var t := Apply(s, steps[0]);
      StepKeeps(s, steps[0]);
      CommittedIsForever(t, steps[1..]);
      var last := After(s, steps);
      forall p | last.floor <= p < s.committed ensures EventAt(last, p) == EventAt(s, p) {
        assert EventAt(t, p) == Readable(t)[..s.committed - t.floor][p - t.floor];
        assert EventAt(s, p) == Readable(s)[t.floor - s.floor..s.committed - s.floor][p - t.floor];
        assert EventAt(last, p) == EventAt(t, p);
      }
    }
  }

  lemma CommittedReadable(s: LogState)
    requires LogInv(s)
    ensures s.floor <= s.committed && s.committed - s.floor <= |Readable(s)|
  {
    hide ValidUnits, Events;
    InvParts(s);
    ReadableShape(s);
  }

  lemma ReachableIsInv(s: LogState)
    requires Reachable(s)
    ensures LogInv(s)
  {
    FreshIsInv();
    var steps :| RunFrom(FreshLog(), steps) && After(FreshLog(), steps) == s;
    CommittedIsForever(FreshLog(), steps);
  }
}
