/** The log object: the active segment behind a manifest and a list of closed ones.
    Each operation is a sequence of steps of `LogMachine`. */
module Log {
  import opened Base
  import opened Format
  import opened RecordWalk
  import opened RecordWalkLaws
  import opened SegmentFile
  import opened LogMachine
  import opened LogLaws
  import opened LogSafety

  predicate Full(s: LogState, maxBytes: nat) {
    |Image(s.active.units)| >= maxBytes
  }

  function Rolled(s: LogState): LogState {
    Apply(Apply(Apply(s, RollSync), RollCreate), RollSwitch)
  }

  /** A roll is three steps of the machine, each of which may be the last before a crash. */
  lemma RollIsSteps(s: LogState)
    requires LogInv(s) && s.stage.Idle? && Head(s) > s.active.base
    ensures RunFrom(s, [RollSync, RollCreate, RollSwitch]) && After(s, [RollSync, RollCreate, RollSwitch]) == Rolled(s)
    ensures LogInv(Rolled(s)) && Head(Rolled(s)) == Head(s) && Rolled(s).active.base == Head(s)
  {
    hide LogInv, RunFrom, After, Events;
    StepKeeps(s, RollSync);
    StepKeeps(Apply(s, RollSync), RollCreate);
    StepKeeps(Apply(Apply(s, RollSync), RollCreate), RollSwitch);
    NoUnits(Head(s));
    ThreeSteps(s, RollSync, RollCreate, RollSwitch);
  }

  lemma ThreeSteps(s: LogState, a: Step, b: Step, c: Step)
    requires Enabled(s, a) && Enabled(Apply(s, a), b) && Enabled(Apply(Apply(s, a), b), c)
    ensures RunFrom(s, [a, b, c]) && After(s, [a, b, c]) == Apply(Apply(Apply(s, a), b), c)
  {
    hide Enabled, Apply;
    var steps := [a, b, c];
    assert steps[1..] == [b, c] && [b, c][1..] == [c] && [c][1..] == [];
    var t := Apply(s, a);
    assert RunFrom(Apply(t, b), [c]) && After(Apply(t, b), [c]) == Apply(Apply(t, b), c);
    assert RunFrom(t, [b, c]) && After(t, [b, c]) == Apply(Apply(t, b), c);
  }

  /** The state an append writes into: the segment is rolled first when it is full. */
  function Ready(s: LogState, maxBytes: nat): LogState {
    if Full(s, maxBytes) then Rolled(s) else s
  }

  // ── what every call answers and leaves behind ──────────────────────────

  /** A full segment without events: its successor would have its name. */
  predicate Stuck(s: LogState, maxBytes: nat) {
    Full(s, maxBytes) && Head(s) == s.active.base
  }

  /** The roll synced the segment before it failed. */
  function RollRefused(s: LogState): LogState {
    Apply(s, RollSync).(stage := Idle)
  }

  function AfterBatch(s: LogState, maxBytes: nat, drafts: seq<Draft>): (Result<(nat, nat)>, LogState)
    requires Head(s) + |drafts| < POSITIONS
  {
    hide EncodedKind, EncodedEvents, ControlEnvelope, BatchControlPayload, FrameBytes, Ready, Stuck;
    if Stuck(s, maxBytes) then (Err(SegmentExists), RollRefused(s))
    else match WrittenBatch(Head(s), drafts)
      case Err(error) => (Err(error), Ready(s, maxBytes))
      case Ok(u) => (Ok((Head(s), Head(s) + |drafts| - 1)), Apply(Ready(s, maxBytes), Append(u)))
  }

  function AfterSystem(s: LogState, maxBytes: nat, envelope: Envelope, payload: Bytes): (Result<()>, LogState)
    requires Head(s) < POSITIONS
  {
    hide EncodedKind, Ready, Stuck;
    if Stuck(s, maxBytes) then (Err(SegmentExists), RollRefused(s))
    else match EncodedKind(System, Head(s), envelope, payload)
      case Err(error) => (Err(error), Ready(s, maxBytes))
      case Ok(f) => (Ok(()), Apply(Ready(s, maxBytes), Append(Sys(f))))
  }

  datatype Call = BatchCall(drafts: seq<Draft>) | SystemCall(envelope: Envelope, payload: Bytes) | CommitCall

  predicate Callable(s: LogState, call: Call) {
    match call
    case BatchCall(drafts) => Head(s) + |drafts| < POSITIONS
    case SystemCall(_, _) => Head(s) < POSITIONS
    case CommitCall => true
  }

  /** The error a call returns, if any, and the state after it. */
  function AfterCall(s: LogState, maxBytes: nat, call: Call): (Option<Error>, LogState)
    requires Callable(s, call)
  {
    match call
    case BatchCall(drafts) =>
      var (r, t) := AfterBatch(s, maxBytes, drafts);
      (if r.Err? then Some(r.error) else None, t)
    case SystemCall(envelope, payload) =>
      var (r, t) := AfterSystem(s, maxBytes, envelope, payload);
      (if r.Err? then Some(r.error) else None, t)
    case CommitCall => (None, Apply(s, Commit))
  }

  /** The answers to a sequence of calls and the state after them, while each is callable. */
  function Answers(s: LogState, maxBytes: nat, calls: seq<Call>): (seq<Option<Error>>, LogState)
    decreases |calls|
  {
    if calls == [] || !Callable(s, calls[0]) then ([], s)
    else
      var (answer, t) := AfterCall(s, maxBytes, calls[0]);
      var (more, last) := Answers(t, maxBytes, calls[1..]);
      ([answer] + more, last)
  }

  /** Same contents, however much of them is synced. */
  predicate SameContents(s: LogState, t: LogState) {
    && t.closed == s.closed && t.active.base == s.active.base && t.active.units == s.active.units
    && t.stage.Idle? && t.floor == s.floor
  }

  predicate AllCallable(s: LogState, calls: seq<Call>) {
    forall i :: 0 <= i < |calls| ==> Callable(s, calls[i])
  }

  /** Every batch and every system frame was refused. */
  predicate AllRefused(answers: seq<Option<Error>>, calls: seq<Call>) {
    && |answers| == |calls|
    && forall i :: 0 <= i < |answers| ==> answers[i] == if calls[i].CommitCall? then None else Some(SegmentExists)
  }

  /** STUCK FOR GOOD: once the full active segment holds no event, every batch and every
      system frame of every later call is refused, and nothing is ever stored again. */
  lemma {:induction false} StuckForever(s: LogState, maxBytes: nat, calls: seq<Call>)
    requires Stuck(s, maxBytes) && s.stage.Idle? && AllCallable(s, calls)
    ensures var (answers, last) := Answers(s, maxBytes, calls);
      AllRefused(answers, calls) && SameContents(s, last) && Stuck(last, maxBytes)
    decreases |calls|
  {
    hide WrittenBatch, EncodedKind, Image, Events;
    if calls != [] {
      StuckForever(AfterCall(s, maxBytes, calls[0]).1, maxBytes, calls[1..]);
    }
  }

  /** SEGMENT SIZES: a segment takes a unit only while it is smaller than the limit, and is
      retired only once it is not. */
  ghost predicate Sized(s: LogState, maxBytes: nat) {
    && (forall i :: 0 <= i < |Segs(s)| ==> SizedSeg(Segs(s)[i], maxBytes))
    && (forall i :: 0 <= i < |s.closed| ==> |Image(s.closed[i].units)| >= maxBytes)
  }

  predicate SizedSeg(g: Seg, maxBytes: nat) {
    g.units != [] ==> |Image(g.units[..|g.units| - 1])| < maxBytes
  }

  lemma SizedAppend(s: LogState, maxBytes: nat, u: Unit)
    requires Sized(s, maxBytes) && !Full(s, maxBytes)
    ensures Sized(Apply(s, Append(u)), maxBytes)
  {
    hide Image;
    var t := Apply(s, Append(u));
    assert t.active.units[..|s.active.units|] == s.active.units;
    forall i | 0 <= i < |Segs(t)| ensures SizedSeg(Segs(t)[i], maxBytes) {
      if i < |s.closed| {
        assert Segs(t)[i] == Segs(s)[i];
      }
    }
  }

  lemma SizedRoll(s: LogState, maxBytes: nat)
    requires Sized(s, maxBytes) && Full(s, maxBytes) && !Stuck(s, maxBytes) && s.stage.Idle?
    ensures Sized(Rolled(s), maxBytes) && Rolled(s).stage.Idle? && (maxBytes > 0 ==> !Full(Rolled(s), maxBytes))
  {
    hide Image, Events;
    NoUnits(Head(s));
    var t := Rolled(s);
    assert Segs(s)[|s.closed|] == s.active;
    forall i | 0 <= i < |Segs(t)| ensures SizedSeg(Segs(t)[i], maxBytes) {
      if i < |s.closed| {
        assert Segs(t)[i] == Segs(s)[i];
      }
    }
    forall i | 0 <= i < |t.closed| ensures |Image(t.closed[i].units)| >= maxBytes {
      if i < |s.closed| {
        assert t.closed[i] == s.closed[i];
      }
    }
  }

  lemma SizedSync(s: LogState, t: LogState, maxBytes: nat)
    requires Sized(s, maxBytes) && t.closed == s.closed && t.active.units == s.active.units
    ensures Sized(t, maxBytes)
  {
    hide Image;
    assert Segs(s)[|s.closed|] == s.active;
    forall i | 0 <= i < |Segs(t)| ensures SizedSeg(Segs(t)[i], maxBytes) {
      if i < |s.closed| {
        assert Segs(t)[i] == Segs(s)[i];
      }
    }
  }

  lemma SizedReady(s: LogState, maxBytes: nat)
    requires Sized(s, maxBytes) && !Stuck(s, maxBytes) && s.stage.Idle? && maxBytes > 0
    ensures Sized(Ready(s, maxBytes), maxBytes) && Ready(s, maxBytes).stage.Idle? && !Full(Ready(s, maxBytes), maxBytes)
  {
    hide Rolled, Sized;
    if Full(s, maxBytes) {
      SizedRoll(s, maxBytes);
    }
  }

  /** SIZES HOLD over every sequence of calls; a log with limit zero takes nothing. */
  lemma {:induction false} SizesHold(s: LogState, maxBytes: nat, calls: seq<Call>)
    requires Sized(s, maxBytes) && s.stage.Idle? && (maxBytes == 0 ==> Stuck(s, maxBytes))
    ensures Sized(Answers(s, maxBytes, calls).1, maxBytes)
    decreases |calls|
  {
    hide WrittenBatch, EncodedKind, Image, Events, Sized, Ready, Stuck;
    if calls != [] && Callable(s, calls[0]) {
      SizedCall(s, maxBytes, calls[0]);
      SizesHold(AfterCall(s, maxBytes, calls[0]).1, maxBytes, calls[1..]);
    }
  }

  lemma SizedCall(s: LogState, maxBytes: nat, call: Call)
    requires Sized(s, maxBytes) && s.stage.Idle? && (maxBytes == 0 ==> Stuck(s, maxBytes)) && Callable(s, call)
    ensures Sized(AfterCall(s, maxBytes, call).1, maxBytes) && AfterCall(s, maxBytes, call).1.stage.Idle?
    ensures maxBytes == 0 ==> Stuck(AfterCall(s, maxBytes, call).1, maxBytes)
  {
    hide WrittenBatch, EncodedKind, Image, Events, Sized, Ready, Stuck, Full;
    StuckIsContents(s, Apply(s, Commit), maxBytes);
    StuckIsContents(s, RollRefused(s), maxBytes);
    if call.CommitCall? {
      SizedSync(s, Apply(s, Commit), maxBytes);
    } else if Stuck(s, maxBytes) {
      SizedSync(s, RollRefused(s), maxBytes);
    } else {
      SizedReady(s, maxBytes);
      match call
      case BatchCall(drafts) =>
        if WrittenBatch(Head(s), drafts).Ok? {
          SizedAppend(Ready(s, maxBytes), maxBytes, WrittenBatch(Head(s), drafts).value);
        }
      case SystemCall(envelope, payload) =>
        if EncodedKind(System, Head(s), envelope, payload).Ok? {
          SizedAppend(Ready(s, maxBytes), maxBytes, Sys(EncodedKind(System, Head(s), envelope, payload).value));
        }
    }
  }

  lemma StuckIsContents(s: LogState, t: LogState, maxBytes: nat)
    requires t.active.units == s.active.units && t.active.base == s.active.base
    ensures Stuck(s, maxBytes) <==> Stuck(t, maxBytes)
  {
    hide Image, Events;
  }

  /** A crash makes the active segment smaller and no other. */
  lemma SizedAfterCrash(s: LogState, maxBytes: nat, older: seq<nat>, cut: nat, orphanSurvives: bool)
    requires LogInv(s) && Sized(s, maxBytes) && Enabled(s, Crash(older, cut, orphanSurvives))
    ensures Sized(Apply(s, Crash(older, cut, orphanSurvives)), maxBytes)
  {
    hide LogInv, Image, Recovered, ShortenedAll, ValidUnits, Events;
    InvParts(s);
    RetiredSurvive(s, older, cut, orphanSurvives);
    RecoveredShape(s.active, cut);
    var t := Apply(s, Crash(older, cut, orphanSurvives));
    assert Segs(s)[|s.closed|] == s.active;
    forall i | 0 <= i < |Segs(t)| ensures SizedSeg(Segs(t)[i], maxBytes) {
      if i < |s.closed| {
        assert Segs(t)[i] == Segs(s)[i];
      } else if t.active.units != [] {
        assert t.active.units[..|t.active.units| - 1] == s.active.units[..|t.active.units| - 1];
        assert s.active.units[..|s.active.units| - 1][..|t.active.units| - 1] == s.active.units[..|t.active.units| - 1];
        ImageMonotone(s.active.units, |t.active.units| - 1, |s.active.units| - 1);
      }
    }
  }

  /** Every log written from its beginning has segments of the right size. */
  lemma FreshRunsAreSized(maxBytes: nat, calls: seq<Call>)
    ensures Sized(Answers(FreshLog(), maxBytes, calls).1, maxBytes)
  {
    hide Answers;
    SizesHold(FreshLog(), maxBytes, calls);
  }

  function TotalBytes(files: seq<SegFile>): nat {
    if files == [] then 0 else |files[0].bytes| + TotalBytes(files[1..])
  }

  function FilesFrom(files: seq<SegFile>, floor: nat): seq<SegFile> {
    if files == [] then []
    else (if files[0].base >= floor then [files[0]] else []) + FilesFrom(files[1..], floor)
  }

  ghost predicate RecoveredFrom(segment: Segment, original: Bytes, durable: nat, written: seq<Unit>)
    reads segment
  {
    && (segment.file == Image(written) && ValidUnits(written, segment.baseOffset) ==> segment.units == written)
    && segment.syncedUnits == if |segment.file| < |original| then |segment.units| else Min(durable, |segment.units|)
  }

  ghost predicate HasFile(files: seq<SegFile>, base: nat, bytes: Bytes) {
    exists j :: 0 <= j < |files| && files[j].base == base && files[j].bytes == bytes
  }

  lemma CrashShape(s: LogState, older: seq<nat>, cut: nat, orphanSurvives: bool)
    requires LogInv(s) && Enabled(s, Crash(older, cut, orphanSurvives))
    ensures Apply(s, Crash(older, cut, orphanSurvives)) == LogState(s.closed, Recovered(s.active, cut), Idle, s.floor, s.committed)
    ensures s.active.synced <= |s.active.units| && cut <= |Image(s.active.units)|
  {
    hide LogInv, Recovered, ShortenedAll;
    RetiredSurvive(s, older, cut, orphanSurvives);
  }

  lemma OpenedParts(s: LogState)
    ensures FileOf(s.active) == SegFile(s.active.base, Image(s.active.units))
  {
  }

  /** The walk over the directory listing. */
  method WalkSegments(files: seq<SegFile>, activeBase: nat, ghost durable: nat, ghost written: seq<Unit>)
    returns (r: Result<(seq<SegFile>, Option<Segment>)>)
    ensures match SortSegments(files, activeBase, Sorted([], None))
      case Err(error) => r == Err(error)
      case Ok(sorted) =>
        && r.Ok? && r.value.0 == sorted.closed
        && (sorted.active.None? <==> r.value.1.None?)
        && (r.value.1.Some? ==>
              && fresh(r.value.1.value) && r.value.1.value.Valid() && r.value.1.value.baseOffset == activeBase
              && sorted.active == Some((SegFile(activeBase, r.value.1.value.file), r.value.1.value.nextOffset))
              && exists original :: RecoveredFrom(r.value.1.value, original, durable, written) && HasFile(files, activeBase, original))
  {
    hide Scan, Image, ValidUnits, Events, Segment.Valid;
    var closed: seq<SegFile> := [];
    var active: Option<Segment> := None;
    ghost var done := Sorted([], None);
    ghost var original: Bytes := [];
    var i := 0;
    assert files[0..] == files;
    while i < |files|
      invariant 0 <= i <= |files|
      invariant SortSegments(files, activeBase, Sorted([], None)) == SortSegments(files[i..], activeBase, done)
      invariant closed == done.closed
      invariant active.None? <==> done.active.None?
      invariant active.Some? ==>
        && fresh(active.value) && active.value.Valid() && active.value.baseOffset == activeBase
        && done.active == Some((SegFile(activeBase, active.value.file), active.value.nextOffset))
        && RecoveredFrom(active.value, original, durable, written) && HasFile(files, activeBase, original)
    {
      var f := files[i];
      assert files[i..][0] == f && files[i..][1..] == files[i + 1..];
      if f.base == activeBase {
        var segment :- Segment.Open(f.bytes, f.base, durable, written);
        active := Some(segment);
        original := f.bytes;
        done := done.(active := Some((SegFile(f.base, segment.file), segment.nextOffset)));
        assert HasFile(files, activeBase, original);
      } else if f.base < activeBase {
        closed := closed + [f];
        done := done.(closed := done.closed + [f]);
      } else {
        if f.bytes != [] {
          return Err(BadManifest);
        }
      }
      i := i + 1;
    }
    assert SortSegments(files[i..], activeBase, done) == Ok(done);
    return Ok((closed, active));
  }

  /** `retain` over the closed list: what stays and how many bytes went. */
  lemma NothingReclaimed(floor: nat, stuck: set<nat>)
    ensures Reclaimed([], floor, stuck) == [] && TotalBytes([]) == 0
  {
  }

  lemma ReclaimedStep(segs: seq<Seg>, i: nat, floor: nat, stuck: set<nat>)
    requires i < |segs|
    ensures Reclaimed(segs[i..], floor, stuck) ==
            (if segs[i].base >= floor || segs[i].base in stuck then [segs[i]] else []) + Reclaimed(segs[i + 1..], floor, stuck)
  {
    assert segs[i..][1..] == segs[i + 1..];
  }

  lemma TotalBytesStep(files: seq<SegFile>, i: nat)
    requires i < |files|
    ensures TotalBytes(files[i..]) == |files[i].bytes| + TotalBytes(files[i + 1..])
  {
    assert files[i..][1..] == files[i + 1..];
  }

  method RetainSegments(closed: seq<SegFile>, floor: nat, stuck: set<nat>, ghost segs: seq<Seg>)
    returns (kept: seq<SegFile>, reclaimed: nat)
    requires closed == Files(segs)
    ensures kept == Files(Reclaimed(segs, floor, stuck))
    ensures reclaimed + TotalBytes(kept) == TotalBytes(closed)
  {
    hide FileOf, Files, Reclaimed, TotalBytes;
    kept, reclaimed := [], 0;
    ghost var keptSegs: seq<Seg> := [];
    var i := 0;
    FilesEach(segs);
    FilesEach(keptSegs);
    assert closed[0..] == closed && segs[0..] == segs;
    NothingReclaimed(floor, stuck);
    while i < |closed|
      invariant 0 <= i <= |closed|
      invariant kept == Files(keptSegs)
      invariant Reclaimed(segs, floor, stuck) == keptSegs + Reclaimed(segs[i..], floor, stuck)
      invariant reclaimed + TotalBytes(kept) + TotalBytes(closed[i..]) == TotalBytes(closed)
    {
      ReclaimedStep(segs, i, floor, stuck);
      TotalBytesStep(closed, i);
      FileBase(segs[i]);
      if closed[i].base >= floor || closed[i].base in stuck {
        TotalBytesSnoc(kept, closed[i]);
        FilesSnoc(keptSegs, segs[i]);
        kept := kept + [closed[i]];
        keptSegs := keptSegs + [segs[i]];
      } else {
        reclaimed := reclaimed + |closed[i].bytes|;
      }
      i := i + 1;
    }
    assert segs[i..] == [] && closed[i..] == [];
    assert keptSegs + [] == keptSegs;
  }

  lemma FilesEach(gs: seq<Seg>)
    ensures |Files(gs)| == |gs| && forall i :: 0 <= i < |gs| ==> Files(gs)[i] == FileOf(gs[i])
  {
  }

  lemma FilesSnoc(gs: seq<Seg>, g: Seg)
    ensures Files(gs + [g]) == Files(gs) + [FileOf(g)]
  {
  }

  /** Retaining from the `k`-th segment on: the lowest choice that fits the target. */
  ghost predicate FitsFrom(segments: seq<SegFile>, k: nat, target: nat, base: nat, retained: nat, satisfied: bool) {
    && k < |segments| && base == segments[k].base && retained == TotalBytes(segments[k..])
    && (satisfied <==> retained <= target) && (!satisfied ==> k == |segments| - 1)
    && forall j :: 0 <= j < k ==> TotalBytes(segments[j..]) > target
  }

  method FloorForBytes(segments: seq<SegFile>, target: nat) returns (base: nat, retained: nat, satisfied: bool)
    requires segments != [] && forall i :: 0 <= i < |segments| - 1 ==> segments[i].base != segments[|segments| - 1].base
    ensures exists k :: FitsFrom(segments, k, target, base, retained, satisfied)
  {
    hide TotalBytes;
    var activeBase := segments[|segments| - 1].base;
    retained := TotalBytes(segments);
    var i := 0;
    assert segments[0..] == segments;
    while i < |segments|
      invariant 0 <= i <= |segments|
      invariant i < |segments| ==> retained == TotalBytes(segments[i..])
      invariant forall j :: 0 <= j < i ==> TotalBytes(segments[j..]) > target
    {
      if retained <= target {
        assert FitsFrom(segments, i, target, segments[i].base, retained, true);
        return segments[i].base, retained, true;
      }
      TotalBytesUnfold(segments[i..]);
      assert segments[i..][1..] == segments[i + 1..];
      if segments[i].base != activeBase {
        retained := retained - |segments[i].bytes|;
      }
      i := i + 1;
    }
    var last := segments[|segments| - 1..];
    TotalBytesUnfold(last);
    assert last[1..] == [];
    TotalBytesUnfold(last[1..]);
    var activeBytes := |segments[|segments| - 1].bytes|;
    assert FitsFrom(segments, |segments| - 1, target, activeBase, activeBytes, activeBytes <= target);
    return activeBase, activeBytes, activeBytes <= target;
  }

  class Log {
    var closed: seq<SegFile>
    var active: Segment
    var manifest: Manifest
    const segmentMaxBytes: nat
    /** The units behind the closed files, and the last head a commit returned. */
    ghost var closedSegs: seq<Seg>
    ghost var committed: nat

    ghost function State(): LogState
      reads this, active
    {
      LogState(closedSegs, Seg(active.baseOffset, active.units, active.syncedUnits), Idle, manifest.retentionFloor, committed)
    }

    ghost predicate Valid()
      reads this, active
    {
      && closed == Files(closedSegs) && active.Valid() && LogInv(State())
      && manifest.activeBase == active.baseOffset
    }

    constructor Adopt(closed: seq<SegFile>, active: Segment, manifest: Manifest, maxBytes: nat, ghost segs: seq<Seg>, ghost committed: nat)
      ensures this.closed == closed && this.active == active && this.manifest == manifest && segmentMaxBytes == maxBytes
      ensures closedSegs == segs && this.committed == committed
    {
      this.closed, this.active, this.manifest, segmentMaxBytes := closed, active, manifest, maxBytes;
      closedSegs, this.committed := segs, committed;
    }

    /** Open the listed files under a manifest. */
    static method OpenFiles(files: seq<SegFile>, manifest: Manifest, maxBytes: nat, ghost durable: nat, ghost after: LogState) returns (r: Result<Log>)
      ensures r.Ok? <==> OpenedFrom(files, manifest).Ok?
      ensures r.Err? ==> OpenedFrom(files, manifest) == Err(r.error)
      ensures r.Ok? ==>
        && fresh(r.value) && fresh(r.value.active) && r.value.segmentMaxBytes == maxBytes && r.value.active.Valid()
        && r.value.closedSegs == after.closed && r.value.committed == after.committed
        && r.value.manifest.activeBase == r.value.active.baseOffset == manifest.activeBase
        && OpenedFrom(files, manifest).value == r.value.AsOpened()
        && exists original :: RecoveredFrom(r.value.active, original, durable, after.active.units) && HasFile(files, manifest.activeBase, original)
    {
      hide Image, ValidUnits, Events, Segment.Valid, SortSegments, RecoveredFrom, HasFile;
      var sorted :- WalkSegments(files, manifest.activeBase, durable, after.active.units);
      if sorted.1.None? {
        return Err(BadManifest);
      }
      var active := sorted.1.value;
      active.Facts();
      var current := manifest.(nextOffset := active.nextOffset);
      if current.retentionFloor > current.nextOffset {
        return Err(BadManifest);
      }
      var log := new Log.Adopt(sorted.0, active, current, maxBytes, after.closed, after.committed);
      return Ok(log);
    }

    /** What `open` holds in memory. */
    function AsOpened(): Opened
      reads this, active
    {
      Opened(closed, SegFile(active.baseOffset, active.file), active.nextOffset, manifest.retentionFloor)
    }

    /** Open any directory. When it is what a crash of the log `was` left behind, the
        reopened log is the machine's state after that crash. */
    static method Open(disk: Disk, maxBytes: nat, ghost was: LogState, ghost older: seq<nat>, ghost cut: nat, ghost orphanSurvives: bool) returns (r: Result<Log>)
      ensures r.Ok? <==> OpenedLog(disk).Ok?
      ensures r.Err? ==> OpenedLog(disk) == Err(r.error)
      ensures r.Ok? ==> fresh(r.value) && fresh(r.value.active) && r.value.segmentMaxBytes == maxBytes
      ensures r.Ok? ==> OpenedLog(disk).value == r.value.AsOpened()
      ensures LogInv(was) && Enabled(was, Crash(older, cut, orphanSurvives)) && disk == CrashDisk(was, older, cut, orphanSurvives) ==>
                r.Ok? && r.value.Valid() && r.value.State() == Apply(was, Crash(older, cut, orphanSurvives))
    {
      hide LogInv, Apply, OpenedFrom, Log.Valid, Log.State, Log.AsOpened, RecoveredFrom, HasFile, Segment.Valid, Image;
      ghost var crashed := LogInv(was) && Enabled(was, Crash(older, cut, orphanSurvives)) && disk == CrashDisk(was, older, cut, orphanSurvives);
      ghost var after := if crashed then Apply(was, Crash(older, cut, orphanSurvives)) else was;
      var files: seq<SegFile>, manifest: Manifest;
      if disk.manifest.None? {
        var booted :- BootstrapManifest(disk.files);
        files, manifest := booted.files, booted.manifest.value;
      } else {
        files, manifest := disk.files, disk.manifest.value;
      }
      if crashed {
        CrashReopens(was, older, cut, orphanSurvives);
      }
      var log :- OpenFiles(files, manifest, maxBytes, was.active.synced, after);
      if crashed {
        log.IsReopened(was, older, cut, orphanSurvives);
      }
      return Ok(log);
    }

    /** A log opened from what a crash left behind is the log after that crash. */
    lemma IsReopened(was: LogState, older: seq<nat>, cut: nat, orphanSurvives: bool)
      requires LogInv(was) && Enabled(was, Crash(older, cut, orphanSurvives))
      requires active.Valid() && manifest.activeBase == active.baseOffset == was.active.base
      requires OpenedLog(CrashDisk(was, older, cut, orphanSurvives)) == Ok(AsOpened())
      requires closedSegs == Apply(was, Crash(older, cut, orphanSurvives)).closed && committed == Apply(was, Crash(older, cut, orphanSurvives)).committed
      requires exists original ::
                 && RecoveredFrom(active, original, was.active.synced, Apply(was, Crash(older, cut, orphanSurvives)).active.units)
                 && HasFile(CrashDisk(was, older, cut, orphanSurvives).files, was.active.base, original)
      ensures Valid() && State() == Apply(was, Crash(older, cut, orphanSurvives))
    {
      hide LogInv, Kept, Image, ValidUnits, Events, Recovered, Files, FileOf, Segment.Valid, CrashDisk, OpenedLog, Apply, Head, Enabled;
      var after := Apply(was, Crash(older, cut, orphanSurvives));
      CrashReopens(was, older, cut, orphanSurvives);
      StepKeeps(was, Crash(older, cut, orphanSurvives));
      CrashShape(was, older, cut, orphanSurvives);
      InvParts(was);
      InvParts(after);
      OpenedParts(after);
      var original :| RecoveredFrom(active, original, was.active.synced, after.active.units)
                      && HasFile(CrashDisk(was, older, cut, orphanSurvives).files, was.active.base, original);
      OriginalIsCut(was, older, cut, orphanSurvives, CrashDisk(was, older, cut, orphanSurvives).files, original);
      RecoveredSync(was.active, cut);
    }

    method Roll() returns (r: Result<()>)
      requires Valid()
      modifies this, active
      ensures Valid() && (active == old(active) || fresh(active))
      ensures Head(old(State())) == old(active.baseOffset) ==>
                r == Err(SegmentExists) && State() == RollRefused(old(State())) && active == old(active)
      ensures Head(old(State())) > old(active.baseOffset) ==> r == Ok(()) && State() == Rolled(old(State()))
    {
      hide LogInv, Kept, Segment.Valid, Image, Events;
      active.Facts();
      var newBase := active.nextOffset;
      ghost var s := State();
      StepKeeps(s, RollSync);
      active.Sync();
      // `create_new` refuses the name of an existing segment
      if newBase == active.baseOffset {
        StepKeeps(Apply(s, RollSync), RollCreate);
        return Err(SegmentExists);
      }
      RollIsSteps(s);
      var newActive := new Segment.Create(newBase);
      closed := closed + [SegFile(active.baseOffset, active.file)];
      closedSegs := closedSegs + [Seg(active.baseOffset, active.units, active.syncedUnits)];
      active := newActive;
      manifest := manifest.(activeBase := newBase, nextOffset := newBase);
      assert State() == Rolled(s);
      return Ok(());
    }

    method AppendBatch(drafts: seq<Draft>) returns (r: Result<(nat, nat)>)
      requires Valid() && active.nextOffset + |drafts| < POSITIONS
      modifies this, active
      ensures active == old(active) || fresh(active)
      ensures Head(old(State())) == old(active.nextOffset)
      ensures (r, State()) == AfterBatch(old(State()), segmentMaxBytes, drafts)
      ensures r.Err? || SameBatch(drafts) ==> Valid()
      ensures r.Ok? && SameBatch(drafts) ==>
                Enabled(Ready(old(State()), segmentMaxBytes), Append(WrittenBatch(Head(old(State())), drafts).value))
    {
      hide LogInv, Kept, WrittenBatch, ValidUnit, Image, ValidUnits, Events, Segment.Valid;
      ghost var s := State();
      active.Facts();
      InvParts(s);
      if active.lenBytes >= segmentMaxBytes {
        var _ :- Roll();
        RollIsSteps(s);
      }
      active.Facts();
      ghost var ready := State();
      assert ready == Ready(s, segmentMaxBytes) && active.nextOffset == Head(s);
      r := active.AppendBatch(drafts);
      if r.Ok? && SameBatch(drafts) {
        WrittenBatchIsValid(Head(s), drafts);
        StepKeeps(ready, Append(WrittenBatch(Head(s), drafts).value));
      }
    }

    method AppendSystem(envelope: Envelope, payload: Bytes) returns (r: Result<()>)
      requires Valid() && active.nextOffset < POSITIONS
      modifies this, active
      ensures Valid() && (active == old(active) || fresh(active))
      ensures Head(old(State())) == old(active.nextOffset)
      ensures (r, State()) == AfterSystem(old(State()), segmentMaxBytes, envelope, payload)
      ensures r.Ok? ==>
                Enabled(Ready(old(State()), segmentMaxBytes), Append(Sys(EncodedKind(System, Head(old(State())), envelope, payload).value)))
    {
      hide LogInv, Kept, EncodedKind, Image, ValidUnits, Events, IsFrame, Segment.Valid;
      ghost var s := State();
      active.Facts();
      InvParts(s);
      if active.lenBytes >= segmentMaxBytes {
        var _ :- Roll();
        RollIsSteps(s);
      }
      active.Facts();
      ghost var ready := State();
      assert ready == Ready(s, segmentMaxBytes) && active.nextOffset == Head(s);
      r := active.AppendSystem(envelope, payload);
      if r.Ok? {
        EncodedKindIsFrame(System, Head(s), envelope, payload);
        StepKeeps(ready, Append(Sys(EncodedKind(System, Head(s), envelope, payload).value)));
      }
    }

    method Commit() returns (head: nat)
      requires Valid()
      modifies this`committed, active`syncedUnits
      ensures Valid() && head == Head(old(State())) && State() == Apply(old(State()), LogMachine.Commit)
    {
      hide LogInv, Kept, Segment.Valid, Image, Events;
      active.Facts();
      StepKeeps(State(), LogMachine.Commit);
      active.Sync();
      committed := active.nextOffset;
      return active.nextOffset;
    }

    method ActivateRetention(floor: nat) returns (r: Result<()>)
      requires Valid()
      modifies this`manifest
      ensures r == if floor < old(manifest.retentionFloor) || floor > Head(old(State())) then Err(InvalidArgument) else Ok(())
      ensures State() == if r.Ok? then old(State()).(floor := floor) else old(State())
      ensures r.Err? || (exists requested :: Enabled(old(State()), Retain(requested)) && floor == RetentionBoundary(old(State()), requested)) ==> Valid()
    {
      hide LogInv, Kept, RetentionBoundary, Segment.Valid, Image, Events;
      active.Facts();
      if floor < manifest.retentionFloor || floor > active.nextOffset {
        return Err(InvalidArgument);
      }
      ghost var s := State();
      manifest := manifest.(retentionFloor := floor, nextOffset := active.nextOffset);
      if requested :| Enabled(s, Retain(requested)) && floor == RetentionBoundary(s, requested) {
        StepKeeps(s, Retain(requested));
        assert State() == Apply(s, Retain(requested));
      }
      return Ok(());
    }

    /** Remove every closed segment below the floor; removals of `stuck` ones fail. */
    method ReclaimBelowRetentionFloor(stuck: set<nat>) returns (reclaimed: nat)
      requires Valid()
      modifies this`closed, this`closedSegs
      ensures Valid() && State() == Apply(old(State()), Reclaim(stuck))
      ensures reclaimed + TotalBytes(closed) == TotalBytes(old(closed))
    {
      hide LogInv, Kept, Files, Segment.Valid, Image, Events;
      StepKeeps(State(), Reclaim(stuck));
      var kept, bytes := RetainSegments(closed, manifest.retentionFloor, stuck, closedSegs);
      closed, closedSegs := kept, Reclaimed(closedSegs, manifest.retentionFloor, stuck);
      return bytes;
    }

    /** The lowest retained base from which the retained bytes fit the target. */
    method RetentionFloorForBytes(targetBytes: nat) returns (base: nat, retained: nat, satisfied: bool)
      requires Valid()
      ensures exists k :: FitsFrom(FilesFrom(closed, manifest.retentionFloor) + [SegFile(active.baseOffset, active.file)],
                                   k, targetBytes, base, retained, satisfied)
    {
      hide FilesFrom, LogInv, Segment.Valid;
      BasesBelowActive();
      base, retained, satisfied := FloorForBytes(FilesFrom(closed, manifest.retentionFloor) + [SegFile(active.baseOffset, active.file)], targetBytes);
    }

    lemma BasesBelowActive()
      requires Valid()
      ensures forall f :: f in FilesFrom(closed, manifest.retentionFloor) ==> f.base < active.baseOffset
    {
      hide LogInv, FileOf;
      var s := State();
      ChainOf(s);
      BasesAscend(Segs(s), s.floor);
      FilesFromSubset(closed, manifest.retentionFloor);
      forall f | f in FilesFrom(closed, manifest.retentionFloor) ensures f.base < active.baseOffset {
        var i :| 0 <= i < |closed| && closed[i] == f;
        FileBase(closedSegs[i]);
        assert Segs(s)[i] == closedSegs[i];
      }
    }
  }

  lemma {:induction false} FilesFromSubset(files: seq<SegFile>, floor: nat)
    ensures forall f :: f in FilesFrom(files, floor) ==> f in files
  {
    if files != [] {
      FilesFromSubset(files[1..], floor);
    }
  }

  lemma TotalBytesUnfold(files: seq<SegFile>)
    ensures TotalBytes(files) == if files == [] then 0 else |files[0].bytes| + TotalBytes(files[1..])
  {
  }

  lemma {:induction false} TotalBytesSnoc(files: seq<SegFile>, f: SegFile)
    ensures TotalBytes(files + [f]) == TotalBytes(files) + |f.bytes|
    decreases |files|
  {
    if files != [] {
      assert (files + [f])[1..] == files[1..] + [f];
      TotalBytesSnoc(files[1..], f);
    }
  }

  lemma OriginalIsCut(s: LogState, older: seq<nat>, cut: nat, orphanSurvives: bool, files: seq<SegFile>, original: Bytes)
    requires LogInv(s) && Enabled(s, Crash(older, cut, orphanSurvives)) && files == CrashDisk(s, older, cut, orphanSurvives).files
    requires HasFile(files, s.active.base, original)
    ensures original == Image(s.active.units)[..Min(cut, |Image(s.active.units)|)]
  {
    hide ValidUnits, Events, FileOf, Image, LogInv, Chain;
    ChainOf(s);
    BasesAscend(Segs(s), s.floor);
    InvParts(s);
    forall i | 0 <= i < |s.closed| ensures files[i].base < s.active.base {
      FileBase(s.closed[i]);
      assert Segs(s)[i] == s.closed[i] && Segs(s)[|s.closed|] == s.active;
    }
    var j :| 0 <= j < |files| && files[j].base == s.active.base && files[j].bytes == original;
    assert j == |s.closed|;
  }

  lemma RecoveredSync(g: Seg, cut: nat)
    requires ValidUnits(g.units, g.base) && cut <= |Image(g.units)|
    ensures Recovered(g, cut).synced == if |Image(Recovered(g, cut).units)| < cut then |Recovered(g, cut).units| else Min(g.synced, |Recovered(g, cut).units|)
  {
  }
}
