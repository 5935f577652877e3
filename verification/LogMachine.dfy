/** The segmented log as a state machine: every write, every stage of a roll, every
    retention step and every crash point is one transition. A crash keeps each file's
    synced bytes and any prefix of its unsynced tail. */
module LogMachine {
  import opened Base
  import opened Format
  import opened RecordWalk
  import opened RecordWalkLaws

  // ── in memory ──────────────────────────────────────────────────────────

  /** A segment's units and how many of them are known to be on disk. */
  datatype Seg = Seg(base: nat, units: seq<Unit>, synced: nat)

  function End(g: Seg): nat {
    g.base + |Events(g.units)|
  }

  datatype RollStage = Idle | Synced | Created

  /** `committed` is the last head a commit returned. */
  datatype LogState = LogState(closed: seq<Seg>, active: Seg, stage: RollStage, floor: nat, committed: nat)

  function Segs(s: LogState): seq<Seg> {
    s.closed + [s.active]
  }

  function Head(s: LogState): nat {
    End(s.active)
  }

  /** The position up to which the log is known to be on disk. */
  function SyncedHead(s: LogState): nat
    requires s.active.synced <= |s.active.units|
  {
    s.active.base + |Events(s.active.units[..s.active.synced])|
  }

  function FreshLog(): LogState {
    LogState([], Seg(0, [], 0), Idle, 0, 0)
  }

  // ── on disk ────────────────────────────────────────────────────────────

  datatype SegFile = SegFile(base: nat, bytes: Bytes)
  datatype Manifest = Manifest(activeBase: nat, retentionFloor: nat, nextOffset: nat)

  /** The directory listing in base order, and the manifest if one was written. */
  datatype Disk = Disk(files: seq<SegFile>, manifest: Option<Manifest>)

  /** What `open` holds in memory afterwards. */
  datatype Opened = Opened(closed: seq<SegFile>, active: SegFile, nextOffset: nat, floor: nat)

  function BootstrapManifest(files: seq<SegFile>): Result<Disk> {
    if |files| > 1 then Err(BadManifest)
    else if |files| == 1 then Ok(Disk(files, Some(Manifest(files[0].base, 0, files[0].base))))
    else Ok(Disk([SegFile(0, [])], Some(Manifest(0, 0, 0))))
  }

  datatype Sorted = Sorted(closed: seq<SegFile>, active: Option<(SegFile, nat)>)

  /** The walk over the listing: older segments are closed, the manifest's one is
      recovered, an empty newer one is an orphan of an interrupted roll. */
  function SortSegments(files: seq<SegFile>, activeBase: nat, done: Sorted): Result<Sorted>
    decreases |files|
  {
    if files == [] then Ok(done)
    else
      var f := files[0];
      if f.base == activeBase then
        var scanned :- Scan(f.bytes, f.base);
        var kept := SegFile(f.base, f.bytes[..Min(scanned.validBytes, |f.bytes|)]);
        SortSegments(files[1..], activeBase, done.(active := Some((kept, scanned.nextOffset))))
      else if f.base < activeBase then
        SortSegments(files[1..], activeBase, done.(closed := done.closed + [f]))
      else if f.bytes != [] then Err(BadManifest)
      else SortSegments(files[1..], activeBase, done)
  }

  function OpenedLog(disk: Disk): Result<Opened> {
    if disk.manifest.None? then
      var booted :- BootstrapManifest(disk.files);
      OpenedFrom(booted.files, booted.manifest.value)
    else OpenedFrom(disk.files, disk.manifest.value)
  }

  function OpenedFrom(files: seq<SegFile>, manifest: Manifest): Result<Opened> {
    var sorted :- SortSegments(files, manifest.activeBase, Sorted([], None));
    if sorted.active.None? then Err(BadManifest)
    else if manifest.retentionFloor > sorted.active.value.1 then Err(BadManifest)
    else Ok(Opened(sorted.closed, sorted.active.value.0, sorted.active.value.1, manifest.retentionFloor))
  }

  // ── retention arithmetic ───────────────────────────────────────────────

  function Bases(gs: seq<Seg>): (bs: seq<nat>)
    ensures |bs| == |gs| && forall i :: 0 <= i < |gs| ==> bs[i] == gs[i].base
  {
    seq(|gs|, i requires 0 <= i < |gs| => gs[i].base)
  }

  /** The greatest base at or below `requested`, never below `best`. */
  function GreatestBase(bases: seq<nat>, requested: nat, best: nat): nat
    decreases |bases|
  {
    if bases == [] then best
    else GreatestBase(bases[1..], requested, if best <= bases[0] <= requested then bases[0] else best)
  }

  function RetentionBoundary(s: LogState, requested: nat): nat {
    GreatestBase(Bases(Segs(s)), requested, s.floor)
  }

  /** Reclaim removes every closed segment below the floor whose file removal succeeds. */
  function Reclaimed(closed: seq<Seg>, floor: nat, stuck: set<nat>): seq<Seg> {
    if closed == [] then []
    else (if closed[0].base >= floor || closed[0].base in stuck then [closed[0]] else [])
         + Reclaimed(closed[1..], floor, stuck)
  }

  // ── transitions ────────────────────────────────────────────────────────

  datatype Step =
    | Append(unit: Unit)
    | Commit
    | RollSync
    | RollCreate
    | RollSwitch
    | Retain(requested: nat)
    | Reclaim(stuck: set<nat>)
    | Crash(older: seq<nat>, cut: nat, orphanSurvives: bool)

  /** How many bytes of a file a crash may leave: all that were synced, any more of the rest. */
  predicate Cuttable(g: Seg, cut: nat) {
    g.synced <= |g.units| && |Image(g.units[..g.synced])| <= cut <= |Image(g.units)|
  }

  predicate Enabled(s: LogState, step: Step) {
    match step
    case Append(u) => s.stage.Idle? && ValidUnit(u, Head(s))
    case Commit => s.stage.Idle?
    case RollSync => s.stage.Idle?
    case RollCreate => s.stage.Synced?
    case RollSwitch => s.stage.Created?
    case Retain(requested) => s.stage.Idle? && s.floor <= requested <= s.committed
    case Reclaim(_) => s.stage.Idle?
    case Crash(older, cut, _) =>
      Cuttable(s.active, cut) && |older| == |s.closed| && forall i :: 0 <= i < |older| ==> Cuttable(s.closed[i], older[i])
  }

  /** A segment reopened from the first `cut` bytes; truncating a torn tail syncs it. */
  function Recovered(g: Seg, cut: nat): Seg {
    var m := UnitsWithin(g.units, cut);
    var kept := g.units[..m];
    Seg(g.base, kept, if |Image(kept)| < cut then m else Min(g.synced, m))
  }

  /** What is left of a retired segment; nobody scans or truncates it on open. */
  function Shortened(g: Seg, cut: nat): Seg {
    var m := UnitsWithin(g.units, cut);
    Seg(g.base, g.units[..m], Min(g.synced, m))
  }

  function ShortenedAll(gs: seq<Seg>, cuts: seq<nat>): (ts: seq<Seg>)
    ensures |ts| == |gs|
  {
    seq(|gs|, i requires 0 <= i < |gs| => if i < |cuts| then Shortened(gs[i], cuts[i]) else gs[i])
  }

  function Apply(s: LogState, step: Step): LogState {
    match step
    case Append(u) => s.(active := s.active.(units := s.active.units + [u]))
    case Commit => s.(active := s.active.(synced := |s.active.units|), committed := Head(s))
    case RollSync => s.(active := s.active.(synced := |s.active.units|), stage := Synced)
    case RollCreate =>
      // a segment without events would be recreated under its own name: creation fails
      if Head(s) == s.active.base then s.(stage := Idle) else s.(stage := Created)
    case RollSwitch => s.(closed := s.closed + [s.active], active := Seg(Head(s), [], 0), stage := Idle)
    case Retain(requested) => s.(floor := RetentionBoundary(s, requested))
    case Reclaim(stuck) => s.(closed := Reclaimed(s.closed, s.floor, stuck))
    case Crash(older, cut, _) => s.(closed := ShortenedAll(s.closed, older), active := Recovered(s.active, cut), stage := Idle)
  }

  function FileOf(g: Seg): SegFile {
    SegFile(g.base, Image(g.units))
  }

  function Files(gs: seq<Seg>): (fs: seq<SegFile>)
    ensures |fs| == |gs| && forall i :: 0 <= i < |gs| ==> fs[i] == FileOf(gs[i])
  {
    seq(|gs|, i requires 0 <= i < |gs| => FileOf(gs[i]))
  }

  function CutFile(g: Seg, cut: nat): SegFile {
    SegFile(g.base, Image(g.units)[..Min(cut, |Image(g.units)|)])
  }

  function CutFiles(gs: seq<Seg>, cuts: seq<nat>): (fs: seq<SegFile>)
    ensures |fs| == |gs|
  {
    seq(|gs|, i requires 0 <= i < |gs| => if i < |cuts| then CutFile(gs[i], cuts[i]) else FileOf(gs[i]))
  }

  /** What a crash leaves behind: every file, retired or active, is cut somewhere behind
      its own synced part. */
  function CrashDisk(s: LogState, older: seq<nat>, cut: nat, orphanSurvives: bool): Disk {
    Disk(CutFiles(s.closed, older)
         + ([CutFile(s.active, cut)]
            + if s.stage.Created? && orphanSurvives then [SegFile(Head(s), [])] else []),
         Some(Manifest(s.active.base, s.floor, s.active.base)))
  }

  function OpenedState(s: LogState): Opened {
    Opened(Files(s.closed), FileOf(s.active), Head(s), s.floor)
  }

  // ── the invariant ──────────────────────────────────────────────────────

  ghost predicate AllValid(s: LogState) {
    forall i :: 0 <= i < |Segs(s)| ==> ValidUnits(Segs(s)[i].units, Segs(s)[i].base)
  }

  ghost predicate AllLinked(s: LogState) {
    forall i :: 0 <= i < |s.closed| ==> Linked(s.closed[i], Segs(s)[i + 1], s.floor)
  }

  ghost predicate FloorIsBase(s: LogState) {
    exists i :: 0 <= i < |Segs(s)| && Segs(s)[i].base == s.floor
  }

  ghost predicate RetiredSynced(s: LogState) {
    forall i :: 0 <= i < |s.closed| ==> s.closed[i].synced == |s.closed[i].units|
  }

  ghost predicate LogInv(s: LogState) {
    && AllValid(s) && AllLinked(s) && FloorIsBase(s) && RetiredSynced(s)
    && s.active.synced <= |s.active.units|
    && (!s.stage.Idle? ==> s.active.synced == |s.active.units|)
    && (s.stage.Created? ==> Head(s) > s.active.base)
    && s.floor <= s.committed <= SyncedHead(s)
  }

  /** Neighbours are in order, and adjacent unless the lower one is already reclaimable. */
  predicate Linked(g: Seg, next: Seg, floor: nat) {
    g.base < next.base && End(g) <= next.base && (g.base >= floor ==> End(g) == next.base)
  }

  /** The events at and above the retention floor, in log order. */
  function ReadableFrom(gs: seq<Seg>, floor: nat): seq<Record> {
    if gs == [] then []
    else (if gs[0].base >= floor then Events(gs[0].units) else []) + ReadableFrom(gs[1..], floor)
  }

  function Readable(s: LogState): seq<Record> {
    ReadableFrom(Segs(s), s.floor)
  }

  // ── runs ───────────────────────────────────────────────────────────────

  ghost predicate RunFrom(s: LogState, steps: seq<Step>)
    decreases |steps|
  {
    steps == [] || (Enabled(s, steps[0]) && RunFrom(Apply(s, steps[0]), steps[1..]))
  }

  function After(s: LogState, steps: seq<Step>): LogState
    decreases |steps|
  {
    if steps == [] then s else After(Apply(s, steps[0]), steps[1..])
  }

  ghost predicate Reachable(s: LogState) {
    exists steps :: RunFrom(FreshLog(), steps) && After(FreshLog(), steps) == s
  }
}
