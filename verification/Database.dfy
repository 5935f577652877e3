/** The database object: a log, the stream catalog and the branch catalog, updated in
    place, each operation tied to one step of the database machine. */
module Database {
  import opened Base
  import opened Format
  import opened RecordWalk
  import opened RecordWalkLaws
  import opened SegmentFile
  import opened ReadPlan
  import opened Branches
  import opened BranchCatalogs
  import opened Streams
  import M = AppendMachine
  import opened AppendLaws
  import opened AppendSafety
  import opened Timelines
  import opened Rebuild
  import opened Checkpoints
  import opened Retries
  import opened SystemReads
  import D = Durability
  import LM = LogMachine
  import Crc
  import LogLaws
  import LogSafety
  import Log
  import LogReading
  import Sidecar
  import opened ReadEvidence
  import opened StreamingReader
  import opened Continuity

  type Request = M.Request
  type Ambient = M.Ambient

  // ── what the log answers ───────────────────────────────────────────────

  function BatchRefusal(s: LM.LogState, maxBytes: nat, drafts: seq<Draft>): Option<Error>
    requires LM.Head(s) + |drafts| < POSITIONS
  {
    if Log.Stuck(s, maxBytes) then Some(SegmentExists)
    else match WrittenBatch(LM.Head(s), drafts)
      case Err(error) => Some(error)
      case Ok(_) => None
  }

  function SystemRefusal(s: LM.LogState, maxBytes: nat, envelope: Envelope, payload: Bytes): Option<Error>
    requires LM.Head(s) < POSITIONS
  {
    if Log.Stuck(s, maxBytes) then Some(SegmentExists)
    else match EncodedKind(System, LM.Head(s), envelope, payload)
      case Err(error) => Some(error)
      case Ok(_) => None
  }

  // ── what log steps do to the readable events ───────────────────────────

  lemma ReadableAfterRoll(s: LM.LogState, maxBytes: nat)
    requires LM.LogInv(s) && s.stage.Idle? && !Log.Stuck(s, maxBytes)
    ensures LM.Readable(Log.Ready(s, maxBytes)) == LM.Readable(s) && LM.Head(Log.Ready(s, maxBytes)) == LM.Head(s)
    ensures LM.LogInv(Log.Ready(s, maxBytes)) && Log.Ready(s, maxBytes).stage.Idle? && Log.Ready(s, maxBytes).floor == s.floor
    ensures Log.Ready(s, maxBytes).committed == s.committed
    ensures LogLaws.AllUnits(Log.Ready(s, maxBytes)) == LogLaws.AllUnits(s)
    ensures KeepsSync(s, Log.Ready(s, maxBytes))
  {
    hide LM.LogInv, LM.Readable, Log.Rolled, LM.Apply, Log.Full, Events, LogLaws.AllUnits;
    if Log.Full(s, maxBytes) {
      RolledShape(s);
      RolledIsSynced(s);
      Log.RollIsSteps(s);
      LogSafety.InvParts(s);
      LogLaws.ReadableShape(s);
      var t := s.(active := s.active.(synced := |s.active.units|), stage := LM.Created);
      LogSafety.ReadableOfSwitch(t);
      LogLaws.UnitsOfSwitch(t);
      SyncDoesNotRead(s, LM.Created);
      SyncDoesNotRead(s, LM.Idle);
    }
  }

  /** What is synced stays synced, and no system frame is left waiting that was not before. */
  ghost predicate KeepsSync(s: LM.LogState, t: LM.LogState) {
    SyncedTo(s) <= SyncedTo(t) && (D.FramesSynced(s) ==> D.FramesSynced(t))
  }

  /** The synced head, of any state. */
  function SyncedTo(s: LM.LogState): nat {
    if s.active.synced <= |s.active.units| then LM.SyncedHead(s) else 0
  }

  lemma RolledIsSynced(s: LM.LogState)
    requires LM.LogInv(s) && s.stage.Idle? && LM.Head(s) > s.active.base
    ensures SyncedTo(s) <= LM.Head(s) == SyncedTo(Log.Rolled(s)) && D.FramesSynced(Log.Rolled(s))
  {
    hide Events, ValidUnits;
    LogSafety.InvParts(s);
    D.SyncedHeadIsHead(s);
    LogSafety.NoUnits(0);
  }

  lemma AllSynced(s: LM.LogState, t: LM.LogState)
    requires t.active == s.active.(synced := |s.active.units|)
    ensures SyncedTo(s) <= LM.Head(s) == SyncedTo(t) && D.FramesSynced(t) && KeepsSync(s, t)
  {
    hide Events;
    LogSafety.SyncedAll(s.active);
    assert t.active.units[t.active.synced..] == [];
    if s.active.synced <= |s.active.units| {
      D.SyncedHeadIsHead(s);
    }
  }

  lemma AppendAddsUnit(s: LM.LogState, u: Unit)
    ensures LogLaws.AllUnits(LM.Apply(s, LM.Append(u))) == LogLaws.AllUnits(s) + [u]
    ensures s.active.synced <= |s.active.units| ==> SyncedTo(LM.Apply(s, LM.Append(u))) == SyncedTo(s)
    ensures !u.Sys? && D.FramesSynced(s) ==> D.FramesSynced(LM.Apply(s, LM.Append(u)))
  {
    hide Events, Systems, LogLaws.AllUnits;
    var t := LM.Apply(s, LM.Append(u));
    LogLaws.UnitsSplit(s);
    LogLaws.UnitsSplit(t);
    if s.active.synced <= |s.active.units| {
      assert t.active.units[..s.active.synced] == s.active.units[..s.active.synced];
      assert t.active.units[s.active.synced..] == s.active.units[s.active.synced..] + [u];
      LastUnit(s.active.units[s.active.synced..], u);
      SystemsHaveNoEvents(u);
    }
  }

  /** A roll is a switch away from the synced segment. */
  lemma RolledShape(s: LM.LogState)
    requires s.stage.Idle? && LM.Head(s) > s.active.base
    ensures Log.Rolled(s) == LM.Apply(s.(active := s.active.(synced := |s.active.units|), stage := LM.Created), LM.RollSwitch)
    ensures Log.Rolled(s).stage.Idle? && Log.Rolled(s).floor == s.floor && Log.Rolled(s).committed == s.committed
    ensures LM.Head(s.(active := s.active.(synced := |s.active.units|), stage := LM.Created)) == LM.Head(s)
  {
  }

  lemma SyncDoesNotRead(s: LM.LogState, stage: LM.RollStage)
    requires s.floor <= s.active.base
    ensures LM.Readable(s.(active := s.active.(synced := |s.active.units|), stage := stage)) == LM.Readable(s)
    ensures LogLaws.AllUnits(s.(active := s.active.(synced := |s.active.units|), stage := stage)) == LogLaws.AllUnits(s)
  {
    hide Events, LM.ReadableFrom, LogLaws.AllUnits;
    LogSafety.ReadableOf(s);
    LogSafety.ReadableOf(s.(active := s.active.(synced := |s.active.units|), stage := stage));
    LogLaws.UnitsSplit(s);
    LogLaws.UnitsSplit(s.(active := s.active.(synced := |s.active.units|), stage := stage));
  }

  lemma EventsSnoc(us: seq<Unit>, u: Unit)
    ensures Events(us + [u]) == Events(us) + UnitEvents(u)
  {
    hide Image, UnitEvents;
    ContentConcat(us, [u]);
    assert [u][1..] == [] && Events([]) == [];
    assert Events([u]) == UnitEvents(u) + Events([u][1..]);
  }

  lemma ReadableAfterAppend(s: LM.LogState, u: Unit)
    requires s.floor <= s.active.base
    ensures LM.Readable(LM.Apply(s, LM.Append(u))) == LM.Readable(s) + UnitEvents(u)
    ensures LM.Head(LM.Apply(s, LM.Append(u))) == LM.Head(s) + |UnitEvents(u)|
  {
    hide LM.ReadableFrom, LM.Readable, Events, UnitEvents;
    var t := LM.Apply(s, LM.Append(u));
    LogSafety.ReadableOf(s);
    LogSafety.ReadableOf(t);
    EventsSnoc(s.active.units, u);
  }

  /** An accepted batch adds exactly its records, at the head. */
  lemma BatchLands(s: LM.LogState, maxBytes: nat, drafts: seq<Draft>)
    requires LM.LogInv(s) && s.stage.Idle? && LM.Head(s) + |drafts| < POSITIONS
    requires !Log.Stuck(s, maxBytes) && SameBatch(drafts) && WrittenBatch(LM.Head(s), drafts).Ok?
    ensures var t := LM.Apply(Log.Ready(s, maxBytes), LM.Append(WrittenBatch(LM.Head(s), drafts).value));
      && LM.Readable(t) == LM.Readable(s) + M.RecordsOf(drafts, LM.Head(s))
      && t.floor == s.floor && t.committed == s.committed
  {
    hide LM.LogInv, LM.Readable, WrittenBatch, Events, Image, Log.Rolled, Log.Stuck, ValidUnit, UnitEvents;
    var u := WrittenBatch(LM.Head(s), drafts).value;
    ReadableAfterRoll(s, maxBytes);
    LogLaws.ReadableShape(Log.Ready(s, maxBytes));
    ReadableAfterAppend(Log.Ready(s, maxBytes), u);
    WrittenBatchIsValid(LM.Head(s), drafts);
    assert UnitEvents(u) == M.RecordsOf(drafts, LM.Head(s));
  }

  /** The accepted batch is the log's next unit, and nothing synced is forgotten. */
  lemma BatchIsNextUnit(s: LM.LogState, maxBytes: nat, drafts: seq<Draft>)
    requires LM.LogInv(s) && s.stage.Idle? && LM.Head(s) + |drafts| < POSITIONS
    requires !Log.Stuck(s, maxBytes) && SameBatch(drafts) && WrittenBatch(LM.Head(s), drafts).Ok?
    ensures var u := WrittenBatch(LM.Head(s), drafts).value;
      var t := LM.Apply(Log.Ready(s, maxBytes), LM.Append(u));
      && LogLaws.AllUnits(t) == LogLaws.AllUnits(s) + [u] && KeepsSync(s, t)
      && !u.Sys? && UnitEvents(u) == M.RecordsOf(drafts, LM.Head(s))
  {
    hide LM.LogInv, LM.Readable, WrittenBatch, Events, Image, Log.Ready, Log.Stuck, ValidUnit, UnitEvents, LM.Apply, LogLaws.AllUnits, SyncedTo;
    var u := WrittenBatch(LM.Head(s), drafts).value;
    ReadableAfterRoll(s, maxBytes);
    LogSafety.InvParts(Log.Ready(s, maxBytes));
    AppendAddsUnit(Log.Ready(s, maxBytes), u);
    WrittenEvents(LM.Head(s), drafts);
  }

  lemma WrittenEvents(first: nat, drafts: seq<Draft>)
    requires first + |drafts| < POSITIONS && WrittenBatch(first, drafts).Ok? && SameBatch(drafts)
    ensures var u := WrittenBatch(first, drafts).value; !u.Sys? && UnitEvents(u) == M.RecordsOf(drafts, first)
  {
    hide WrittenBatch, UnitEvents, ValidUnit, IsFrame, FrameBytes, ParseBatchControl, EncodedEvents, Crc.Crc32c, SameBatch;
    ControlFrames(first, drafts);
    WrittenBatchIsValid(first, drafts);
    assert UnitEvents(WrittenBatch(first, drafts).value) == M.RecordsOf(drafts, first);
  }

  lemma SystemLands(s: LM.LogState, maxBytes: nat, f: Frame)
    requires LM.LogInv(s) && s.stage.Idle? && !Log.Stuck(s, maxBytes)
    ensures var t := LM.Apply(Log.Ready(s, maxBytes), LM.Append(Sys(f)));
      && LM.Readable(t) == LM.Readable(s) && t.floor == s.floor && t.committed == s.committed
      && LogLaws.AllUnits(t) == LogLaws.AllUnits(s) + [Sys(f)] && SyncedTo(s) <= SyncedTo(t)
  {
    hide LogLaws.AllUnits, SyncedTo, LM.LogInv, LM.Readable, Events, Image, Log.Rolled, Log.Stuck;
    ReadableAfterRoll(s, maxBytes);
    LogLaws.ReadableShape(Log.Ready(s, maxBytes));
    ReadableAfterAppend(Log.Ready(s, maxBytes), Sys(f));
    LogSafety.InvParts(Log.Ready(s, maxBytes));
    AppendAddsUnit(Log.Ready(s, maxBytes), Sys(f));
    assert UnitEvents(Sys(f)) == [];
  }

  /** A refused append may still have rolled or synced the segment; no event changes. */
  lemma RefusalReadsSame(s: LM.LogState, maxBytes: nat)
    requires LM.LogInv(s) && s.stage.Idle?
    ensures var t := if Log.Stuck(s, maxBytes) then Log.RollRefused(s) else Log.Ready(s, maxBytes);
      && LM.Readable(t) == LM.Readable(s) && t.floor == s.floor && t.committed == s.committed
      && LogLaws.AllUnits(t) == LogLaws.AllUnits(s) && KeepsSync(s, t)
  {
    hide LogLaws.AllUnits, SyncedTo, LM.LogInv, LM.Readable, Events, Image, Log.Ready;
    LogLaws.ReadableShape(s);
    SyncDoesNotRead(s, LM.Idle);
    AllSynced(s, Log.RollRefused(s));
    if !Log.Stuck(s, maxBytes) {
      ReadableAfterRoll(s, maxBytes);
    }
  }

  // ── the object ─────────────────────────────────────────────────────────

  const CREATED_TYPE: Bytes := Ascii("salamander.branch.created")
  const ARCHIVED_TYPE: Bytes := Ascii("salamander.branch.archived")
  const JSON_UTF8: u32 := 1

  /** The known ones among the events have the stored content. */
  ghost predicate SameContent(c: Streams.Catalog, events: seq<M.NewEvent>, digests: seq<(Id, u32)>) {
    && |digests| == |events|
    && forall i :: 0 <= i < |events| && M.Seen(c, events[i]) ==> c.eventIds[events[i].eventId.value].0 == digests[i].1
  }

  class Salamander {
    var log: Log.Log
    var catalog: StreamCatalog
    var branches: BranchCatalog
    var durableHead: nat
    /** How a branch frame's payload decodes. */
    const decode: Decoder
    /** The batches behind the log's events. */
    ghost var batches: M.Batches

    ghost function View(): M.Db
      reads this, catalog, branches
    {
      M.Db(batches, catalog.View(), branches.View(), durableHead)
    }

    ghost predicate LogHolds()
      reads this`log, this`batches, this`durableHead, log, log.active
    {
      && log.Valid() && log.manifest.retentionFloor == 0 && LM.Readable(log.State()) == M.Flat(batches)
      && log.committed <= durableHead <= |M.Flat(batches)|
    }

    /** What the database calls durable is on disk: its durable positions and every branch
        frame. A database opened over a log that was never synced may start without this. */
    ghost predicate Settled()
      reads this`log, this`durableHead, log, log.active
    {
      durableHead <= SyncedTo(log.State()) && D.FramesSynced(log.State())
    }

    ghost function Units(): seq<Unit>
      reads this`log, log, log.active
    {
      LogLaws.AllUnits(log.State())
    }

    ghost predicate Valid()
      reads this, log, log.active, catalog, branches
    {
      LogHolds() && DbInv(View()) && Journaled(decode, View(), Units())
    }

    lemma HeadIsLogHead()
      requires LogHolds()
      ensures log.active.nextOffset == M.Head(View()) == LM.Head(log.State()) == |M.Flat(batches)|
    {
      hide LM.LogInv, LM.Readable, M.Flat;
      log.active.Facts();
      LogLaws.ReadableShape(log.State());
    }

    lemma InvOfValid()
      requires Valid()
      ensures DbInv(View())
    {
      hide LogHolds, DbInv, Journaled;
    }

    lemma ValidHolds()
      requires Valid()
      ensures LogHolds() && log.active.nextOffset == M.Head(View()) == LM.Head(log.State())
    {
      hide DbInv, Journaled, LM.Head;
      HeadIsLogHead();
    }

    constructor (log: Log.Log, decode: Decoder)
      requires log.Valid() && log.State() == LM.FreshLog()
      ensures Valid() && Settled() && View() == M.FreshDb() && this.log == log && this.decode == decode && fresh(catalog) && fresh(branches)
    {
      hide DbInv, Journaled, Log.Log.Valid, ValidBranches, LM.Readable, M.Flat, DefaultCatalog, SyncedTo;
      this.log, this.decode := log, decode;
      catalog := new StreamCatalog();
      branches := new BranchCatalog();
      durableHead, batches := 0, [];
      new;
      FreshIsInv();
      FreshReads();
      FreshIsJournaled(decode);
    }

    /** A database over a log, the branches rebuilt from it and a stream catalog; its head
        counts as durable. */
    constructor Assemble(log: Log.Log, decode: Decoder, catalog: StreamCatalog, branches: BranchCatalog)
      requires log.Valid() && log.manifest.retentionFloor == 0 && Sound(decode, LogLaws.AllUnits(log.State()))
      requires Rebuilding(decode, LogLaws.AllUnits(log.State())).Ok?
      requires branches.View() == Rebuilding(decode, LogLaws.AllUnits(log.State())).value.branches
      ensures LogHolds() && View() == Rebuilding(decode, LogLaws.AllUnits(log.State())).value.(catalog := catalog.View())
      ensures this.log == log && this.decode == decode && this.catalog == catalog && this.branches == branches
      ensures durableHead == LM.Head(log.State())
    {
      hide DbInv, Journaled, Log.Log.Valid, LM.Readable, M.Flat, SyncedTo, LogLaws.AllUnits, Sound, Rebuilding, Events, LM.LogInv;
      this.log, this.decode, this.catalog, this.branches := log, decode, catalog, branches;
      durableHead, batches := log.active.nextOffset, BatchesIn(LogLaws.AllUnits(log.State()));
      new;
      WholeLogReads(log);
      RebuildingParts(decode, LogLaws.AllUnits(log.State()));
      BatchesAreEvents(LogLaws.AllUnits(log.State()));
    }

    /** OPEN after a crash: recover the log, adopt the checkpoint if its head is the log's,
        rebuild what is not adopted, and take the head as durable. The checkpoint indexes the
        first `covered` batches. */
    static method Open(disk: LM.Disk, maxBytes: nat, decode: Decoder, sidecars: map<nat, Sidecar.Sidecar>, checkpoint: Option<Checkpoint>,
                       ghost was: LM.LogState, ghost older: seq<nat>, ghost cut: nat, ghost orphanSurvives: bool, ghost covered: nat)
      returns (r: Result<Salamander>)
      requires LM.LogInv(was) && was.floor == 0 && Sound(decode, LogLaws.AllUnits(was)) && LM.Head(was) < POSITIONS
      requires LM.Enabled(was, LM.Crash(older, cut, orphanSurvives)) && disk == LM.CrashDisk(was, older, cut, orphanSurvives)
      requires LogReading.SidecarsOf(LM.Apply(was, LM.Crash(older, cut, orphanSurvives)), sidecars)
      requires checkpoint.Some? && checkpoint.value.head == LM.Head(LM.Apply(was, LM.Crash(older, cut, orphanSurvives))) ==>
                 IndexesPrefix(checkpoint.value.catalog, BatchesIn(LogLaws.AllUnits(LM.Apply(was, LM.Crash(older, cut, orphanSurvives)))), covered)
      ensures r.Ok? && fresh(r.value) && r.value.LogHolds()
      ensures r.value.log.State() == LM.Apply(was, LM.Crash(older, cut, orphanSurvives)) && r.value.decode == decode
      ensures Rebuilding(decode, r.value.Units()).Ok? && r.value.Units() <= LogLaws.AllUnits(was)
      ensures r.value.View() == Adopted(Rebuilding(decode, r.value.Units()).value, checkpoint)
      ensures r.value.Valid() <==> !Matches(r.value.View(), checkpoint) || covered == |r.value.batches|
      ensures r.value.Settled() <==> D.SettledByOpen(was, cut, r.value.log.State()) && D.FramesSettledByOpen(was, cut, r.value.log.State())
    {
      hide IndexesPrefix, Salamander.Valid, LM.LogInv, LM.Apply, LM.Enabled, LM.CrashDisk, LM.Readable, Sound, Rebuilding, LogLaws.AllUnits, Log.Log.Valid, LogReading.SidecarsOf,
           DbInv, Journaled, M.Flat, Rebuilt, ReplayedEntries, D.SettledByOpen, D.FramesSettledByOpen, SyncedTo, Events, Systems, LM.Head;
      ghost var after := LM.Apply(was, LM.Crash(older, cut, orphanSurvives));
      CrashedUnits(was, older, cut, orphanSurvives);
      SoundPrefix(decode, LogLaws.AllUnits(was), |LogLaws.AllUnits(after)|);
      SoundRebuilds(decode, LogLaws.AllUnits(after));
      // on what a crash left behind, none of the three steps fails
      var recovered := Log.Log.Open(disk, maxBytes, was, older, cut, orphanSurvives);
      var log := recovered.value;
      RebuildingIs(decode, LogLaws.AllUnits(after));
      WholeLogReads(log);
      RebuildingParts(decode, LogLaws.AllUnits(after));
      BatchesAreEvents(LogLaws.AllUnits(after));
      var catalog: StreamCatalog;
      if checkpoint.Some? && checkpoint.value.head == log.active.nextOffset {
        catalog := new StreamCatalog.From(checkpoint.value.catalog);
      } else {
        var records := ReadEvents(log, sidecars);
        var rebuilt := StreamCatalog.Rebuild(records);
        catalog := rebuilt.value;
      }
      var frames := ReadSystems(log, sidecars);
      var branches := BranchCatalog.Rebuild(DecodedAll(decode, frames));
      var db := new Salamander.Assemble(log, decode, catalog, branches.value);
      AdoptedIsValid(db, checkpoint, covered);
      SettledOnOpen(db, was, older, cut, orphanSurvives);
      return Ok(db);
    }

    /** fsync the log and return the durable head. */
    method Commit() returns (head: nat)
      requires LogHolds()
      modifies this`durableHead, log`committed, log.active`syncedUnits
      ensures LogHolds() && Settled() && head == M.Head(old(View())) && View() == old(View()).(durable := head)
      ensures Units() == old(Units())
      ensures old(Valid()) ==> Valid()
    {
      hide DbInv, Journaled, Log.Log.Valid, M.Flat, LM.Readable, LogLaws.AllUnits, SyncedTo, LM.LogInv, Events, LM.Segs;
      HeadIsLogHead();
      LogIsReadable();
      if DbInv(View()) {
        DurableRises(View());
      }
      ghost var s := log.State();
      head := log.Commit();
      durableHead := head;
      CommitReads(s);
      AllSynced(s, log.State());
      if old(Valid()) {
        JournalIgnoresDurable(decode, old(View()), Units(), head);
      }
    }

    lemma LogIsReadable()
      requires log.Valid()
      ensures LM.LogInv(log.State()) && log.State().floor <= log.State().active.base && log.State().stage.Idle?
    {
      hide LM.LogInv, LM.Readable;
      LogLaws.ReadableShape(log.State());
    }

    /** The stored form of every event, or the first content conflict. */
    method StoreEvents(req: Request, supplied: Option<Id>, amb: Ambient) returns (r: Result<(seq<Draft>, seq<(Id, u32)>)>)
      requires M.Fits(catalog.View(), log.active.nextOffset, req, amb) && |req.events| <= M.MAX_EVENTS
      ensures var batch := M.NewBatch(catalog.View(), log.active.nextOffset, req, supplied, amb);
        r == if M.Conflicting(catalog.View(), batch) then Err(EventIdConflict)
             else Ok((M.Drafts(catalog.View(), log.active.nextOffset, req, supplied, amb), DigestsOf(batch)))
    {
      hide EventFingerprint, M.Fits, M.DraftAt, M.Drafts, M.RecordsOf, DigestsOf;
      var c, head := catalog.View(), log.active.nextOffset;
      ghost var batch := M.NewBatch(c, head, req, supplied, amb);
      ghost var all := M.Drafts(c, head, req, supplied, amb);
      var stored: seq<Draft> := [];
      var digests: seq<(Id, u32)> := [];
      while |stored| < |req.events|
        invariant |stored| == |digests| <= |req.events|
        invariant stored == all[..|stored|] && digests == DigestsOf(batch)[..|stored|]
        invariant forall k :: 0 <= k < |stored| ==> !M.ConflictsAt(c, batch, k)
      {
        var i := |stored|;
        var draft := M.DraftAt(c, head, req, supplied, amb, i);
        var id := draft.envelope.eventId;
        var digest := EventFingerprint(Record(Event, 0, head + i, draft.envelope, draft.payload));
        assert batch[i] == Record(Event, 0, head + i, draft.envelope, draft.payload);
        var clash := id in catalog.eventIds && catalog.eventIds[id].0 != digest;
        var repeat := HasOtherDigest(digests, id, digest);
        if clash || repeat {
          assert M.ConflictsAt(c, batch, i);
          return Err(EventIdConflict);
        }
        stored := stored + [draft];
        digests := digests + [(id, digest)];
      }
      assert !M.Conflicting(c, batch);
      assert all[..|stored|] == all && DigestsOf(batch)[..|stored|] == DigestsOf(batch);
      return Ok((stored, digests));
    }

    /** The receipt of the one batch that stored every event of a retry. */
    method OriginalReceipt(events: seq<M.NewEvent>, digests: seq<(Id, u32)>) returns (r: Result<Receipt>)
      requires events != [] && SameContent(catalog.View(), events, digests)
      requires forall id :: id in catalog.receipts ==> catalog.receipts[id].batchId == id
      ensures r == if !M.AllOfOneBatch(catalog.View(), events) then Err(EventIdConflict)
                   else Ok(catalog.receipts[catalog.eventIds[events[0].eventId.value].1])
    {
      var original: Option<Receipt> := None;
      var i := 0;
      ghost var c := catalog.View();
      while i < |events|
        invariant 0 <= i <= |events| && (i > 0 ==> M.Seen(c, events[0]))
        invariant forall k :: 0 <= k < i ==> M.Seen(c, events[k]) && c.eventIds[events[k].eventId.value].1 == c.eventIds[events[0].eventId.value].1
        invariant original == if i == 0 then None else Some(c.receipts[c.eventIds[events[0].eventId.value].1])
      {
        if events[i].eventId.None? || events[i].eventId.value !in catalog.eventIds {
          return Err(EventIdConflict);
        }
        var entry := catalog.eventIds[events[i].eventId.value];
        if entry.1 !in catalog.receipts {
          return Err(EventIdConflict);
        }
        var receipt := catalog.receipts[entry.1];
        if entry.0 != digests[i].1 || (original.Some? && original.value.batchId != receipt.batchId) {
          assert M.Seen(c, events[i]);
          return Err(EventIdConflict);
        }
        original := Some(receipt);
        i := i + 1;
      }
      return Ok(original.value);
    }

    /** Answer a retry, syncing first when it asks for more than the original got. */
    method AnswerRetry(durability: Durability, receipt: Receipt) returns (r: Result<Receipt>)
      requires Valid()
      modifies this`durableHead, log`committed, log.active`syncedUnits
      ensures Valid() && (old(Settled()) ==> Settled())
      ensures (r, View()) == M.Answered(old(View()), receipt, durability)
    {
      hide LogHolds, DbInv, Journaled, Settled, Units;
      if durability == Streams.Synced && receipt.durability != Streams.Synced {
        var _ := Commit();
        return Ok(receipt.(durability := Streams.Synced));
      }
      return Ok(receipt);
    }

    method AppendToLog(stored: seq<Draft>) returns (r: Result<(nat, nat)>)
      requires LogHolds() && SameBatch(stored) && log.active.nextOffset + |stored| < POSITIONS
      modifies this`batches, log, log.active
      ensures LogHolds() && (old(Settled()) ==> Settled()) && (log.active == old(log.active) || fresh(log.active))
      ensures LM.Head(old(log.State())) == M.Head(old(View()))
      ensures match BatchRefusal(old(log.State()), log.segmentMaxBytes, stored)
        case Some(error) => r == Err(error) && batches == old(batches) && Units() == old(Units())
        case None =>
          && r == Ok((M.Head(old(View())), M.Head(old(View())) + |stored| - 1))
          && batches == old(batches) + [M.RecordsOf(stored, M.Head(old(View())))]
          && M.Head(View()) == M.Head(old(View())) + |stored|
          && exists u: Unit :: !u.Sys? && UnitEvents(u) == M.RecordsOf(stored, M.Head(old(View()))) && Units() == old(Units()) + [u]
    {
      hide LogLaws.AllUnits, SyncedTo, UnitEvents, Log.Log.Valid, LM.LogInv, M.Flat, LM.Readable, Log.Ready, Log.Full, WrittenBatch, SameBatch, LM.Apply, LM.Enabled;
      ghost var s, was := log.State(), batches;
      HeadIsLogHead();
      LogIsReadable();
      RefusalReadsSame(s, log.segmentMaxBytes);
      r := log.AppendBatch(stored);
      if r.Ok? {
        BatchLands(s, log.segmentMaxBytes, stored);
        BatchIsNextUnit(s, log.segmentMaxBytes, stored);
        batches := batches + [M.RecordsOf(stored, LM.Head(s))];
        FlatSnoc(was, M.RecordsOf(stored, LM.Head(s)));
      }
    }

    /** Sync if due, and enter the batch the log has taken in the catalog. */
    method EnterBatch(req: Request, supplied: Option<Id>, amb: Ambient, positions: (nat, nat), digests: seq<(Id, u32)>) returns (receipt: Receipt)
      requires LogHolds() && req.events != []
      modifies this`durableHead, log`committed, log.active`syncedUnits, catalog
      ensures LogHolds() && (old(Settled()) ==> Settled()) && Units() == old(Units())
      ensures receipt == M.ReceiptAt(old(catalog.View()), positions, req, supplied, amb)
      ensures View() == old(View()).(
        catalog := Recorded(old(catalog.View()), req.branch, req.stream, receipt.streamId, digests, M.RequestStamp(req, amb), receipt),
        durable := if req.durability == Streams.Synced || amb.due then M.Head(old(View())) else old(durableHead))
    {
      hide LogHolds, DbInv, Journaled, Settled, Units, M.Flat, Recorded, M.Head, M.RequestStamp, Valid, M.StreamIdFor, M.PreviousRevision, M.NextRevision, M.BatchIdFor;
      var previous := M.PreviousRevision(catalog.View(), req.branch, req.stream);
      var next := M.NextRevision(catalog.View(), req.branch, req.stream);
      var streamId := M.StreamIdFor(catalog.View(), req, amb);
      var sync := req.durability == Streams.Synced || amb.due;
      if sync {
        var _ := Commit();
      }
      receipt := Receipt(M.BatchIdFor(supplied, amb), positions.0, positions.1, streamId, previous, next + |req.events| - 1,
                         if sync then Streams.Synced else if req.durability == Flushed then Flushed else Buffered);
      catalog.RecordBatch(req.branch, req.stream, streamId, digests, M.RequestStamp(req, amb), receipt);
    }

    /** Hand the batch to the log, and enter what the log accepts. */
    method WriteBatch(req: Request, supplied: Option<Id>, amb: Ambient, stored: seq<Draft>, digests: seq<(Id, u32)>) returns (r: Result<Receipt>)
      requires Valid() && Writable(View(), req, supplied, amb) && 0 < |req.events| <= M.MAX_EVENTS
      requires stored == M.Drafts(catalog.View(), M.Head(View()), req, supplied, amb)
      requires digests == DigestsOf(M.NewBatch(catalog.View(), M.Head(View()), req, supplied, amb))
      modifies this`durableHead, this`batches, log, log.active, catalog
      ensures Valid() && (old(Settled()) ==> Settled()) && (log.active == old(log.active) || fresh(log.active))
      ensures LM.Head(old(log.State())) == M.Head(old(View())) && M.Fits(old(View()).catalog, M.Head(old(View())), req, amb)
      ensures (r, View()) == M.AfterAppend(old(View()), req, supplied, amb, BatchRefusal(old(log.State()), log.segmentMaxBytes, stored))
    {
      hide Writable, SyncedTo, DbInv, Journaled, Settled, Units, UnitEvents, LogHolds, M.Flat, M.Head, LM.Head, M.NewBatch, M.Drafts, BatchRefusal,
           Recorded, M.AfterAppend, M.RecordsOf, M.Fits, SameBatch, M.RequestStamp, DigestsOf, M.ReceiptAt, M.GeneratedAreFresh, M.Judge;
      ghost var db, us := View(), Units();
      JudgedWrite(db, req, supplied, amb);
      FitsPositions(db, req, amb);
      HeadIsLogHead();
      DraftsShareBatch(catalog.View(), M.Head(db), req, supplied, amb);
      NewBatchIsStored(db.catalog, M.Head(db), req, supplied, amb);
      WriteOutcome(db, req, supplied, amb);
      var positions :- AppendToLog(stored);
      ghost var u: Unit :| !u.Sys? && UnitEvents(u) == M.RecordsOf(stored, M.Head(db)) && Units() == us + [u];
      var receipt := EnterBatch(req, supplied, amb, positions, digests);
      WriteKeeps(db, req, supplied, amb);
      WriteIsJournaled(decode, db, us, req, supplied, amb, u);
      return Ok(receipt);
    }

    /** Answer a request some of whose events are known, without writing. */
    method AnswerKnown(req: Request, supplied: Option<Id>, digests: seq<(Id, u32)>) returns (r: Result<Receipt>)
      requires Valid() && req.events != [] && SameContent(catalog.View(), req.events, digests)
      modifies this`durableHead, log`committed, log.active`syncedUnits
      ensures Valid() && (old(Settled()) ==> Settled())
      ensures match M.KnownVerdict(old(catalog.View()), req.events, supplied)
        case Refuse(error) => r == Err(error) && View() == old(View())
        case Replay(receipt) => (r, View()) == M.Answered(old(View()), receipt, req.durability)
    {
      hide DbInv, Journaled, Settled, Units, LogHolds, M.Flat, M.AllOfOneBatch, M.Head, SameContent;
      IndexedReceipts(View());
      var original :- OriginalReceipt(req.events, digests);
      if supplied.Some? && supplied.value != original.batchId {
        return Err(BatchIdConflict);
      }
      r := AnswerRetry(req.durability, original);
    }

    /** Append one batch atomically: validate, answer a retry, or write. A receipt that says
        `Synced` lies below the durable head, and one that was asked for says so. */
    method AppendBatchWithId(req: Request, supplied: Option<Id>, amb: Ambient) returns (r: Result<Receipt>)
      requires Valid() && M.Fits(catalog.View(), M.Head(View()), req, amb) && M.GeneratedAreFresh(catalog.View(), req, amb)
      modifies this`durableHead, this`batches, log, log.active, catalog
      ensures Valid() && (old(Settled()) ==> Settled()) && (log.active == old(log.active) || fresh(log.active))
      ensures Honest(r, req, View())
      ensures LM.Head(old(log.State())) == M.Head(old(View()))
      ensures (r, View()) == M.AfterAppend(old(View()), req, supplied, amb,
                                           AppendRefusal(old(log.State()), log.segmentMaxBytes, old(View()), req, supplied, amb))
    {
      hide DbInv, Journaled, Settled, Units, LogHolds, M.Flat, M.NewBatch, M.Drafts, BatchRefusal, Recorded, M.NewReceipt, Log.Stuck,
           M.GeneratedAreFresh, M.Fits, SameBatch, M.RequestStamp, M.StreamIdFor, M.NextRevision, M.BatchIdFor, M.Conflicting, M.AnySeen, M.KnownVerdict, M.Answered, SameContent, M.Head, LM.Head,
           M.Expectation, M.PreviousRevision, DigestsOf, M.AfterAppend, Salamander.Valid, Honest;
      ValidHolds();
      JudgedOutcome(View(), req, supplied, amb, AppendRefusal(log.State(), log.segmentMaxBytes, View(), req, supplied, amb));
      InvOfValid();
      SyncedAnswers(View(), req, supplied, amb, AppendRefusal(log.State(), log.segmentMaxBytes, View(), req, supplied, amb));
      FitsPositions(View(), req, amb);
      if req.events == [] {
        return Err(InvalidArgument);
      }
      if |req.events| > M.MAX_EVENTS {
        return Err(ResourceLimit);
      }
      if req.branch !in branches.byId {
        return Err(BranchNotFound);
      }
      if branches.byId[req.branch].status == Archived {
        return Err(Error.BranchArchived);
      }
      if req.key.Some? && (req.branch, req.key.value) in catalog.idempotency {
        var entry := catalog.idempotency[(req.branch, req.key.value)];
        if entry.digest != amb.digest {
          return Err(IdempotencyConflict);
        }
        r := AnswerRetry(req.durability, entry.receipt);
        return;
      }
      if !M.Expectation(req.expected, M.PreviousRevision(catalog.View(), req.branch, req.stream)) {
        return Err(RevisionConflict);
      }
      var stored :- StoreEvents(req, supplied, amb);
      var seen := AnyKnown(catalog.View(), req.events);
      if seen {
        DigestsMatch(View(), req, supplied, amb);
        r := AnswerKnown(req, supplied, stored.1);
        return;
      }
      if M.BatchIdFor(supplied, amb) in catalog.receipts {
        return Err(BatchIdConflict);
      }
      r := WriteBatch(req, supplied, amb, stored.0, stored.1);
    }

    /** Write a system frame and make it durable. */
    method CommitSystem(envelope: Envelope, payload: Bytes) returns (r: Result<()>)
      requires Valid() && M.Head(View()) < POSITIONS
      modifies this`durableHead, log, log.active
      ensures LogHolds() && (old(Settled()) ==> Settled()) && (log.active == old(log.active) || fresh(log.active))
      ensures LM.Head(old(log.State())) == M.Head(old(View()))
      ensures match SystemRefusal(old(log.State()), log.segmentMaxBytes, envelope, payload)
        case Some(error) => r == Err(error) && View() == old(View()) && Units() == old(Units())
        case None =>
          && r == Ok(()) && View() == old(View()).(durable := M.Head(old(View()))) && Settled()
          && exists f: Frame :: f.rec == Record(System, 0, M.Head(old(View())), envelope, payload) && Units() == old(Units()) + [Sys(f)]
    {
      hide LogLaws.AllUnits, SyncedTo, Journaled, DbInv, Log.Log.Valid, LM.LogInv, M.Flat, LM.Readable, Log.Ready, Log.Full, EncodedKind, LM.Apply, LM.Enabled;
      ghost var s := log.State();
      HeadIsLogHead();
      LogIsReadable();
      RefusalReadsSame(s, log.segmentMaxBytes);
      var _ :- log.AppendSystem(envelope, payload);
      FrameIsRecord(LM.Head(s), envelope, payload);
      SystemLands(s, log.segmentMaxBytes, EncodedKind(System, LM.Head(s), envelope, payload).value);
      var _ := Commit();
      assert Units() == old(Units()) + [Sys(EncodedKind(System, LM.Head(s), envelope, payload).value)];
      return Ok(());
    }

    /** Publish a branch catalog once the frame for its change is durable. */
    method Publish(updated: BranchCatalog, envelope: Envelope, payload: Bytes) returns (r: Result<()>)
      requires Valid() && M.Head(View()) < POSITIONS
      modifies this`durableHead, this`branches, log, log.active
      ensures LogHolds() && (old(Settled()) ==> Settled()) && (log.active == old(log.active) || fresh(log.active))
      ensures LM.Head(old(log.State())) == M.Head(old(View()))
      ensures match SystemRefusal(old(log.State()), log.segmentMaxBytes, envelope, payload)
        case Some(error) => r == Err(error) && View() == old(View()) && Units() == old(Units()) && branches == old(branches)
        case None =>
          && r == Ok(()) && branches == updated && Settled()
          && View() == old(View()).(branches := old(updated.View()), durable := M.Head(old(View())))
          && exists f: Frame :: f.rec == Record(System, 0, M.Head(old(View())), envelope, payload) && Units() == old(Units()) + [Sys(f)]
    {
      hide DbInv, Journaled, Settled, Units, LogHolds, M.Flat, SystemRefusal, M.Head, LM.Head;
      var _ :- CommitSystem(envelope, payload);
      branches := updated;
      return Ok(());
    }

    /** Fork a branch at a batch boundary. The candidate catalog is validated first and
        published only after its frame is durable. */
    method ForkBranch(f: M.ForkRequest, databaseId: Id, eventId: Id, payload: Bytes, sidecars: map<nat, Sidecar.Sidecar>) returns (r: Result<BranchInfo>)
      requires Valid() && M.Head(View()) < POSITIONS && LogReading.SidecarsOf(log.State(), sidecars)
      requires decode(Record(System, 0, M.Head(View()), SystemEnvelope(databaseId, CreatedType(), f.id, eventId, f.createdAt), payload))
            == Created(M.ForkInfo(f))
      modifies this`durableHead, this`branches, log, log.active
      ensures Valid() && (old(Settled()) ==> Settled()) && (log.active == old(log.active) || fresh(log.active)) && (branches == old(branches) || fresh(branches))
      ensures r.Ok? ==> Settled()
      ensures LM.Head(old(log.State())) == M.Head(old(View()))
      ensures (r, View()) == M.AfterFork(old(View()), f,
        SystemRefusal(old(log.State()), log.segmentMaxBytes, SystemEnvelope(databaseId, CreatedType(), f.id, eventId, f.createdAt), payload))
    {
      hide DbInv, Journaled, Settled, Units, LogHolds, M.Flat, WithBranch, SystemRefusal, M.BoundaryAccepted, CreatedType, SystemEnvelope, M.Head, LM.Head, SyncedTo, M.ForkInfo;
      HeadIsLogHead();
      ghost var db, us := View(), Units();
      ForkKeeps(View(), f, SystemRefusal(log.State(), log.segmentMaxBytes, SystemEnvelope(databaseId, CreatedType(), f.id, eventId, f.createdAt), payload));
      if f.parent !in branches.byId {
        return Err(BranchNotFound);
      }
      if f.at > log.active.nextOffset {
        return Err(OffsetBeyondHead(f.at));
      }
      var boundary := IsBatchBoundary(f.at, sidecars);
      if !boundary {
        return Err(NotBatchBoundary(f.at));
      }
      var updated := new BranchCatalog.Copy(branches);
      var _ :- updated.Insert(M.ForkInfo(f));
      var _ :- Publish(updated, SystemEnvelope(databaseId, CreatedType(), f.id, eventId, f.createdAt), payload);
      ghost var frame: Frame :|
        frame.rec == Record(System, 0, M.Head(db), SystemEnvelope(databaseId, CreatedType(), f.id, eventId, f.createdAt), payload)
        && Units() == us + [Sys(frame)];
      ForkIsJournaled(decode, db, us, f, frame);
      return Ok(M.ForkInfo(f));
    }

    method ArchiveBranch(id: Id, databaseId: Id, eventId: Id, timestamp: i64, payload: Bytes) returns (r: Result<BranchInfo>)
      requires Valid() && M.Head(View()) < POSITIONS
      requires id in branches.byId ==>
                 decode(Record(System, 0, M.Head(View()), SystemEnvelope(databaseId, ArchivedType(), id, eventId, timestamp), payload))
                 == ArchivedAs(branches.byId[id].(status := Archived))
      modifies this`durableHead, this`branches, log, log.active
      ensures Valid() && (old(Settled()) ==> Settled()) && (log.active == old(log.active) || fresh(log.active)) && (branches == old(branches) || fresh(branches))
      ensures View().branches != old(View()).branches ==> Settled()
      ensures LM.Head(old(log.State())) == M.Head(old(View()))
      ensures (r, View()) == M.AfterArchive(old(View()), id,
        SystemRefusal(old(log.State()), log.segmentMaxBytes, SystemEnvelope(databaseId, ArchivedType(), id, eventId, timestamp), payload))
    {
      hide DbInv, Journaled, Settled, Units, LogHolds, M.Flat, SystemRefusal, ArchivedType, SystemEnvelope, M.Head, LM.Head, WithArchived, SyncedTo;
      HeadIsLogHead();
      ghost var db, us := View(), Units();
      ArchiveKeeps(View(), id, SystemRefusal(log.State(), log.segmentMaxBytes, SystemEnvelope(databaseId, ArchivedType(), id, eventId, timestamp), payload));
      if id !in branches.byId {
        return Err(BranchNotFound);
      }
      var info := branches.byId[id];
      if id == ZERO_ID {
        return Err(InvalidArgument);
      }
      if info.status == Archived {
        return Ok(info);
      }
      info := info.(status := Archived);
      var updated := new BranchCatalog.Copy(branches);
      var _ :- updated.Archive(info);
      var _ :- Publish(updated, SystemEnvelope(databaseId, ArchivedType(), id, eventId, timestamp), payload);
      ghost var frame: Frame :|
        frame.rec == Record(System, 0, M.Head(db), SystemEnvelope(databaseId, ArchivedType(), id, eventId, timestamp), payload)
        && Units() == us + [Sys(frame)];
      ArchiveIsJournaled(decode, db, us, id, frame);
      return Ok(info);
    }

    /** Stream just the two records either side of the position and compare their batches. */
    method IsBatchBoundary(at: nat, sidecars: map<nat, Sidecar.Sidecar>) returns (accepted: bool)
      requires LogHolds() && at <= M.Head(View()) && LogReading.SidecarsOf(log.State(), sidecars)
      ensures accepted == M.BoundaryAccepted(M.Flat(batches), at)
    {
      hide Log.Log.Valid, M.Flat, LogReader.Valid, LM.Readable, Filtered, LogReader.Pending, LM.LogInv;
      HeadIsLogHead();
      LogIsReadable();
      if at == 0 || at == log.active.nextOffset {
        return true;
      }
      var filter := RawFilter(at - 1, log.active.nextOffset, UserEvents);
      var reader := LogReading.PlanReader(log, filter, sidecars);
      LogLaws.ReadableShape(log.State());
      RawReadsTail(M.Flat(batches), at - 1, log.active.nextOffset, 0);
      accepted := BatchesDiffer(reader, at, M.Flat(batches));
    }

    /** A streaming reader over one branch's timeline. */
    method Read(plan: ReplayPlan, sidecars: map<nat, Sidecar.Sidecar>) returns (r: Result<LogReader>)
      requires Valid() && LogReading.SidecarsOf(log.State(), sidecars)
      ensures match ReadVerdict(View(), plan)
        case Some(error) => r == Err(error)
        case None =>
          && r.Ok? && fresh(r.value) && r.value.Valid() && r.value.intact && r.value.cursor == null && !r.value.finished
          && r.value.filter.selector.Valid() && r.value.filter.maxEvents == plan.maxEvents && r.value.head == M.Head(View())
          && r.value.continuation == FromOf(plan.from) && r.value.filter.until == UntilOf(plan.until, M.Head(View()))
          && r.value.Pending() == Limited(
               Replayed(View(), plan.branch, FromOf(plan.from), UntilOf(plan.until, M.Head(View())), plan.choice).value, plan.maxEvents, 0)
    {
      hide Log.Log.Valid, M.Flat, LogReader.Valid, LM.Readable, Filtered, LogReader.Pending, Limited, DbInv, ReplayScopes;
      HeadIsLogHead();
      KnownBranch(View(), plan.branch, UntilOf(plan.until, M.Head(View())));
      if !plan.choice.selector.Valid() {
        return Err(InvalidArgument);
      }
      var head := log.active.nextOffset;
      var until := UntilOf(plan.until, head);
      if until > head {
        return Err(OffsetBeyondHead(until));
      }
      var scopes :- branches.ReplayScopesOf(plan.branch, until);
      var filter := Filter(FromOf(plan.from), until, plan.choice.selector, Some(scopes), plan.choice.time, UserEvents, plan.maxEvents, plan.digests);
      var reader := LogReading.PlanReader(log, filter, sidecars);
      FilteredIgnoresLimits(filter, filter.(maxEvents := None, digests := false), M.Flat(batches));
      return Ok(reader);
    }

    /** Where two timelines share history and what each says after that; no record is read. */
    method Diff(left: Id, leftUntil: ReplayEnd, right: Id, rightUntil: ReplayEnd, selector: StreamSelector) returns (r: Result<Diff>)
      requires Valid()
      ensures r == if !selector.Valid() then Err(InvalidArgument)
                   else DiffOf(View(), left, UntilOf(leftUntil, M.Head(View())), right, UntilOf(rightUntil, M.Head(View())))
    {
      hide LogHolds, M.Flat, Ancestry, DivergenceOf, ValidBranches, SharedLength;
      HeadIsLogHead();
      if !selector.Valid() {
        return Err(InvalidArgument);
      }
      var head := log.active.nextOffset;
      var l, u := UntilOf(leftUntil, head), UntilOf(rightUntil, head);
      if l > head {
        return Err(OffsetBeyondHead(l));
      }
      if u > head {
        return Err(OffsetBeyondHead(u));
      }
      if left !in branches.byId || right !in branches.byId {
        return Err(BranchNotFound);
      }
      var d := branches.Divergence(left, l, right, u);
      return Ok(Timelines.Diff.Diff(d.value.0, d.value.1, (left, l), (right, u)));
    }
  }

  /** Pull the record before a position and the one at it. */
  method BatchesDiffer(reader: LogReader, at: nat, ghost rs: seq<Record>) returns (differ: bool)
    requires reader.Valid() && reader.intact && reader.cursor == null && 0 < at < |rs|
    requires reader.Pending() == rs[at - 1..] && forall i :: 0 <= i < |rs| ==> rs[i].position == i
    modifies reader
    ensures differ == (rs[at - 1].envelope.batchId != rs[at].envelope.batchId)
  {
    hide LogReader.Pending, InStep, Traced;
    var before: Option<Id>, after: Option<Id> := None, None;
    ghost var count := 0;
    while true
      invariant reader.Valid() && reader.intact && (reader.cursor == null || fresh(reader.cursor))
      invariant 0 <= count <= 1 && reader.Pending() == rs[at - 1 + count..]
      invariant before == if count == 0 then None else Some(rs[at - 1].envelope.batchId)
      invariant after == None
      decreases |reader.Pending()|
    {
      assert reader.Pending()[0] == rs[at - 1 + count] && reader.Pending()[1..] == rs[at - 1 + count + 1..];
      var next := reader.Next();
      var record := next.value.value;
      if record.position == at - 1 {
        before := Some(record.envelope.batchId);
      } else if record.position >= at {
        after := if record.position == at then Some(record.envelope.batchId) else None;
        break;
      }
      count := count + 1;
    }
    return before.Some? && after.Some? && before.value != after.value;
  }

  lemma FrameIsRecord(position: nat, envelope: Envelope, payload: Bytes)
    requires position < POSITIONS
    ensures EncodedKind(System, position, envelope, payload).Ok? ==>
              EncodedKind(System, position, envelope, payload).value.rec == Record(System, 0, position, envelope, payload)
  {
  }

  lemma FreshReads()
    ensures LM.Readable(LM.FreshLog()) == [] == M.Flat([])
    ensures LogLaws.AllUnits(LM.FreshLog()) == [] && SyncedTo(LM.FreshLog()) == 0
  {
    assert LM.Segs(LM.FreshLog()) == [LM.Seg(0, [], 0)] && [LM.Seg(0, [], 0)][1..] == [];
  }

  lemma JournalIgnoresDurable(decode: Decoder, db: M.Db, us: seq<Unit>, durable: nat)
    requires Journaled(decode, db, us)
    ensures Journaled(decode, db.(durable := durable), us)
  {
    hide Sound, Rebuilding, SameIndex;
  }

  predicate OtherDigest(digests: seq<(Id, u32)>, id: Id, digest: u32) {
    exists j :: 0 <= j < |digests| && digests[j].0 == id && digests[j].1 != digest
  }

  method HasOtherDigest(digests: seq<(Id, u32)>, id: Id, digest: u32) returns (found: bool)
    ensures found == OtherDigest(digests, id, digest)
  {
    for j := 0 to |digests|
      invariant forall k :: 0 <= k < j ==> digests[k].0 != id || digests[k].1 == digest
    {
      if digests[j].0 == id && digests[j].1 != digest {
        return true;
      }
    }
    return false;
  }

  lemma CommitReads(s: LM.LogState)
    requires s.floor <= s.active.base
    ensures LM.Readable(LM.Apply(s, LM.Commit)) == LM.Readable(s)
    ensures LogLaws.AllUnits(LM.Apply(s, LM.Commit)) == LogLaws.AllUnits(s)
  {
    hide Events, LM.ReadableFrom, LogLaws.AllUnits;
    LogSafety.ReadableOf(s);
    LogSafety.ReadableOf(LM.Apply(s, LM.Commit));
    LogLaws.UnitsSplit(s);
    LogLaws.UnitsSplit(LM.Apply(s, LM.Commit));
  }

  lemma FitsPositions(db: M.Db, req: Request, amb: Ambient)
    requires M.Fits(db.catalog, M.Head(db), req, amb)
    ensures M.Head(db) + |req.events| < POSITIONS
  {
  }

  lemma DraftsShareBatch(c: Streams.Catalog, head: nat, req: Request, supplied: Option<Id>, amb: Ambient)
    requires M.Fits(c, head, req, amb) && |req.events| <= M.MAX_EVENTS
    ensures SameBatch(M.Drafts(c, head, req, supplied, amb)) && |M.Drafts(c, head, req, supplied, amb)| == |req.events|
  {
    hide M.Stamped, M.Fits;
  }

  lemma NewBatchIsStored(c: Streams.Catalog, head: nat, req: Request, supplied: Option<Id>, amb: Ambient)
    requires M.Fits(c, head, req, amb) && |req.events| <= M.MAX_EVENTS && head + |req.events| < POSITIONS
    ensures M.NewBatch(c, head, req, supplied, amb) == M.RecordsOf(M.Drafts(c, head, req, supplied, amb), head)
  {
  }

  lemma JudgedOutcome(db: M.Db, req: Request, supplied: Option<Id>, amb: Ambient, refused: Option<Error>)
    requires M.Fits(db.catalog, M.Head(db), req, amb)
    ensures match M.Judge(db, req, supplied, amb)
      case Refuse(error) => M.AfterAppend(db, req, supplied, amb, refused) == (Err(error), db)
      case Replay(receipt) => M.AfterAppend(db, req, supplied, amb, refused) == M.Answered(db, receipt, req.durability)
      case Write => true
  {
    hide M.Judge, M.Fits, M.Head;
  }

  /** What an accepted batch and a refused one leave behind. */
  lemma WriteOutcome(db: M.Db, req: Request, supplied: Option<Id>, amb: Ambient)
    requires Writable(db, req, supplied, amb)
    ensures M.Fits(db.catalog, M.Head(db), req, amb) && 0 < |req.events| <= M.MAX_EVENTS
    ensures forall e :: M.AfterAppend(db, req, supplied, amb, Some(e)) == (Err(e), db)
    ensures var batch := M.NewBatch(db.catalog, M.Head(db), req, supplied, amb);
      var receipt := M.ReceiptAt(db.catalog, (M.Head(db), M.Head(db) + |req.events| - 1), req, supplied, amb);
      M.AfterAppend(db, req, supplied, amb, None) == (
        Ok(receipt),
        M.Db(db.batches + [batch],
             Recorded(db.catalog, req.branch, req.stream, receipt.streamId, DigestsOf(batch), M.RequestStamp(req, amb), receipt),
             db.branches,
             if req.durability == Streams.Synced || amb.due then M.Head(db) + |batch| else db.durable))
  {
    hide M.Judge, Writable, M.NewBatch, M.Fits, M.Head, Recorded, M.RequestStamp, M.StreamIdFor, M.PreviousRevision, M.NextRevision, M.BatchIdFor;
    JudgedWrite(db, req, supplied, amb);
  }

  // ── opening ────────────────────────────────────────────────────────────

  lemma WholeLogReads(log: Log.Log)
    requires log.Valid() && log.manifest.retentionFloor == 0
    ensures var s := log.State();
      && LM.Readable(s) == Events(LogLaws.AllUnits(s)) && log.active.nextOffset == LM.Head(s) == |Events(LogLaws.AllUnits(s))|
      && log.committed <= LM.Head(s) && LM.LogInv(s) && s.floor == 0 && s.stage.Idle?
  {
    hide LM.LogInv, Events, LM.Readable;
    var s := log.State();
    log.active.Facts();
    LogSafety.InvParts(s);
    LogLaws.ReadableShape(s);
    AllReadable(s);
  }

  lemma AllReadable(s: LM.LogState)
    requires s.floor == 0
    ensures LM.Readable(s) == Events(LogLaws.AllUnits(s))
  {
    LogLaws.EverythingReadable(LM.Segs(s), 0);
  }

  /** Every event of the log, in order. */
  method ReadEvents(log: Log.Log, sidecars: map<nat, Sidecar.Sidecar>) returns (records: seq<Record>)
    requires log.Valid() && log.manifest.retentionFloor == 0 && LogReading.SidecarsOf(log.State(), sidecars)
    ensures records == Events(LogLaws.AllUnits(log.State()))
  {
    hide LM.LogInv, LM.Readable, Log.Log.Valid, LogReading.SidecarsOf, Events, LogLaws.AllUnits, LM.Head, Filtered;
    WholeLogReads(log);
    LogLaws.ReadableShape(log.State());
    RawReadsTail(LM.Readable(log.State()), 0, log.active.nextOffset, 0);
    var end: nat;
    records, end := LogReading.ReadAll(log, RawFilter(0, log.active.nextOffset, UserEvents), sidecars);
  }

  lemma RebuildingIs(decode: Decoder, us: seq<Unit>)
    requires Rebuilding(decode, us).Ok?
    ensures Rebuilt(Events(us)) == Ok(Rebuilding(decode, us).value.catalog)
    ensures ReplayedEntries(DecodedAll(decode, Systems(us))) == Ok(Rebuilding(decode, us).value.branches)
  {
    hide Rebuilt, ReplayedEntries, Events, Systems, DecodedAll;
  }

  /** A crash takes units from the end of the log only, and none that was synced. */
  lemma CrashedUnits(was: LM.LogState, older: seq<nat>, cut: nat, orphanSurvives: bool)
    requires LM.LogInv(was) && LM.Enabled(was, LM.Crash(older, cut, orphanSurvives))
    ensures var after := LM.Apply(was, LM.Crash(older, cut, orphanSurvives));
      && LM.LogInv(after) && after.floor == was.floor && LM.Head(after) <= LM.Head(was)
      && LogLaws.AllUnits(after) <= LogLaws.AllUnits(was)
      && LogLaws.AllUnits(after) == LogLaws.AllUnits(was)[..|LogLaws.AllUnits(after)|]
  {
    hide LM.LogInv, LogLaws.AllUnits, LogLaws.UnitsOf, LM.Recovered, ValidUnits, Events;
    var after := LM.Apply(was, LM.Crash(older, cut, orphanSurvives));
    LogSafety.CrashReopens(was, older, cut, orphanSurvives);
    LogSafety.StepKeeps(was, LM.Crash(older, cut, orphanSurvives));
    LogLaws.UnitsSplit(was);
    LogLaws.UnitsSplit(after);
  }

  /** CATALOGS FROM THE LOG: at any time, replaying the decoded system frames of the log never
      fails and arrives at the branches in memory, and replaying its events at the streams,
      event identities and batches in memory. */
  lemma BranchesAreRebuilt(db: Salamander)
    requires db.Valid()
    ensures ReplayedEntries(DecodedAll(db.decode, Systems(db.Units()))) == Ok(db.branches.View())
    ensures Rebuilt(Events(db.Units())).Ok? && SameIndex(db.catalog.View(), Rebuilt(Events(db.Units())).value)
    ensures Events(db.Units()) == M.Flat(db.batches)
  {
    hide LM.LogInv, LM.Readable, Sound, Rebuilding, LogLaws.AllUnits, DbInv, M.Flat, Events, Systems, SameIndex, Rebuilt, ReplayedEntries;
    RebuildingIs(db.decode, db.Units());
    WholeLogReads(db.log);
  }

  /** CRASH AND OPEN: whenever the log of a live database crashes, in the middle of a roll
      too, it opens as a database that keeps the whole invariant. It holds a leading part
      of the stored batches, each whole, and at least every record that was synced. */
  lemma CrashLosesOnlyTheTail(db: Salamander, was: LM.LogState, older: seq<nat>, cut: nat, orphanSurvives: bool)
    requires db.Valid() && LM.LogInv(was) && was.floor == 0 && LogLaws.AllUnits(was) == db.Units()
    requires LM.Enabled(was, LM.Crash(older, cut, orphanSurvives))
    ensures Sound(db.decode, LogLaws.AllUnits(was))
    ensures var reopened := Rebuilding(db.decode, LogLaws.AllUnits(LM.Apply(was, LM.Crash(older, cut, orphanSurvives))));
      && reopened.Ok? && DbInv(reopened.value) && reopened.value.batches <= db.batches
      && SyncedTo(was) <= M.Head(reopened.value) == LM.Head(LM.Apply(was, LM.Crash(older, cut, orphanSurvives)))
  {
    hide LM.LogInv, LM.Apply, LM.Enabled, LM.Readable, Sound, Rebuilding, LogLaws.AllUnits, DbInv, M.Flat, Events, LM.Head, SyncedTo, SameIndex;
    var after := LM.Apply(was, LM.Crash(older, cut, orphanSurvives));
    CrashedUnits(was, older, cut, orphanSurvives);
    SoundPrefix(db.decode, LogLaws.AllUnits(was), |LogLaws.AllUnits(after)|);
    SoundRebuilds(db.decode, LogLaws.AllUnits(after));
    RebuildingParts(db.decode, LogLaws.AllUnits(after));
    BatchesOfPrefix(LogLaws.AllUnits(was), |LogLaws.AllUnits(after)|);
    BatchesAreEvents(LogLaws.AllUnits(after));
    EventsUpToHead(after);
    CrashKeepsSynced(was, older, cut, orphanSurvives);
  }

  lemma EventsUpToHead(s: LM.LogState)
    requires LM.LogInv(s) && s.floor == 0
    ensures |Events(LogLaws.AllUnits(s))| == LM.Head(s)
  {
    hide LM.LogInv, LM.Readable, Events;
    LogLaws.ReadableShape(s);
    AllReadable(s);
  }

  lemma CrashKeepsSynced(was: LM.LogState, older: seq<nat>, cut: nat, orphanSurvives: bool)
    requires LM.LogInv(was) && LM.Enabled(was, LM.Crash(older, cut, orphanSurvives))
    ensures SyncedTo(was) <= LM.Head(LM.Apply(was, LM.Crash(older, cut, orphanSurvives)))
  {
    hide LM.LogInv, ValidUnits, Events, LM.ShortenedAll;
    LogSafety.InvParts(was);
    LogSafety.RecoveredShape(was.active, cut);
  }

  /** A database over an adopted catalog is valid exactly if the catalog misses no batch. */
  lemma AdoptedIsValid(db: Salamander, checkpoint: Option<Checkpoint>, covered: nat)
    requires db.LogHolds() && Sound(db.decode, db.Units()) && Rebuilding(db.decode, db.Units()).Ok?
    requires var rebuilt := Rebuilding(db.decode, db.Units()).value;
      && db.View() == Adopted(rebuilt, checkpoint)
      && (Matches(rebuilt, checkpoint) ==> IndexesPrefix(checkpoint.value.catalog, rebuilt.batches, covered))
    ensures db.Valid() <==> !Matches(db.View(), checkpoint) || covered == |db.batches|
  {
    hide Salamander.LogHolds, DbInv, Sound, Rebuilding, IndexesPrefix, SameIndex, M.Flat, LogLaws.AllUnits;
    var rebuilt := Rebuilding(db.decode, db.Units()).value;
    RebuiltIsJournaled(db.decode, db.Units());
    if Matches(rebuilt, checkpoint) {
      AdoptedKeepsInv(rebuilt, checkpoint.value, covered);
    }
  }

  lemma SettledOnOpen(db: Salamander, was: LM.LogState, older: seq<nat>, cut: nat, orphanSurvives: bool)
    requires LM.LogInv(was) && LM.Enabled(was, LM.Crash(older, cut, orphanSurvives))
    requires db.LogHolds() && db.log.State() == LM.Apply(was, LM.Crash(older, cut, orphanSurvives)) && db.durableHead == LM.Head(db.log.State())
    ensures db.Settled() <==> D.SettledByOpen(was, cut, db.log.State()) && D.FramesSettledByOpen(was, cut, db.log.State())
  {
    hide LM.LogInv, LM.Apply, LM.Enabled, LM.Readable, M.Flat, DbInv, Journaled, D.SettledByOpen, D.FramesSettledByOpen, LM.RunFrom, LM.After, D.KeepsBelow,
         D.KeepsFrames, D.LiveFrames, Salamander.Settled;
    D.ReopenedHeadIsDurable(was, older, cut, orphanSurvives);
    D.ReopenedFramesAreDurable(was, older, cut, orphanSurvives);
    DurableHeadIsDurable(db);
  }

  /** DURABLE HEAD: what the database calls durable outlives every further run of its log,
      crashes at any point included, exactly if it is settled. Every operation keeps it
      settled, every commit settles it; only opening an unsynced log starts without. */
  lemma DurableHeadIsDurable(db: Salamander)
    requires db.LogHolds()
    ensures LM.LogInv(db.log.State()) && D.LiveFrames(db.log.State()) == Systems(db.Units())
    ensures db.Settled() <==>
      && (forall steps :: LM.RunFrom(db.log.State(), steps) ==> D.KeepsBelow(db.log.State(), LM.After(db.log.State(), steps), db.durableHead))
      && (forall steps :: LM.RunFrom(db.log.State(), steps) ==> D.KeepsFrames(db.log.State(), LM.After(db.log.State(), steps)))
  {
    hide LM.LogInv, LM.Readable, LM.RunFrom, LM.After, M.Flat, DbInv, Journaled, D.KeepsBelow, D.KeepsFrames, D.FramesSynced, D.LiveFrames, Systems,
         LogLaws.AllUnits;
    db.HeadIsLogHead();
    LogSafety.InvParts(db.log.State());
    D.DurableIffSynced(db.log.State(), db.durableHead);
    D.FramesDurableIffSynced(db.log.State());
    FramesOfAll(db.log.State());
  }

  lemma FramesOfAll(s: LM.LogState)
    requires s.floor == 0
    ensures D.LiveFrames(s) == Systems(LogLaws.AllUnits(s))
  {
    hide Systems;
    D.EverythingLives(LM.Segs(s));
  }

  /** DURABILITY END TO END: every record below a settled database's durable head, so every
      batch a Synced receipt names, reads the same after any further run of the log machine,
      until retention moves the floor above it. */
  lemma DurableRecordsSurvive(db: Salamander, steps: seq<LM.Step>, p: nat)
    requires db.Valid() && db.Settled() && LM.RunFrom(db.log.State(), steps)
    ensures LM.LogInv(LM.After(db.log.State(), steps))
    ensures var after := LM.After(db.log.State(), steps);
      after.floor <= p < db.durableHead ==>
        && p < |M.Flat(db.batches)| && p - after.floor < |LM.Readable(after)|
        && LM.Readable(after)[p - after.floor] == M.Flat(db.batches)[p]
  {
    hide LM.LogInv, LM.Readable, LM.RunFrom, LM.After, M.Flat, D.KeepsBelow, Salamander.Valid, Salamander.Settled, LM.SyncedHead;
    SettledState(db);
    var s, after := db.log.State(), LM.After(db.log.State(), steps);
    D.SyncedIsForever(s, steps);
    D.Narrower(s, after, LM.SyncedHead(s), db.durableHead);
    if after.floor <= p < db.durableHead {
      D.KeptAt(s, after, db.durableHead, p);
    }
  }

  /** SYNCED BATCHES SURVIVE: every record of a batch whose receipt says `Synced` is still
      there after any further run of the log machine, unless retention passed it. */
  lemma SyncedBatchSurvives(db: Salamander, steps: seq<LM.Step>, id: Id, p: nat)
    requires db.Valid() && db.Settled() && LM.RunFrom(db.log.State(), steps)
    requires id in db.catalog.receipts && db.catalog.receipts[id].durability == Streams.Synced
    requires db.catalog.receipts[id].first <= p <= db.catalog.receipts[id].last && LM.After(db.log.State(), steps).floor <= p
    ensures var after := LM.After(db.log.State(), steps);
      && p < |M.Flat(db.batches)| && p - after.floor < |LM.Readable(after)|
      && LM.Readable(after)[p - after.floor] == M.Flat(db.batches)[p] && M.Flat(db.batches)[p].envelope.batchId == id
  {
    hide LM.LogInv, LM.Readable, LM.RunFrom, LM.After, M.Flat, DbInv, Journaled, Salamander.LogHolds, Salamander.Settled;
    SyncedLiesBelow(db.View(), id);
    DurableRecordsSurvive(db, steps, p);
    ReceiptsLocate(db.View(), id, p);
  }

  lemma SyncedLiesBelow(db: M.Db, id: Id)
    requires DbInv(db) && id in db.catalog.receipts && db.catalog.receipts[id].durability == Streams.Synced
    ensures db.catalog.receipts[id].last < db.durable <= M.Head(db)
  {
    hide AllPlaced, CatalogIndexes, ValidBranches, OnBranches, ForksAtBoundaries, IsBoundary, M.Flat;
    BoundaryWithin(db.batches, db.durable);
  }

  /** BRANCHES END TO END: what a settled database answered about its branches is in the log
      after any further run, crashes anywhere, until retention moves the floor. If the log
      holds nothing newer, its branches rebuild to those in memory. */
  lemma AnsweredBranchesSurvive(db: Salamander, steps: seq<LM.Step>)
    requires db.Valid() && db.Settled() && LM.RunFrom(db.log.State(), steps) && LM.After(db.log.State(), steps).floor == 0
    ensures var after := LogLaws.AllUnits(LM.After(db.log.State(), steps));
      && Systems(db.Units()) <= Systems(after)
      && (after <= db.Units() ==> ReplayedEntries(DecodedAll(db.decode, Systems(after))) == Ok(db.branches.View()))
  {
    hide LM.LogInv, LM.Readable, LM.RunFrom, LM.After, M.Flat, DbInv, Journaled, D.KeepsBelow, D.LiveFrames, D.FramesSynced, Systems, LogLaws.AllUnits,
         ReplayedEntries, Salamander.LogHolds;
    var s, t := db.log.State(), LM.After(db.log.State(), steps);
    ValidState(db);
    D.FramesDurableIffSynced(s);
    FramesOfAll(s);
    FramesOfAll(t);
    BranchesAreRebuilt(db);
    if LogLaws.AllUnits(t) <= db.Units() {
      D.SystemsOfPrefix(LogLaws.AllUnits(t), db.Units());
      assert Systems(LogLaws.AllUnits(t)) == Systems(db.Units());
    }
  }

  lemma ValidState(db: Salamander)
    requires db.LogHolds()
    ensures LM.LogInv(db.log.State()) && db.log.State().floor == 0
  {
    hide LM.LogInv, LM.Readable, M.Flat;
  }

  /** So a crash right after an answered fork or archive reopens with the branches answered. */
  lemma CrashKeepsBranches(db: Salamander, older: seq<nat>, cut: nat, orphanSurvives: bool)
    requires db.Valid() && db.Settled() && LM.Enabled(db.log.State(), LM.Crash(older, cut, orphanSurvives))
    ensures var reopened := Rebuilding(db.decode, LogLaws.AllUnits(LM.Apply(db.log.State(), LM.Crash(older, cut, orphanSurvives))));
      reopened.Ok? && reopened.value.branches == db.branches.View()
  {
    hide LM.LogInv, LM.Apply, LM.Enabled, LM.Readable, Sound, Rebuilding, LogLaws.AllUnits, DbInv, M.Flat, Systems, SameIndex, Salamander.LogHolds,
         D.FramesSynced, ReplayedEntries, LM.RunFrom, LM.After;
    var s, crash := db.log.State(), LM.Crash(older, cut, orphanSurvives);
    ValidState(db);
    CrashedUnits(s, older, cut, orphanSurvives);
    SoundPrefix(db.decode, db.Units(), |LogLaws.AllUnits(LM.Apply(s, crash))|);
    SoundRebuilds(db.decode, LogLaws.AllUnits(LM.Apply(s, crash)));
    D.OneStep(s, crash);
    AnsweredBranchesSurvive(db, [crash]);
    RebuildingIs(db.decode, LogLaws.AllUnits(LM.Apply(s, crash)));
  }

  lemma SettledState(db: Salamander)
    requires db.Valid() && db.Settled()
    ensures var s := db.log.State();
      && LM.LogInv(s) && s.active.synced <= |s.active.units| && s.floor == 0
      && LM.Readable(s) == M.Flat(db.batches) && db.durableHead <= LM.SyncedHead(s)
  {
    hide LM.LogInv, LM.Readable, M.Flat, DbInv, Journaled;
    LogSafety.InvParts(db.log.State());
  }

  // ── reading ────────────────────────────────────────────────────────────

  datatype Bound = Unbounded | Included(position: nat) | Excluded(position: nat)
  datatype ReplayEnd = ToHead | At(position: nat)
  datatype ReplayPlan = ReplayPlan(branch: Id, choice: Choice, from: Bound, until: ReplayEnd, maxEvents: Option<nat>, digests: bool)

  function FromOf(from: Bound): nat {
    match from
    case Unbounded => 0
    case Included(position) => position
    case Excluded(position) => Min(position + 1, POSITIONS - 1)
  }

  function UntilOf(until: ReplayEnd, head: nat): nat {
    match until
    case ToHead => head
    case At(position) => position
  }

  ghost function ReadVerdict(db: M.Db, plan: ReplayPlan): (error: Option<Error>)
    requires DbInv(db)
    ensures error.None? ==> plan.choice.selector.Valid()
    ensures error.None? ==> Replayed(db, plan.branch, FromOf(plan.from), UntilOf(plan.until, M.Head(db)), plan.choice).Ok?
  {
    hide DbInv, M.Flat, Filtered, ReplayScopes;
    KnownBranch(db, plan.branch, UntilOf(plan.until, M.Head(db)));
    if !plan.choice.selector.Valid() then Some(InvalidArgument)
    else if UntilOf(plan.until, M.Head(db)) > M.Head(db) then Some(OffsetBeyondHead(UntilOf(plan.until, M.Head(db))))
    else if plan.branch !in db.branches.byId then Some(BranchNotFound)
    else None
  }

  lemma KnownBranch(db: M.Db, id: Id, upto: nat)
    requires DbInv(db)
    ensures if id in db.branches.byId then ReplayScopes(db.branches.byId, id, upto).Ok? else ReplayScopes(db.branches.byId, id, upto) == Err(BranchNotFound)
  {
    hide DbInv, Ancestry, ValidBranches;
    InvHasBranches(db);
    KnownHasAncestry(db.branches.byId, id);
  }

  lemma {:induction false} FilteredIgnoresLimits(f: Filter, g: Filter, rs: seq<Record>)
    requires f.selector.Valid() && g == f.(maxEvents := None, digests := false)
    ensures Filtered(f, rs) == Filtered(g, rs)
    decreases |rs|
  {
    if rs != [] {
      FilteredIgnoresLimits(f, g, rs[1..]);
    }
  }

  lemma {:induction false} RawReadsTail(rs: seq<Record>, from: nat, until: nat, first: nat)
    requires forall i :: 0 <= i < |rs| ==> rs[i].position == first + i && rs[i].kind == Event
    requires until >= first + |rs|
    ensures Filtered(RawFilter(from, until, UserEvents), rs) == rs[Min(|rs|, Max(0, from - first))..]
    decreases |rs|
  {
    hide Passes;
    if rs != [] {
      var f := RawFilter(from, until, UserEvents);
      RawReadsTail(rs[1..], from, until, first + 1);
      RawPasses(from, until, rs[0]);
      if from <= first {
        assert [rs[0]] + rs[1..] == rs;
        assert Filtered(f, rs) == [rs[0]] + Filtered(f, rs[1..]);
      } else {
        assert Filtered(f, rs) == Filtered(f, rs[1..]);
        assert forall n :: 0 <= n <= |rs[1..]| ==> rs[1..][n..] == rs[n + 1..];
      }
    }
  }

  lemma RawPasses(from: nat, until: nat, r: Record)
    requires r.kind == Event
    ensures Passes(RawFilter(from, until, UserEvents), r) <==> from <= r.position
  {
  }

  lemma NoLimit(rs: seq<Record>)
    ensures Limited(rs, None, 0) == rs
  {
  }

  // ── small facts ────────────────────────────────────────────────────────

  function AppendRefusal(s: LM.LogState, maxBytes: nat, db: M.Db, req: Request, supplied: Option<Id>, amb: Ambient): Option<Error>
    requires M.Fits(db.catalog, M.Head(db), req, amb) && LM.Head(s) == M.Head(db)
  {
    if |req.events| > M.MAX_EVENTS then None
    else BatchRefusal(s, maxBytes, M.Drafts(db.catalog, M.Head(db), req, supplied, amb))
  }

  method AnyKnown(c: Streams.Catalog, events: seq<M.NewEvent>) returns (any: bool)
    ensures any == M.AnySeen(c, events)
  {
    for i := 0 to |events|
      invariant forall k :: 0 <= k < i ==> !M.Seen(c, events[k])
    {
      if M.Seen(c, events[i]) {
        return true;
      }
    }
    return false;
  }

  /** Without a conflict, a known event's stored fingerprint is the computed one. */
  lemma DigestsMatch(db: M.Db, req: Request, supplied: Option<Id>, amb: Ambient)
    requires M.Fits(db.catalog, M.Head(db), req, amb) && |req.events| <= M.MAX_EVENTS
    requires !M.Conflicting(db.catalog, M.NewBatch(db.catalog, M.Head(db), req, supplied, amb))
    ensures SameContent(db.catalog, req.events, DigestsOf(M.NewBatch(db.catalog, M.Head(db), req, supplied, amb)))
  {
    hide M.NewBatch, M.Conflicting, M.Fits, EventFingerprint, ContentDigest, RequestOf, StreamNameOf, M.StreamIdFor, M.NextRevision, M.BatchIdFor, M.Flat;
    var batch := M.NewBatch(db.catalog, M.Head(db), req, supplied, amb);
    NoConflicts(db.catalog, batch);
    forall i | 0 <= i < |req.events| && M.Seen(db.catalog, req.events[i])
      ensures db.catalog.eventIds[req.events[i].eventId.value].0 == DigestsOf(batch)[i].1
    {
      NewRecordAt(db.catalog, M.Head(db), req, supplied, amb, i);
    }
  }

  function CreatedType(): EventType {
    hide Utf8, Ascii;
    AsciiIsUtf8("salamander.branch.created");
    BranchTypeNames();
    CREATED_TYPE
  }

  function ArchivedType(): EventType {
    hide Utf8, Ascii;
    AsciiIsUtf8("salamander.branch.archived");
    BranchTypeNames();
    ARCHIVED_TYPE
  }

  lemma BranchTypeNames()
    ensures forall c :: c in "salamander.branch.created" ==> 0 < c as int < 0x80
    ensures forall c :: c in "salamander.branch.archived" ==> 0 < c as int < 0x80
  {
  }

  /** The envelope of a branch frame: the branch's own ID, no stream. */
  function SystemEnvelope(databaseId: Id, eventType: EventType, branch: Id, eventId: Id, timestamp: i64): Envelope {
    Envelope(eventId, databaseId, branch, ZERO_ID, 0, timestamp, eventType, 1, JSON_UTF8, eventId, 0, [])
  }
}
