/** Reading the system frames: over a log nothing was reclaimed from, the reader yields
    exactly the system records of its units, in log order. */
module SystemReads {
  import opened Base
  import opened Format
  import opened RecordWalk
  import opened RecordWalkLaws
  import opened LogMachine
  import opened LogLaws
  import opened LogSafety
  import opened Continuity
  import opened ReadPlan
  import opened Sidecar
  import opened StreamingReader
  import opened LogReading
  import Log

  lemma RecordsConcat(a: seq<Frame>, b: seq<Frame>)
    ensures Records(a + b) == Records(a) + Records(b)
  {
  }

  /** Of one unit's frames, only a system frame passes, and none ends the read. */
  lemma SelectedUnit(f: Filter, u: Unit, next: nat)
    requires f == RawFilter(0, f.until, SystemOnly) && ValidUnit(u, next) && next + |UnitEvents(u)| <= f.until
    ensures forall r :: r in Records(UnitFrames(u)) ==> !PastEnd(f, r) && (Passes(f, r) <==> r.kind == System)
    ensures Selected(f, Records(UnitFrames(u))) == UnitSystems(u)
  {
    hide IsFrame, ParseBatchControl, FrameBytes;
    var rs := Records(UnitFrames(u));
    match u
    case Single(frame) =>
      assert Selected(f, rs[1..]) == [];
    case Sys(frame) =>
      assert Selected(f, rs[1..]) == [];
    case Batch(begin, events, commit) =>
      forall i | 0 <= i < |rs| ensures !PastEnd(f, rs[i]) && rs[i].kind != System {
        if 0 < i < |rs| - 1 {
          assert rs[i] == events[i - 1].rec && BatchMember(events[i - 1], next, i - 1, begin.rec.envelope.batchId);
        }
      }
      NothingSelected(f, rs, []);
      assert rs + [] == rs;
  }

  lemma {:induction false} SelectedUnits(f: Filter, us: seq<Unit>, base: nat)
    requires f == RawFilter(0, f.until, SystemOnly) && ValidUnits(us, base) && base + |Events(us)| <= f.until
    ensures forall r :: r in Records(Frames(us)) ==> !PastEnd(f, r)
    ensures Selected(f, Records(Frames(us))) == Systems(us)
    decreases |us|
  {
    hide ValidUnit, Passes, PastEnd, UnitFrames, UnitEvents, UnitSystems;
    if us != [] {
      SelectedUnit(f, us[0], base);
      SelectedUnits(f, us[1..], base + |UnitEvents(us[0])|);
      RecordsConcat(UnitFrames(us[0]), Frames(us[1..]));
      SelectedConcat(f, Records(UnitFrames(us[0])), Records(Frames(us[1..])));
    }
  }

  lemma {:induction false} SelectedSystems(f: Filter, gs: seq<Seg>)
    requires f == RawFilter(0, f.until, SystemOnly)
    requires forall i :: 0 <= i < |gs| ==> ValidUnits(gs[i].units, gs[i].base) && End(gs[i]) <= f.until
    ensures Selected(f, AllRecords(FramesOf(gs))) == Systems(UnitsOf(gs))
    decreases |gs|
  {
    hide ValidUnits, Selected, PastEnd, Frames, Events;
    if gs == [] {
      assert FramesOf(gs) == [];
      SelectsNothing(f);
    } else {
      assert FramesOf(gs)[0] == Frames(gs[0].units) && FramesOf(gs)[1..] == FramesOf(gs[1..]);
      SelectedUnits(f, gs[0].units, gs[0].base);
      SelectedSystems(f, gs[1..]);
      SelectedConcat(f, Records(Frames(gs[0].units)), AllRecords(FramesOf(gs[1..])));
      ContentConcat(gs[0].units, UnitsOf(gs[1..]));
    }
  }

  lemma SystemsOfLog(s: LogState)
    requires LogInv(s) && Head(s) < POSITIONS
    ensures Selected(RawFilter(0, POSITIONS - 1, SystemOnly), AllRecords(FramesOf(Segs(s)))) == Systems(AllUnits(s))
  {
    hide LogInv, Chain, ValidUnits, Events;
    ChainOf(s);
    EndsBelowHead(s);
    ValidOf(s);
    SelectedSystems(RawFilter(0, POSITIONS - 1, SystemOnly), Segs(s));
  }

  lemma ValidOf(s: LogState)
    requires LogInv(s)
    ensures forall i :: 0 <= i < |Segs(s)| ==> ValidUnits(Segs(s)[i].units, Segs(s)[i].base)
  {
  }

  /** Every system record of the log, in order. */
  method ReadSystems(log: Log.Log, sidecars: map<nat, Sidecar>) returns (frames: seq<Record>)
    requires log.Valid() && SidecarsOf(log.State(), sidecars) && Head(log.State()) < POSITIONS
    requires forall i :: 0 <= i < |Segs(log.State())| ==> Segs(log.State())[i].base >= log.State().floor
    ensures frames == Systems(AllUnits(log.State()))
  {
    hide LogInv, Selected, Readable, LogReader.Pending, LogReader.Valid, SidecarsOf, Log.Log.Valid, AllUnits, Systems, AllRecords, FramesOf;
    LogFields(log);
    SystemsOfLog(log.State());
    var reader := PlanReader(log, RawFilter(0, POSITIONS - 1, SystemOnly), sidecars);
    var drained := Drain(reader);
    frames := drained.value;
  }
}
