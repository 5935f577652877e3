/** The reader's continuity machine: positions, batch brackets and, when asked for, a
    running batch digest. Every segment made of whole units passes it. */
module Continuity {
  import opened Base
  import opened Format
  import opened RecordWalk
  import opened RecordWalkLaws
  import Crc

  datatype DigestCheck = DigestCheck(count: u32, digest: u32, running: u32)
  datatype BatchTrack = BatchTrack(first: nat, batchId: Id, seen: nat, check: Option<DigestCheck>)
  datatype Cont = Cont(expected: nat, batch: Option<BatchTrack>)

  /** The position the next event must carry. */
  function Slot(c: Cont): nat {
    if c.batch.Some? then c.batch.value.first + c.batch.value.seen else c.expected
  }

  function OnBegin(c: Cont, rec: Record, digests: bool): Result<Cont> {
    if c.batch.Some? || rec.position != c.expected then Err(Corrupt(rec.position))
    else if digests then
      var control :- ParseBatchControl(rec.payload);
      Ok(c.(batch := Some(BatchTrack(rec.position, rec.envelope.batchId, 0, Some(DigestCheck(control.0, control.1, 0))))))
    else Ok(c.(batch := Some(BatchTrack(rec.position, rec.envelope.batchId, 0, None))))
  }

  function DigestVerdict(batch: BatchTrack, rec: Record): Result<()> {
    if batch.check.None? then Ok(())
    else
      var check := batch.check.value;
      var control :- ParseBatchControl(rec.payload);
      if control.0 != check.count || control.1 != check.digest || batch.seen != check.count || check.running != check.digest
      then Err(Corrupt(rec.position)) else Ok(())
  }

  function OnCommit(c: Cont, rec: Record): Result<Cont> {
    if c.batch.None? then Err(Corrupt(rec.position))
    else
      var batch := c.batch.value;
      if rec.position != batch.first || rec.envelope.batchId != batch.batchId then Err(Corrupt(rec.position))
      else
        var _ :- DigestVerdict(batch, rec);
        if batch.seen == 0 then Err(Corrupt(rec.position))
        else Ok(Cont(batch.first + batch.seen, None))
  }

  function OnEvent(c: Cont, rec: Record, bytes: Bytes): Result<Cont> {
    if c.batch.Some? then
      var batch := c.batch.value;
      if || rec.position != Slot(c)
         || rec.envelope.batchId != batch.batchId
         || rec.envelope.batchIndex != batch.seen
      then Err(Corrupt(rec.position))
      else
        var check := if batch.check.None? then None
                     else Some(batch.check.value.(running := Crc.Crc32cAppend(batch.check.value.running, bytes)));
        Ok(c.(batch := Some(batch.(seen := batch.seen + 1, check := check))))
    else if rec.position != c.expected then Err(Corrupt(rec.position))
    else Ok(c.(expected := c.expected + 1))
  }

  function Advance(c: Cont, f: Frame, digests: bool): Result<Cont> {
    match f.rec.kind
    case BatchBegin => OnBegin(c, f.rec, digests)
    case BatchCommit => OnCommit(c, f.rec)
    case System => if c.batch.Some? || f.rec.position != c.expected then Err(Corrupt(f.rec.position)) else Ok(c)
    case Event => OnEvent(c, f.rec, f.bytes)
  }

  /** An open batch starts where the machine expected the next event. */
  predicate WellBracketed(c: Cont) {
    c.batch.Some? ==> c.batch.value.first == c.expected
  }

  /** The machine accepts `fs` from `c` and ends between batches at position `end`. */
  ghost predicate Clean(c: Cont, fs: seq<Frame>, digests: bool, end: nat)
    decreases |fs|
  {
    if fs == [] then c == Cont(end, None)
    else
      && IsFrame(fs[0]) && Advance(c, fs[0], digests).Ok?
      && Clean(Advance(c, fs[0], digests).value, fs[1..], digests, end)
  }

  function Frames(us: seq<Unit>): seq<Frame> {
    if us == [] then [] else UnitFrames(us[0]) + Frames(us[1..])
  }

  lemma {:induction false} CleanConcat(c: Cont, a: seq<Frame>, b: seq<Frame>, digests: bool, mid: nat, end: nat)
    requires Clean(c, a, digests, mid) && Clean(Cont(mid, None), b, digests, end)
    ensures Clean(c, a + b, digests, end)
    decreases |a|
  {
    hide IsFrame, Advance;
    if a == [] {
      assert a + b == b;
    } else {
      assert (a + b)[1..] == a[1..] + b;
      CleanConcat(Advance(c, a[0], digests).value, a[1..], b, digests, mid, end);
    }
  }

  /** From inside a batch after its first events, the rest of the batch is accepted. */
  lemma {:induction false} MembersAreClean(u: Unit, next: nat, n: nat, c: Cont, digests: bool)
    requires u.Batch? && ValidUnit(u, next) && n <= |u.events|
    requires c.expected == next && c.batch.Some?
    requires var b := c.batch.value; b.first == next && b.batchId == u.begin.rec.envelope.batchId && b.seen == n
    requires c.batch.value.check == if digests
      then Some(DigestCheck(|u.events|, Crc.Crc32c(FrameBytes(u.events)), Crc.Crc32c(FrameBytes(u.events[..n]))))
      else None
    ensures Clean(c, u.events[n..] + [u.commit], digests, next + |u.events|)
    decreases |u.events| - n
  {
    hide IsFrame, ParseBatchControl, Crc.Crc32c, Crc.Crc32cAppend, FrameBytes, BatchMember;
    var fs := u.events[n..] + [u.commit];
    if n == |u.events| {
      assert u.events[..n] == u.events && fs == [u.commit] && fs[1..] == [];
    } else {
      MemberAt(u, next, n);
      RunningDigest(u.events, n);
      assert fs[0] == u.events[n] && fs[1..] == u.events[n + 1..] + [u.commit];
      MembersAreClean(u, next, n + 1, Advance(c, fs[0], digests).value, digests);
    }
  }

  lemma MemberAt(u: Unit, next: nat, n: nat)
    requires u.Batch? && ValidUnit(u, next) && n < |u.events|
    ensures var f := u.events[n];
      && IsFrame(f) && f.rec.kind == Event && f.rec.position == next + n
      && f.rec.envelope.batchId == u.begin.rec.envelope.batchId && f.rec.envelope.batchIndex == n
  {
    hide IsFrame, ParseBatchControl, Crc.Crc32c, FrameBytes;
    assert BatchMember(u.events[n], next, n, u.begin.rec.envelope.batchId);
  }

  /** The append law turns the digest of the whole batch into a running one. */
  lemma RunningDigest(events: seq<Frame>, n: nat)
    requires n < |events|
    ensures Crc.Crc32cAppend(Crc.Crc32c(FrameBytes(events[..n])), events[n].bytes) == Crc.Crc32c(FrameBytes(events[..n + 1]))
  {
    hide FrameBytes, Crc.Update;
    assert events[..n + 1] == events[..n] + [events[n]];
    FrameBytesSnoc(events[..n], events[n]);
    Crc.AppendConcat(0, FrameBytes(events[..n]), events[n].bytes);
  }

  lemma EmptyDigest()
    ensures Crc.Crc32c(FrameBytes([])) == 0
  {
  }

  lemma UnitIsClean(u: Unit, next: nat, digests: bool)
    requires ValidUnit(u, next)
    ensures Clean(Cont(next, None), UnitFrames(u), digests, next + |UnitEvents(u)|)
  {
    hide IsFrame, ParseBatchControl, Crc.Crc32c, FrameBytes, BatchMember;
    var c := Cont(next, None);
    match u
    case Single(f) => assert [f][1..] == [];
    case Sys(f) => assert [f][1..] == [];
    case Batch(begin, events, commit) =>
      EmptyDigest();
      assert events[..0] == [] && events[0..] == events;
      assert UnitFrames(u)[1..] == events + [commit];
      MembersAreClean(u, next, 0, Advance(c, begin, digests).value, digests);
  }

  lemma {:induction false} UnitsAreClean(us: seq<Unit>, base: nat, digests: bool)
    requires ValidUnits(us, base)
    ensures Clean(Cont(base, None), Frames(us), digests, base + |Events(us)|)
    decreases |us|
  {
    hide UnitFrames, UnitEvents, Clean, ValidUnit;
    if us == [] {
      CleanAtEnd(base, digests);
    } else {
      var mid := base + |UnitEvents(us[0])|;
      UnitIsClean(us[0], base, digests);
      UnitsAreClean(us[1..], mid, digests);
      CleanConcat(Cont(base, None), UnitFrames(us[0]), Frames(us[1..]), digests, mid, base + |Events(us)|);
    }
  }

  lemma CleanAtEnd(end: nat, digests: bool)
    ensures Clean(Cont(end, None), [], digests, end)
  {
  }

  lemma {:induction false} FramesOfUnits(us: seq<Unit>)
    ensures FrameBytes(Frames(us)) == Image(us)
    decreases |us|
  {
    hide FrameBytes, UnitBytes, UnitFrames;
    if us == [] {
      FrameBytesOfNone();
    } else {
      FramesOfUnits(us[1..]);
      FrameBytesConcat(UnitFrames(us[0]), Frames(us[1..]));
      FramesOfUnit(us[0]);
    }
  }

  lemma FramesOfUnit(u: Unit)
    ensures FrameBytes(UnitFrames(u)) == UnitBytes(u)
  {
    hide FrameBytes;
    FrameBytesOfNone();
    match u
    case Single(f) => FrameBytesSnoc([], f); assert [] + [f] == [f];
    case Sys(f) => FrameBytesSnoc([], f); assert [] + [f] == [f];
    case Batch(begin, events, commit) =>
      FrameBytesSnoc([begin] + events, commit);
      FrameBytesOfSome([begin] + events);
      assert ([begin] + events)[1..] == events;
  }

  function EventsIn(fs: seq<Frame>): seq<Record> {
    if fs == [] then [] else (if fs[0].rec.kind == Event then [fs[0].rec] else []) + EventsIn(fs[1..])
  }

  /** Events accepted by the machine are dense from its slot to the end. */
  lemma {:induction false} CleanIsDense(c: Cont, fs: seq<Frame>, digests: bool, end: nat)
    requires Clean(c, fs, digests, end)
    ensures Slot(c) + |EventsIn(fs)| == end
    ensures forall i :: 0 <= i < |EventsIn(fs)| ==> EventsIn(fs)[i].position == Slot(c) + i
    ensures forall f :: f in fs && f.rec.kind == Event ==> Slot(c) <= f.rec.position < end
    decreases |fs|
  {
    hide IsFrame, Advance;
    if fs != [] {
      var next := Advance(c, fs[0], digests).value;
      AdvanceMovesSlot(c, fs[0], digests);
      CleanIsDense(next, fs[1..], digests, end);
      assert fs == [fs[0]] + fs[1..];
      if fs[0].rec.kind == Event {
        assert EventsIn(fs) == [fs[0].rec] + EventsIn(fs[1..]);
      } else {
        assert EventsIn(fs) == EventsIn(fs[1..]);
      }
    }
  }

  /** An accepted event takes the next slot, any other frame takes none. */
  lemma AdvanceMovesSlot(c: Cont, f: Frame, digests: bool)
    requires Advance(c, f, digests).Ok?
    ensures Slot(Advance(c, f, digests).value) == Slot(c) + if f.rec.kind == Event then 1 else 0
    ensures f.rec.kind == Event ==> f.rec.position == Slot(c)
  {
    hide ParseBatchControl, Crc.Crc32cAppend;
  }

  lemma {:induction false} EventsInFrames(us: seq<Unit>, base: nat)
    requires ValidUnits(us, base)
    ensures EventsIn(Frames(us)) == Events(us)
    decreases |us|
  {
    hide ValidUnit, UnitFrames, UnitEvents;
    if us != [] {
      EventsInFrames(us[1..], base + |UnitEvents(us[0])|);
      EventsInConcat(UnitFrames(us[0]), Frames(us[1..]));
      EventsInUnit(us[0], base);
    }
  }

  lemma {:induction false} EventsInConcat(a: seq<Frame>, b: seq<Frame>)
    ensures EventsIn(a + b) == EventsIn(a) + EventsIn(b)
    decreases |a|
  {
    if a == [] {
      assert a + b == b;
    } else {
      assert (a + b)[1..] == a[1..] + b;
      EventsInConcat(a[1..], b);
    }
  }

  lemma {:induction false} EventsInMembers(fs: seq<Frame>)
    requires forall i :: 0 <= i < |fs| ==> fs[i].rec.kind == Event
    ensures EventsIn(fs) == Records(fs)
    decreases |fs|
  {
    if fs != [] {
      EventsInMembers(fs[1..]);
      assert Records(fs) == [fs[0].rec] + Records(fs[1..]);
    }
  }

  lemma EventsInUnit(u: Unit, next: nat)
    requires ValidUnit(u, next)
    ensures EventsIn(UnitFrames(u)) == UnitEvents(u)
  {
    hide IsFrame, ParseBatchControl, Crc.Crc32c, FrameBytes;
    match u
    case Single(f) => assert [f][1..] == [];
    case Sys(f) => assert [f][1..] == [];
    case Batch(begin, events, commit) =>
      forall i | 0 <= i < |events| ensures events[i].rec.kind == Event {
        MemberAt(u, next, i);
      }
      EventsInMembers(events);
      EventsInConcat([begin], events + [commit]);
      EventsInConcat(events, [commit]);
      assert [begin] + (events + [commit]) == UnitFrames(u);
      assert [begin][1..] == [] && [commit][1..] == [];
  }

  // ── what the machine's acceptance says of arbitrary frames ─────────────

  ghost predicate AllFrames(fs: seq<Frame>) {
    forall i :: 0 <= i < |fs| ==> IsFrame(fs[i])
  }

  /** Where the machine stands after the frames, if it accepts them. */
  function Followed(c: Cont, fs: seq<Frame>, digests: bool): Result<Cont>
    decreases |fs|
  {
    if fs == [] then Ok(c)
    else
      var before :- Followed(c, fs[..|fs| - 1], digests);
      Advance(before, fs[|fs| - 1], digests)
  }

  lemma FollowedSnoc(c: Cont, fs: seq<Frame>, f: Frame, digests: bool)
    ensures Followed(c, fs + [f], digests) ==
      match Followed(c, fs, digests)
      case Ok(before) => Advance(before, f, digests)
      case Err(error) => Err(error)
    ensures AllFrames(fs + [f]) <==> AllFrames(fs) && IsFrame(f)
  {
    hide Advance, IsFrame;
    assert (fs + [f])[..|fs|] == fs && (fs + [f])[|fs|] == f;
    if AllFrames(fs + [f]) {
      assert forall i :: 0 <= i < |fs| ==> (fs + [f])[i] == fs[i];
    }
  }

  lemma {:induction false} FollowedPrefix(c: Cont, fs: seq<Frame>, n: nat, digests: bool)
    requires n <= |fs| && Followed(c, fs, digests).Ok?
    ensures Followed(c, fs[..n], digests).Ok?
    decreases |fs|
  {
    hide Advance;
    if n == |fs| {
      assert fs[..n] == fs;
    } else {
      assert fs[..|fs| - 1][..n] == fs[..n];
      FollowedPrefix(c, fs[..|fs| - 1], n, digests);
    }
  }

  /** The batch the machine is inside of: its begin and the members so far. */
  ghost predicate InsideBatch(c: Cont, tail: seq<Frame>, next: nat) {
    && c.expected == next
    && if c.batch.None? then tail == []
       else
         var b := c.batch.value;
         && tail != [] && IsFrame(tail[0]) && tail[0].rec.kind == BatchBegin && tail[0].rec.position == next
         && b.first == next && b.batchId == tail[0].rec.envelope.batchId && b.seen == |tail| - 1
         && b.check.Some? && ParseBatchControl(tail[0].rec.payload) == Ok((b.check.value.count, b.check.value.digest))
         && b.check.value.running == Crc.Crc32c(FrameBytes(tail[1..]))
         && forall i :: 0 <= i < |tail[1..]| ==> BatchMember(tail[1..][i], next, i, b.batchId)
  }

  /** One more frame: the open batch goes on, or a unit is complete. */
  lemma OneMoreFrame(c: Cont, tail: seq<Frame>, next: nat, f: Frame) returns (done: seq<Unit>, rest: seq<Frame>)
    requires InsideBatch(c, tail, next) && IsFrame(f) && Advance(c, f, true).Ok?
    ensures tail + [f] == Frames(done) + rest && ValidUnits(done, next)
    ensures InsideBatch(Advance(c, f, true).value, rest, next + |Events(done)|)
  {
    hide IsFrame, ParseBatchControl, Crc.Crc32c, FrameBytes, BatchMember;
    match f.rec.kind
    case BatchBegin =>
      EmptyDigest();
      done, rest := [], [f];
      assert [f][1..] == [] && tail + [f] == rest;
    case System =>
      done, rest := [Sys(f)], [];
      OneUnit(Sys(f), next);
      assert tail + [f] == [f];
    case Event =>
      if c.batch.None? {
        done, rest := [Single(f)], [];
        OneUnit(Single(f), next);
        assert tail + [f] == [f];
      } else {
        done, rest := [], tail + [f];
        OneMoreMember(c, tail, next, f);
      }
    case BatchCommit =>
      var u := Batch(tail[0], tail[1..], f);
      done, rest := [u], [];
      CommittedUnit(c, tail, next, f);
      OneUnit(u, next);
      assert tail == [tail[0]] + tail[1..];
  }

  lemma OneUnit(u: Unit, next: nat)
    requires ValidUnit(u, next)
    ensures ValidUnits([u], next) && Events([u]) == UnitEvents(u) && Frames([u]) == UnitFrames(u)
  {
    hide ValidUnit;
    assert [u][1..] == [];
  }

  lemma OneMoreMember(c: Cont, tail: seq<Frame>, next: nat, f: Frame)
    requires InsideBatch(c, tail, next) && IsFrame(f) && f.rec.kind == Event && c.batch.Some? && Advance(c, f, true).Ok?
    ensures InsideBatch(Advance(c, f, true).value, tail + [f], next)
  {
    hide IsFrame, ParseBatchControl, Crc.Crc32c, Crc.Crc32cAppend, FrameBytes;
    var all, members := tail + [f], tail[1..] + [f];
    assert all[1..] == members && members[..|tail| - 1] == tail[1..] && members[|tail| - 1] == f;
    assert members[..|tail|] == members;
    RunningDigest(members, |tail| - 1);
    forall i | 0 <= i < |members| ensures BatchMember(members[i], next, i, c.batch.value.batchId) {
      if i < |tail| - 1 {
        assert members[i] == tail[1..][i];
      }
    }
  }

  lemma CommittedUnit(c: Cont, tail: seq<Frame>, next: nat, f: Frame)
    requires InsideBatch(c, tail, next) && IsFrame(f) && f.rec.kind == BatchCommit && Advance(c, f, true).Ok?
    ensures c.batch.Some? && tail != []
    ensures ValidUnit(Batch(tail[0], tail[1..], f), next) && Advance(c, f, true).value == Cont(next + |tail[1..]|, None)
  {
    hide IsFrame, Crc.Crc32c, FrameBytes, ParseBatchControl;
    var members := tail[1..];
    assert forall i :: 0 <= i < |members| ==> BatchMember(members[i], next, i, tail[0].rec.envelope.batchId);
  }

  /** WHOLE UNITS: with digests on, the machine accepts nothing but whole valid units, each
      batch checked against its digest, and at the end the beginning of one more batch. */
  lemma {:induction false} AcceptedIsUnits(base: nat, fs: seq<Frame>) returns (us: seq<Unit>, tail: seq<Frame>)
    requires AllFrames(fs) && Followed(Cont(base, None), fs, true).Ok?
    ensures fs == Frames(us) + tail && ValidUnits(us, base)
    ensures InsideBatch(Followed(Cont(base, None), fs, true).value, tail, base + |Events(us)|)
    decreases |fs|
  {
    hide Advance, IsFrame, InsideBatch, ValidUnits, Frames, Events, Image, Systems;
    if fs == [] {
      us, tail := [], [];
      NothingOpen(base);
    } else {
      var shorter, f := fs[..|fs| - 1], fs[|fs| - 1];
      assert fs == shorter + [f];
      var older, inside := AcceptedIsUnits(base, shorter);
      var c := Followed(Cont(base, None), shorter, true).value;
      var done, rest := OneMoreFrame(c, inside, base + |Events(older)|, f);
      us, tail := older + done, rest;
      ValidConcat(older, done, base);
      ContentConcat(older, done);
      FramesConcat(older, done);
      assert fs == Frames(older) + (inside + [f]);
    }
  }

  lemma NothingOpen(base: nat)
    ensures Frames([]) == [] && ValidUnits([], base) && Events([]) == [] && InsideBatch(Cont(base, None), [], base)
  {
  }

  lemma {:induction false} FramesConcat(a: seq<Unit>, b: seq<Unit>)
    ensures Frames(a + b) == Frames(a) + Frames(b)
    decreases |a|
  {
    hide UnitFrames;
    if a == [] {
      assert a + b == b;
    } else {
      assert (a + b)[1..] == a[1..] + b;
      FramesConcat(a[1..], b);
    }
  }

  /** Bytes split into frames in one way only: what was read is the front of any reading
      that reaches bytes at which no frame starts. */
  lemma {:induction false} ReadIsPrefix(read: seq<Frame>, rest: Bytes, fs: seq<Frame>, end: Bytes)
    requires AllFrames(read) && AllFrames(fs) && FrameBytes(read) + rest == FrameBytes(fs) + end
    requires Decode(end).Ok? ==> Decode(end).value.None?
    ensures read <= fs && FrameBytes(fs[|read|..]) + end == rest
    decreases |read|
  {
    hide Decode, DecodedFrame, FrameBytes;
    FrameBytesOfNone();
    if read == [] {
      assert fs[0..] == fs && [] + rest == rest;
    } else {
      FrameBytesOfSome(read);
      var bytes := FrameBytes(read) + rest;
      assert bytes == read[0].bytes + (FrameBytes(read[1..]) + rest);
      DecodeFirst(read[0], FrameBytes(read[1..]) + rest);
      assert [] + end == end;
      if fs != [] {
        FrameBytesOfSome(fs);
        assert bytes == fs[0].bytes + (FrameBytes(fs[1..]) + end);
        DecodeFirst(fs[0], FrameBytes(fs[1..]) + end);
        assert read[0].bytes == bytes[..|read[0].bytes|] == fs[0].bytes;
        assert FrameBytes(read[1..]) + rest == bytes[|read[0].bytes|..] == FrameBytes(fs[1..]) + end;
        assert forall i :: 0 <= i < |read[1..]| ==> read[1..][i] == read[i + 1];
        assert forall i :: 0 <= i < |fs[1..]| ==> fs[1..][i] == fs[i + 1];
        ReadIsPrefix(read[1..], rest, fs[1..], end);
        assert read == [read[0]] + read[1..] && fs == [fs[0]] + fs[1..];
        assert fs[1..][|read| - 1..] == fs[|read|..];
      }
    }
  }
}
