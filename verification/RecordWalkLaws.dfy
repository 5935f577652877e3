/** What the record walk recovers: on every buffer a sequence of whole committed
    units, and on every cut of a written segment exactly the units inside the cut. */
module RecordWalkLaws {
  import opened Base
  import opened LittleEndian
  import opened Format
  import opened FormatLaws
  import opened RecordWalk
  import Crc

  // ── sequences of frames and units ──────────────────────────────────────

  lemma {:induction false} FrameBytesConcat(a: seq<Frame>, b: seq<Frame>)
    ensures FrameBytes(a + b) == FrameBytes(a) + FrameBytes(b)
    decreases |a|
  {
    if a == [] {
      assert a + b == b;
    } else {
      assert (a + b)[1..] == a[1..] + b;
      FrameBytesConcat(a[1..], b);
    }
  }

  lemma FrameBytesSnoc(a: seq<Frame>, f: Frame)
    ensures FrameBytes(a + [f]) == FrameBytes(a) + f.bytes
  {
    FrameBytesConcat(a, [f]);
    assert FrameBytes([f]) == f.bytes + FrameBytes([]);
  }

  lemma {:induction false} ContentConcat(a: seq<Unit>, b: seq<Unit>)
    ensures Image(a + b) == Image(a) + Image(b)
    ensures Events(a + b) == Events(a) + Events(b)
    ensures Systems(a + b) == Systems(a) + Systems(b)
    decreases |a|
  {
    hide UnitBytes, UnitEvents, UnitSystems;
    if a == [] {
      assert a + b == b;
    } else {
      assert (a + b)[1..] == a[1..] + b;
      ContentConcat(a[1..], b);
    }
  }

  lemma {:induction false} ValidConcat(a: seq<Unit>, b: seq<Unit>, base: nat)
    ensures ValidUnits(a + b, base) <==> ValidUnits(a, base) && ValidUnits(b, base + |Events(a)|)
    decreases |a|
  {
    hide UnitBytes, UnitEvents, UnitSystems, ValidUnit;
    if a == [] {
      assert a + b == b;
    } else {
      assert (a + b)[1..] == a[1..] + b;
      ValidConcat(a[1..], b, base + |UnitEvents(a[0])|);
    }
  }

  lemma UnitsSnoc(a: seq<Unit>, u: Unit, base: nat)
    ensures Image(a + [u]) == Image(a) + UnitBytes(u)
    ensures Events(a + [u]) == Events(a) + UnitEvents(u)
    ensures Systems(a + [u]) == Systems(a) + UnitSystems(u)
    ensures ValidUnits(a + [u], base) <==> ValidUnits(a, base) && ValidUnit(u, base + |Events(a)|)
  {
    hide UnitBytes, UnitEvents, UnitSystems, ValidUnit;
    ContentConcat(a, [u]);
    ValidConcat(a, [u], base);
    assert [u][1..] == [];
    assert Image([u]) == UnitBytes(u) && Events([u]) == UnitEvents(u) && Systems([u]) == UnitSystems(u);
  }

  /** Positions of committed events are dense from the segment's base. */
  lemma {:induction false} EventsAreDense(us: seq<Unit>, base: nat)
    requires ValidUnits(us, base)
    ensures forall i :: 0 <= i < |Events(us)| ==> Events(us)[i].position == base + i && Events(us)[i].kind == Event
    decreases |us|
  {
    hide IsFrame, ParseBatchControl, Crc.Crc32c, FrameBytes;
    if us != [] {
      EventsAreDense(us[1..], base + |UnitEvents(us[0])|);
      if us[0].Batch? {
        forall i | 0 <= i < |us[0].events| ensures UnitEvents(us[0])[i].position == base + i && UnitEvents(us[0])[i].kind == Event {
          assert BatchMember(us[0].events[i], base, i, us[0].begin.rec.envelope.batchId);
        }
      }
    }
  }

  // ── the walk consumes a valid unit whole ───────────────────────────────

  lemma DecodeFirst(f: Frame, tail: Bytes)
    requires IsFrame(f)
    ensures Decode(f.bytes + tail) == Ok(Some(Decoded(f.rec, |f.bytes|)))
    ensures (f.bytes + tail)[..|f.bytes|] == f.bytes && (f.bytes + tail)[|f.bytes|..] == tail
  {
    hide DecodedFrame;
    assert f.bytes[..|f.bytes|] == f.bytes;
    DecodeDependsOnFrameOnly(f.bytes, f.bytes + tail, DEFAULT_LIMITS);
  }

  lemma DecodeTorn(f: Frame, k: nat)
    requires IsFrame(f) && k < |f.bytes|
    ensures Decode(f.bytes[..k]) == Ok(None)
  {
    hide DecodedFrame;
    StrictPrefixIsIncomplete(f.bytes, k, DEFAULT_LIMITS);
  }

  /** The state after reading a batch's begin frame and its first `n` events. */
  function InBatch(st: ScanState, begin: Frame, events: seq<Frame>, count: nat, digest: u32): ScanState {
    st.(pos := st.pos + |begin.bytes| + |FrameBytes(events)|,
        pending := Some(Pending(st.pos, begin.rec.position, begin.rec.envelope.batchId, count, digest,
                                FrameBytes(events), Records(events))))
  }

  predicate AtBoundary(st: ScanState) {
    st.pending.None? && st.pos == st.validBytes
  }

  function AfterUnit(st: ScanState, u: Unit): ScanState {
    ScanState(st.pos + |UnitBytes(u)|, st.pos + |UnitBytes(u)|, st.nextOffset + |UnitEvents(u)|,
              st.records + UnitEvents(u), st.systems + UnitSystems(u), None)
  }

  lemma Accepts(st: ScanState, f: Frame, tail: Bytes)
    requires IsFrame(f) && OnFrame(st, f.rec, f.bytes).Continue?
    ensures ScanFrom(f.bytes + tail, st) == ScanFrom(tail, OnFrame(st, f.rec, f.bytes).state)
  {
    hide Decode, IsFrame, OnFrame;
    DecodeFirst(f, tail);
  }

  lemma OpensBatch(st: ScanState, begin: Frame, count: u32, digest: u32, tail: Bytes)
    requires AtBoundary(st)
    requires IsFrame(begin) && begin.rec.kind == BatchBegin && begin.rec.position == st.nextOffset
    requires ParseBatchControl(begin.rec.payload) == Ok((count, digest))
    ensures ScanFrom(begin.bytes + tail, st) == ScanFrom(tail, InBatch(st, begin, [], count, digest))
  {
    hide ScanFrom, IsFrame, ParseBatchControl;
    Accepts(st, begin, tail);
    assert Records([]) == [];
  }

  lemma ReadsMember(st: ScanState, begin: Frame, before: seq<Frame>, f: Frame, count: nat, digest: u32, tail: Bytes)
    requires AtBoundary(st) && |before| < count
    requires BatchMember(f, begin.rec.position, |before|, begin.rec.envelope.batchId)
    ensures ScanFrom(f.bytes + tail, InBatch(st, begin, before, count, digest))
         == ScanFrom(tail, InBatch(st, begin, before + [f], count, digest))
  {
    hide ScanFrom, IsFrame, FrameBytes;
    Accepts(InBatch(st, begin, before, count, digest), f, tail);
    FrameBytesSnoc(before, f);
    assert Records(before + [f]) == Records(before) + [f.rec];
  }

  lemma {:induction false} ReadsMembers(st: ScanState, begin: Frame, before: seq<Frame>, more: seq<Frame>, count: nat, digest: u32, tail: Bytes)
    requires AtBoundary(st) && |before| + |more| <= count
    requires forall i :: 0 <= i < |more| ==> BatchMember(more[i], begin.rec.position, |before| + i, begin.rec.envelope.batchId)
    ensures ScanFrom(FrameBytes(more) + tail, InBatch(st, begin, before, count, digest))
         == ScanFrom(tail, InBatch(st, begin, before + more, count, digest))
    decreases |more|
  {
    hide ScanFrom, IsFrame, InBatch;
    if more == [] {
      assert before + more == before && FrameBytes(more) + tail == tail;
    } else {
      var rest := FrameBytes(more[1..]) + tail;
      assert FrameBytes(more) + tail == more[0].bytes + rest;
      assert BatchMember(more[0], begin.rec.position, |before| + 0, begin.rec.envelope.batchId);
      ReadsMember(st, begin, before, more[0], count, digest, rest);
      assert before + [more[0]] + more[1..] == before + more;
      forall i | 0 <= i < |more[1..]|
        ensures BatchMember(more[1..][i], begin.rec.position, |before + [more[0]]| + i, begin.rec.envelope.batchId)
      {
        assert more[1..][i] == more[i + 1];
      }
      ReadsMembers(st, begin, before + [more[0]], more[1..], count, digest, tail);
    }
  }

  lemma ClosesBatch(st: ScanState, u: Unit, tail: Bytes)
    requires AtBoundary(st) && u.Batch? && ValidUnit(u, st.nextOffset)
    ensures var digest := Crc.Crc32c(FrameBytes(u.events));
      ScanFrom(u.commit.bytes + tail, InBatch(st, u.begin, u.events, |u.events|, digest)) == ScanFrom(tail, AfterUnit(st, u))
  {
    hide ScanFrom, IsFrame, ParseBatchControl, Crc.Crc32c, FrameBytes, BatchMember;
    Accepts(InBatch(st, u.begin, u.events, |u.events|, Crc.Crc32c(FrameBytes(u.events))), u.commit, tail);
    assert |UnitBytes(u)| == |u.begin.bytes| + |FrameBytes(u.events)| + |u.commit.bytes|;
    assert st.systems + UnitSystems(u) == st.systems;
  }

  lemma ConsumesFrame(st: ScanState, u: Unit, tail: Bytes)
    requires AtBoundary(st) && ValidUnit(u, st.nextOffset) && !u.Batch?
    ensures ScanFrom(UnitBytes(u) + tail, st) == ScanFrom(tail, AfterUnit(st, u))
  {
    hide ScanFrom, IsFrame, ParseBatchControl, Crc.Crc32c, FrameBytes;
    Accepts(st, u.frame, tail);
    assert st.systems + [] == st.systems && st.records + [] == st.records;
  }

  lemma ConsumesUnit(st: ScanState, u: Unit, tail: Bytes)
    requires AtBoundary(st) && ValidUnit(u, st.nextOffset)
    ensures ScanFrom(UnitBytes(u) + tail, st) == ScanFrom(tail, AfterUnit(st, u))
  {
    hide ScanFrom, IsFrame, InBatch, AfterUnit, Crc.Crc32c, ParseBatchControl;
    match u
    case Single(_) => ConsumesFrame(st, u, tail);
    case Sys(_) => ConsumesFrame(st, u, tail);
    case Batch(begin, events, commit) =>
      var digest := Crc.Crc32c(FrameBytes(events));
      var rest := FrameBytes(events) + (commit.bytes + tail);
      assert UnitBytes(u) + tail == begin.bytes + rest;
      OpensBatch(st, begin, |events|, digest, rest);
      assert [] + events == events;
      ReadsMembers(st, begin, [], events, |events|, digest, commit.bytes + tail);
      ClosesBatch(st, u, tail);
  }

  function AfterUnits(st: ScanState, us: seq<Unit>): ScanState
    decreases |us|
  {
    if us == [] then st else AfterUnits(AfterUnit(st, us[0]), us[1..])
  }

  lemma {:induction false} AfterUnitsFields(st: ScanState, us: seq<Unit>)
    requires AtBoundary(st)
    ensures AfterUnits(st, us) == ScanState(st.pos + |Image(us)|, st.pos + |Image(us)|, st.nextOffset + |Events(us)|,
                                            st.records + Events(us), st.systems + Systems(us), None)
    decreases |us|
  {
    hide UnitBytes, UnitEvents, UnitSystems;
    if us == [] {
      assert st.records + [] == st.records && st.systems + [] == st.systems;
    } else {
      AfterUnitsFields(AfterUnit(st, us[0]), us[1..]);
    }
  }

  lemma {:induction false} ConsumesUnits(st: ScanState, us: seq<Unit>, tail: Bytes)
    requires AtBoundary(st) && ValidUnits(us, st.nextOffset)
    ensures ScanFrom(Image(us) + tail, st) == ScanFrom(tail, AfterUnits(st, us))
    decreases |us|
  {
    hide ScanFrom, UnitBytes, ValidUnit;
    if us == [] {
      assert Image(us) + tail == tail;
    } else {
      assert Image(us) + tail == UnitBytes(us[0]) + (Image(us[1..]) + tail);
      ConsumesUnit(st, us[0], Image(us[1..]) + tail);
      ConsumesUnits(AfterUnit(st, us[0]), us[1..], tail);
    }
  }

  // ── a torn unit leaves nothing behind ──────────────────────────────────

  lemma StopsInFrame(st: ScanState, f: Frame, k: nat)
    requires IsFrame(f) && k < |f.bytes|
    ensures ScanFrom(f.bytes[..k], st)
         == Ok(Finished(Rewound(st), if k == 0 && st.pending.None? then CleanEof else TornTail))
  {
    hide Decode, IsFrame;
    DecodeTorn(f, k);
  }

  lemma {:induction false} StopsInMembers(st: ScanState, begin: Frame, before: seq<Frame>, more: seq<Frame>, commit: Frame, count: nat, digest: u32, k: nat)
    requires AtBoundary(st) && |before| + |more| <= count && IsFrame(commit)
    requires forall i :: 0 <= i < |more| ==> BatchMember(more[i], begin.rec.position, |before| + i, begin.rec.envelope.batchId)
    requires k < |FrameBytes(more) + commit.bytes|
    ensures ScanFrom((FrameBytes(more) + commit.bytes)[..k], InBatch(st, begin, before, count, digest))
         == Ok(Finished(st, TornTail))
    decreases |more|
  {
    hide ScanFrom, IsFrame, FrameBytes;
    var at := InBatch(st, begin, before, count, digest);
    assert Rewound(at) == st;
    if more == [] {
      FrameBytesOfNone();
      assert FrameBytes(more) + commit.bytes == commit.bytes;
      StopsInFrame(at, commit, k);
    } else {
      FrameBytesOfSome(more);
      assert BatchMember(more[0], begin.rec.position, |before| + 0, begin.rec.envelope.batchId);
      var all := FrameBytes(more) + commit.bytes;
      var rest := FrameBytes(more[1..]) + commit.bytes;
      assert all == more[0].bytes + rest;
      if k < |more[0].bytes| {
        assert all[..k] == more[0].bytes[..k];
        StopsInFrame(at, more[0], k);
      } else {
        var j := k - |more[0].bytes|;
        assert all[..k] == more[0].bytes + rest[..j];
        ReadsMember(st, begin, before, more[0], count, digest, rest[..j]);
        forall i | 0 <= i < |more[1..]|
          ensures BatchMember(more[1..][i], begin.rec.position, |before + [more[0]]| + i, begin.rec.envelope.batchId)
        {
          assert more[1..][i] == more[i + 1];
        }
        StopsInMembers(st, begin, before + [more[0]], more[1..], commit, count, digest, j);
      }
    }
  }

  lemma FrameBytesOfNone()
    ensures FrameBytes([]) == []
  {
  }

  lemma FrameBytesOfSome(fs: seq<Frame>)
    requires fs != []
    ensures FrameBytes(fs) == fs[0].bytes + FrameBytes(fs[1..])
  {
  }

  lemma StopsInUnit(st: ScanState, u: Unit, k: nat)
    requires AtBoundary(st) && ValidUnit(u, st.nextOffset) && k < |UnitBytes(u)|
    ensures ScanFrom(UnitBytes(u)[..k], st) == Ok(Finished(st, if k == 0 then CleanEof else TornTail))
  {
    hide ScanFrom, IsFrame, InBatch, Crc.Crc32c;
    match u
    case Single(f) => StopsInFrame(st, f, k);
    case Sys(f) => StopsInFrame(st, f, k);
    case Batch(begin, events, commit) =>
      var rest := FrameBytes(events) + commit.bytes;
      if k < |begin.bytes| {
        assert UnitBytes(u)[..k] == begin.bytes[..k];
        StopsInFrame(st, begin, k);
      } else {
        var j := k - |begin.bytes|;
        assert UnitBytes(u)[..k] == begin.bytes + rest[..j];
        OpensBatch(st, begin, |events|, Crc.Crc32c(FrameBytes(events)), rest[..j]);
        StopsInMembers(st, begin, [], events, commit, |events|, Crc.Crc32c(FrameBytes(events)), j);
        DecodableIsNonempty(begin);
      }
  }

  lemma DecodableIsNonempty(f: Frame)
    requires IsFrame(f)
    ensures |f.bytes| >= FRAME_HEADER_LEN
  {
    hide DecodedFrame;
    assert Decode(f.bytes).value.value.consumed == |f.bytes|;
  }

  /** How many leading units lie wholly inside the first `cut` bytes. */
  function UnitsWithin(us: seq<Unit>, cut: nat): (m: nat)
    ensures m <= |us|
  {
    if us == [] || cut < |UnitBytes(us[0])| then 0
    else 1 + UnitsWithin(us[1..], cut - |UnitBytes(us[0])|)
  }

  /** Every cut of a written segment recovers exactly the units inside the cut:
      no partial batch survives, no complete one is lost. */
  lemma {:induction false} CutRecoversWholeUnits(us: seq<Unit>, st: ScanState, cut: nat)
    requires AtBoundary(st) && ValidUnits(us, st.nextOffset) && cut <= |Image(us)|
    ensures var kept := us[..UnitsWithin(us, cut)];
      && |Image(kept)| <= cut
      && (|kept| < |us| ==> cut < |Image(us[..|kept| + 1])|)
      && ScanFrom(Image(us)[..cut], st)
         == Ok(Finished(AfterUnits(st, kept), if |Image(kept)| == cut then CleanEof else TornTail))
    decreases |us|
  {
    hide ScanFrom, UnitBytes, ValidUnit, Image, UnitEvents;
    if us == [] {
      ImageOfNone();
      assert Image(us)[..cut] == [];
      StopsAtEnd(st);
    } else if cut < |UnitBytes(us[0])| {
      ImageOfFirst(us, 0);
      assert Image(us)[..cut] == UnitBytes(us[0])[..cut];
      StopsInUnit(st, us[0], cut);
      ImageOfNone();
      assert us[..0] == [];
    } else {
      var k := cut - |UnitBytes(us[0])|;
      var m := UnitsWithin(us[1..], k);
      ImageOfFirst(us, m);
      assert Image(us)[..cut] == UnitBytes(us[0]) + Image(us[1..])[..k];
      ConsumesUnit(st, us[0], Image(us[1..])[..k]);
      CutRecoversWholeUnits(us[1..], AfterUnit(st, us[0]), k);
      assert us[..m + 1][1..] == us[1..][..m] && us[..m + 1][0] == us[0];
      if m + 1 < |us| {
        ImageOfFirst(us, m + 1);
      }
    }
  }

  lemma ImageOfNone()
    ensures Image([]) == []
  {
  }

  /** The image of a nonempty prefix starts with the first unit's bytes. */
  lemma ImageOfFirst(us: seq<Unit>, m: nat)
    requires m < |us|
    ensures Image(us) == UnitBytes(us[0]) + Image(us[1..])
    ensures Image(us[..m + 1]) == UnitBytes(us[0]) + Image(us[1..][..m])
  {
    hide UnitBytes;
    assert us[..m + 1][1..] == us[1..][..m] && us[..m + 1][0] == us[0];
  }

  lemma StopsAtEnd(st: ScanState)
    requires AtBoundary(st)
    ensures ScanFrom([], st) == Ok(Finished(st, CleanEof))
  {
  }

  // ── soundness on arbitrary bytes ───────────────────────────────────────

  /** What the walk has consumed so far: whole units, then perhaps an open batch. */
  datatype Open = NoBatch | OpenBatch(begin: Frame, events: seq<Frame>)

  function OpenBytes(open: Open): Bytes {
    match open
    case NoBatch => []
    case OpenBatch(begin, events) => begin.bytes + FrameBytes(events)
  }

  ghost predicate Explains(us: seq<Unit>, open: Open, base: nat, st: ScanState) {
    && ValidUnits(us, base)
    && st.records == Events(us) && st.systems == Systems(us)
    && st.nextOffset == base + |Events(us)|
    && st.validBytes == |Image(us)|
    && st.pos == |Image(us)| + |OpenBytes(open)|
    && match open {
         case NoBatch => st.pending.None?
         case OpenBatch(begin, events) =>
           && IsFrame(begin) && begin.rec.kind == BatchBegin && begin.rec.position == st.nextOffset
           && st.pending.Some?
           && var p := st.pending.value;
              && p.startByte == |Image(us)| && p.first == st.nextOffset
              && p.batchId == begin.rec.envelope.batchId
              && ParseBatchControl(begin.rec.payload) == Ok((p.count, p.digest))
              && p.eventBytes == FrameBytes(events) && p.events == Records(events)
              && |events| <= p.count
              && forall i :: 0 <= i < |events| ==> BatchMember(events[i], p.first, i, p.batchId)
       }
  }

  lemma FirstFrame(rest: Bytes)
    requires Decode(rest).Ok? && Decode(rest).value.Some?
    ensures var d := Decode(rest).value.value; IsFrame(Frame(rest[..d.consumed], d.record))
  {
    hide DecodedFrame;
    var d := Decode(rest).value.value;
    DecodeDependsOnFrameOnly(rest, rest[..d.consumed], DEFAULT_LIMITS);
  }

  /** One accepted frame extends the explanation: it is a unit of its own ... */
  lemma ExplainUnit(us: seq<Unit>, base: nat, st: ScanState, f: Frame) returns (u: Unit)
    requires Explains(us, NoBatch, base, st) && IsFrame(f) && OnFrame(st, f.rec, f.bytes).Continue?
    requires f.rec.kind == Event || f.rec.kind == System
    ensures Explains(us + [u], NoBatch, base, OnFrame(st, f.rec, f.bytes).state)
    ensures Image(us + [u]) == Image(us) + f.bytes
  {
    hide IsFrame, ParseBatchControl, Crc.Crc32c, FrameBytes, Image, Events, Systems, ValidUnits;
    u := if f.rec.kind == Event then Single(f) else Sys(f);
    UnitsSnoc(us, u, base);
    assert st.systems + [] == st.systems && st.records + [] == st.records;
  }

  /** ... or opens a batch ... */
  lemma ExplainBegin(us: seq<Unit>, open: Open, base: nat, st: ScanState, f: Frame)
    requires Explains(us, open, base, st) && IsFrame(f) && OnFrame(st, f.rec, f.bytes).Continue?
    requires f.rec.kind == BatchBegin
    ensures open.NoBatch? && Explains(us, OpenBatch(f, []), base, OnFrame(st, f.rec, f.bytes).state)
    ensures OpenBytes(OpenBatch(f, [])) == f.bytes
  {
    hide IsFrame, ParseBatchControl, Crc.Crc32c, FrameBytes, Image, Events, Systems, ValidUnits;
    FrameBytesOfNone();
    assert OpenBytes(OpenBatch(f, [])) == f.bytes;
    assert Records([]) == [];
  }

  /** ... or joins the open batch ... */
  lemma ExplainMember(us: seq<Unit>, open: Open, base: nat, st: ScanState, f: Frame)
    requires Explains(us, open, base, st) && IsFrame(f) && OnFrame(st, f.rec, f.bytes).Continue?
    requires f.rec.kind == Event && open.OpenBatch?
    ensures Explains(us, OpenBatch(open.begin, open.events + [f]), base, OnFrame(st, f.rec, f.bytes).state)
    ensures OpenBytes(OpenBatch(open.begin, open.events + [f])) == OpenBytes(open) + f.bytes
  {
    hide IsFrame, ParseBatchControl, Crc.Crc32c, FrameBytes, Image, Events, Systems, ValidUnits;
    FrameBytesSnoc(open.events, f);
    assert Records(open.events + [f]) == Records(open.events) + [f.rec];
    assert OpenBytes(OpenBatch(open.begin, open.events + [f])) == OpenBytes(open) + f.bytes;
  }

  /** ... or commits it. */
  lemma ExplainCommit(us: seq<Unit>, open: Open, base: nat, st: ScanState, f: Frame)
    requires Explains(us, open, base, st) && IsFrame(f) && OnFrame(st, f.rec, f.bytes).Continue?
    requires f.rec.kind == BatchCommit
    ensures open.OpenBatch?
    ensures Explains(us + [Batch(open.begin, open.events, f)], NoBatch, base, OnFrame(st, f.rec, f.bytes).state)
    ensures Image(us + [Batch(open.begin, open.events, f)]) == Image(us) + OpenBytes(open) + f.bytes
  {
    hide IsFrame, ParseBatchControl, Crc.Crc32c, FrameBytes, Image, Events, Systems, ValidUnits;
    var u := Batch(open.begin, open.events, f);
    assert UnitBytes(u) == OpenBytes(open) + f.bytes;
    ControlCountIsNonzero(f.rec.payload);
    UnitsSnoc(us, u, base);
    assert st.systems + [] == st.systems;
    assert Image(us + [u]) == Image(us) + OpenBytes(open) + f.bytes;
  }

  lemma ExtendExplanation(us: seq<Unit>, open: Open, base: nat, st: ScanState, f: Frame) returns (us': seq<Unit>, open': Open)
    requires Explains(us, open, base, st) && IsFrame(f) && OnFrame(st, f.rec, f.bytes).Continue?
    ensures us <= us' && Explains(us', open', base, OnFrame(st, f.rec, f.bytes).state)
    ensures Image(us') + OpenBytes(open') == Image(us) + OpenBytes(open) + f.bytes
  {
    hide Explains, Image, OnFrame, IsFrame, FrameBytes;
    us', open' := us, open;
    if f.rec.kind == BatchBegin {
      ExplainBegin(us, open, base, st, f);
      open' := OpenBatch(f, []);
    } else if f.rec.kind == BatchCommit {
      ExplainCommit(us, open, base, st, f);
      us', open' := us + [Batch(open.begin, open.events, f)], NoBatch;
    } else if open.OpenBatch? {
      SystemFrameNeedsNoBatch(us, open, base, st, f);
      ExplainMember(us, open, base, st, f);
      open' := OpenBatch(open.begin, open.events + [f]);
    } else {
      var u := ExplainUnit(us, base, st, f);
      us' := us + [u];
    }
  }

  lemma SystemFrameNeedsNoBatch(us: seq<Unit>, open: Open, base: nat, st: ScanState, f: Frame)
    requires Explains(us, open, base, st) && OnFrame(st, f.rec, f.bytes).Continue? && open.OpenBatch?
    ensures f.rec.kind != System
  {
  }

  lemma ControlCountIsNonzero(payload: Bytes)
    ensures ParseBatchControl(payload).Ok? ==> ParseBatchControl(payload).value.0 != 0
  {
  }

  lemma BreakKeepsBoundary(us: seq<Unit>, open: Open, base: nat, st: ScanState, f: Frame)
    requires Explains(us, open, base, st) && OnFrame(st, f.rec, f.bytes).Break?
    ensures var o := OnFrame(st, f.rec, f.bytes);
      Finished(o.state, o.stop) == ScanResult(Events(us), Systems(us), |Image(us)|, base + |Events(us)|, o.stop)
  {
    hide IsFrame, ParseBatchControl, Crc.Crc32c, FrameBytes, Image, Events, Systems, ValidUnits;
  }

  lemma {:induction false} ScanIsSound(rest: Bytes, st: ScanState, us: seq<Unit>, open: Open, base: nat) returns (vs: seq<Unit>)
    requires Explains(us, open, base, st) && ScanFrom(rest, st).Ok?
    ensures var r := ScanFrom(rest, st).value;
      && us <= vs && ValidUnits(vs, base)
      && r.records == Events(vs) && r.systems == Systems(vs)
      && r.nextOffset == base + |Events(vs)|
      && r.validBytes == |Image(vs)|
      && Image(vs) <= Image(us) + OpenBytes(open) + rest
    decreases |rest|
  {
    hide ValidUnits, Image, OnFrame, IsFrame, Events, Systems, DecodedFrame, FrameBytes, ParseBatchControl;
    vs := us;
    var whole := Image(us) + OpenBytes(open) + rest;
    assert Image(us) <= whole;
    var decoded := Decode(rest);
    if decoded.Ok? && decoded.value.Some? {
      var n := decoded.value.value.consumed;
      var f := Frame(rest[..n], decoded.value.value.record);
      FirstFrame(rest);
      var outcome := OnFrame(st, f.rec, f.bytes);
      if outcome.Break? {
        BreakKeepsBoundary(us, open, base, st, f);
      }
      if outcome.Continue? {
        var us', open' := ExtendExplanation(us, open, base, st, f);
        assert Image(us') + OpenBytes(open') + rest[n..] == whole by {
          assert f.bytes + rest[n..] == rest;
        }
        vs := ScanIsSound(rest[n..], outcome.state, us', open', base);
      }
    }
  }

  lemma NothingYet(base: nat)
    ensures Explains([], NoBatch, base, StartScan(base)) && Image([]) == [] && OpenBytes(NoBatch) == []
  {
  }

  /** An intact segment scans to all of its units. */
  lemma ScanOfImage(us: seq<Unit>, base: nat)
    requires ValidUnits(us, base)
    ensures Scan(Image(us), base) == Ok(ScanResult(Events(us), Systems(us), |Image(us)|, base + |Events(us)|, CleanEof))
  {
    hide ScanFrom, ValidUnits, Image, Events, Systems, AfterUnits;
    var st := StartScan(base);
    assert Image(us) + [] == Image(us);
    ConsumesUnits(st, us, []);
    AfterUnitsFields(st, us);
    StopsAtEnd(AfterUnits(st, us));
    assert [] + Events(us) == Events(us) && [] + Systems(us) == Systems(us);
  }

  /** NO WHOLE UNIT IS DROPPED: whatever follows the units of a segment, a scan that succeeds
      keeps them all. */
  lemma ScanKeepsWholeUnits(us: seq<Unit>, base: nat, tail: Bytes)
    requires ValidUnits(us, base) && Scan(Image(us) + tail, base).Ok?
    ensures var r := Scan(Image(us) + tail, base).value;
      r.validBytes >= |Image(us)| && Events(us) <= r.records && Systems(us) <= r.systems
  {
    hide ScanFrom, ValidUnits, Image, Events, Systems, AfterUnits;
    var st := StartScan(base);
    ConsumesUnits(st, us, tail);
    AfterUnitsFields(st, us);
    AllExplained(us, base);
    var vs := ScanIsSound(tail, AfterUnits(st, us), us, NoBatch, base);
    assert vs == us + vs[|us|..];
    ContentConcat(us, vs[|us|..]);
  }

  lemma AllExplained(us: seq<Unit>, base: nat)
    requires ValidUnits(us, base)
    ensures Explains(us, NoBatch, base, AfterUnits(StartScan(base), us))
  {
    hide ValidUnits, Image, Events, Systems, AfterUnits;
    AfterUnitsFields(StartScan(base), us);
    assert [] + Events(us) == Events(us) && [] + Systems(us) == Systems(us);
  }

  /** Recovery is a fixpoint: rescanning what was kept keeps all of it, cleanly. The
      kept bytes are a sequence of whole committed units, so no event of an
      uncommitted batch is returned and positions are dense from the base. */
  lemma RecoveryIsFixpoint(buf: Bytes, base: nat) returns (us: seq<Unit>)
    requires Scan(buf, base).Ok?
    ensures var r := Scan(buf, base).value;
      && r.validBytes <= |buf|
      && ValidUnits(us, base) && buf[..r.validBytes] == Image(us)
      && r.records == Events(us) && r.systems == Systems(us)
      && (forall i :: 0 <= i < |r.records| ==> r.records[i].position == base + i)
      && r.nextOffset == base + |r.records|
      && Scan(buf[..r.validBytes], base) == Ok(r.(stop := CleanEof))
  {
    hide ScanFrom, ValidUnits;
    var st := StartScan(base);
    NothingYet(base);
    assert [] + buf == buf;
    us := ScanIsSound(buf, st, [], NoBatch, base);
    var r := Scan(buf, base).value;
    assert buf[..|Image(us)|] == Image(us);
    EventsAreDense(us, base);
    ScanOfImage(us, base);
  }
}
