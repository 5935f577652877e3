/** Reading segments that may hold anything: silence means that every segment was whole, and
    a changed byte is never passed over. */
module Damage {
  import opened Base
  import opened Format
  import opened FormatLaws
  import opened RecordWalk
  import opened RecordWalkLaws
  import opened Continuity
  import opened ReadPlan
  import opened Sidecar
  import opened ReadEvidence
  import opened StreamingReader

  ghost predicate AnyDamaged(f: Filter, ps: seq<Planned>, sidecars: map<nat, Sidecar>) {
    exists i, entry :: 0 <= i < |ps| && EntryOf(f, ps[i], sidecars, entry) && Damaged(ps[i], entry, f.digests)
  }

  /** A full read of any segments with any sidecars. An error means that a segment is damaged;
      without one, the records are the selection of the frames that were passed, each segment
      left behind being whole or skipped on its sidecar's word. */
  method ReadSegments(f: Filter, ps: seq<Planned>, head: nat, sidecars: map<nat, Sidecar>) returns (r: Result<seq<Record>>, ghost t: Trace)
    requires f.selector.Valid()
    ensures r.Err? ==> AnyDamaged(f, ps, sidecars)
    ensures r.Ok? ==> ReadToEnd(f, ps, sidecars, t) && r.value == t.given
  {
    hide LogReader.Pending, InStep, Traced, EntryOf, Damaged;
    var reader := new LogReader(f, ps, head, sidecars, []);
    r := Drain(reader);
    t := reader.trace;
    if r.Ok? {
      EndOfTrace(reader);
    }
  }

  /** A finished trace of these segments. */
  ghost predicate ReadToEnd(f: Filter, ps: seq<Planned>, sidecars: map<nat, Sidecar>, t: Trace)
    requires f.selector.Valid()
  {
    exists segIdx, rest, c, yielded :: Traced(f, ps, sidecars, t, segIdx, rest, c, yielded, true)
  }

  lemma EndOfTrace(reader: LogReader)
    requires reader.Valid() && reader.finished
    ensures ReadToEnd(reader.filter, reader.segments, reader.sidecars, reader.trace)
  {
    hide Traced, InStep;
  }

  /** SILENCE MEANS WHOLE: a read without an error, a limit or an event past its window has
      read every segment that has no sidecar through, and its bytes are exactly frames that
      continue each other up to the recorded end. */
  lemma SilenceMeansWhole(f: Filter, ps: seq<Planned>, sidecars: map<nat, Sidecar>, t: Trace, i: nat) returns (fs: seq<Frame>)
    requires f.selector.Valid() && ReadToEnd(f, ps, sidecars, t) && f.maxEvents.None? && NonePast(f, SeenBy(t))
    requires i < |ps| && ps[i].base !in sidecars
    ensures |t.passed| == |ps| && t.passed[i] == Through((ps[i].base, 0), fs)
    ensures WholeFrom(ps[i], (ps[i].base, 0), fs, f.digests)
    ensures ps[i].closed ==> ps[i].bytes == FrameBytes(fs)
  {
    hide WholeFrom, Selected, NonePast, Underway;
    var segIdx, rest, c, yielded :| Traced(f, ps, sidecars, t, segIdx, rest, c, yielded, true);
    assert PassageHolds(f, ps[i], sidecars, t.passed[i]);
    fs := t.passed[i].frames;
    WholeBytes(ps[i], fs, f.digests);
  }

  lemma WholeBytes(p: Planned, fs: seq<Frame>, digests: bool)
    requires WholeFrom(p, (p.base, 0), fs, digests)
    ensures p.closed ==> p.bytes == FrameBytes(fs)
  {
    hide FrameBytes, Followed, AllFrames;
    assert p.bytes[0..] == p.bytes;
    if p.closed {
      assert p.bytes == FrameBytes(fs) + p.bytes[|FrameBytes(fs)|..];
    }
  }

  /** SILENCE MEANS EVERYTHING: without sidecars, such a read yields exactly the selection of
      the frames that make up the segments. */
  lemma SilenceMeansEverything(f: Filter, ps: seq<Planned>, t: Trace) returns (fss: seq<seq<Frame>>)
    requires f.selector.Valid() && ReadToEnd(f, ps, map[], t) && f.maxEvents.None? && NonePast(f, SeenBy(t))
    ensures |fss| == |ps| && forall i :: 0 <= i < |ps| ==> WholeFrom(ps[i], (ps[i].base, 0), fss[i], f.digests)
    ensures t.given == Selected(f, AllRecords(fss))
  {
    hide WholeFrom, Selected, Underway, EntryOf;
    var segIdx, rest, c, yielded :| Traced(f, ps, map[], t, segIdx, rest, c, yielded, true);
    assert |t.passed| == |ps|;
    forall i | 0 <= i < |ps| ensures t.passed[i].Through? {
      assert PassageHolds(f, ps[i], map[], t.passed[i]);
    }
    fss := seq(|ps|, i requires 0 <= i < |ps| => t.passed[i].frames);
    forall i | 0 <= i < |ps| ensures WholeFrom(ps[i], (ps[i].base, 0), fss[i], f.digests) {
      var fs := SilenceMeansWhole(f, ps, map[], t, i);
    }
    PassedIsAll(t.passed, fss);
    assert t.read == [] && RecordsPassed(t.passed) + Records([]) == RecordsPassed(t.passed);
  }

  lemma {:induction false} PassedIsAll(passed: seq<Passage>, fss: seq<seq<Frame>>)
    requires |passed| == |fss| && forall i :: 0 <= i < |passed| ==> passed[i].Through? && passed[i].frames == fss[i]
    ensures RecordsPassed(passed) == AllRecords(fss)
    decreases |passed|
  {
    hide Records;
    if passed != [] {
      var n := |passed| - 1;
      PassedIsAll(passed[..n], fss[..n]);
      AllRecordsSnoc(fss[..n], fss[n]);
      assert fss == fss[..n] + [fss[n]];
    }
  }

  lemma {:induction false} AllRecordsSnoc(fss: seq<seq<Frame>>, fs: seq<Frame>)
    ensures AllRecords(fss + [fs]) == AllRecords(fss) + Records(fs)
    decreases |fss|
  {
    hide Records;
    if fss == [] {
      assert [fs][1..] == [] && [] + [fs] == [fs];
      assert AllRecords([fs]) == Records(fs) + [];
    } else {
      assert (fss + [fs])[1..] == fss[1..] + [fs];
      AllRecordsSnoc(fss[1..], fs);
    }
  }

  /** CHECKED AGAINST DIGESTS: with batch digests on, a whole closed segment is whole valid
      units, each batch under its digest, and at most the beginning of one more batch. */
  lemma WholeIsUnits(p: Planned, fs: seq<Frame>) returns (us: seq<Unit>, tail: seq<Frame>)
    requires p.closed && WholeFrom(p, (p.base, 0), fs, true)
    ensures fs == Frames(us) + tail && ValidUnits(us, p.base) && p.end <= p.base + |Events(us)|
    ensures p.bytes == Image(us) + FrameBytes(tail)
    ensures tail != [] ==> tail[0].rec.kind == BatchBegin && forall i :: 1 <= i < |tail| ==> tail[i].rec.kind == Event
  {
    hide FrameBytes, Followed, AllFrames, ValidUnits, Image, Events, Frames;
    us, tail := AcceptedIsUnits(p.base, fs);
    WholeBytes(p, fs, true);
    FrameBytesConcat(Frames(us), tail);
    FramesOfUnits(us);
    OpenTail(Followed(Cont(p.base, None), fs, true).value, tail, p.base + |Events(us)|);
  }

  lemma OpenTail(c: Cont, tail: seq<Frame>, next: nat)
    requires InsideBatch(c, tail, next)
    ensures tail != [] ==> tail[0].rec.kind == BatchBegin && forall i :: 1 <= i < |tail| ==> tail[i].rec.kind == Event
    ensures c.expected == next
  {
    hide IsFrame, ParseBatchControl, FrameBytes;
    forall i | 1 <= i < |tail| ensures tail[i].rec.kind == Event {
      assert tail[i] == tail[1..][i - 1];
    }
  }

  // ── a changed byte ─────────────────────────────────────────────────────

  /** A CHANGED BYTE IS DAMAGE: take a segment of whole frames and change any one byte of one
      of them, its length fields apart; read from its base, the segment is damaged. */
  lemma ChangedByteIsDamage(p: Planned, fs: seq<Frame>, k: nat, i: nat, x: byte, digests: bool)
    requires AllFrames(fs) && p.bytes == FrameBytes(fs) && k < |fs| && Followed(Cont(p.base, None), fs, digests).Ok?
    requires i < |fs[k].bytes| && fs[k].bytes[i] != x && !(8 <= i < 16)
    ensures |FrameBytes(fs[..k])| + i < |p.bytes| && p.bytes[|FrameBytes(fs[..k])| + i] == fs[k].bytes[i]
    ensures Damaged(p.(bytes := p.bytes[|FrameBytes(fs[..k])| + i := x]), (p.base, 0), digests)
  {
    hide FrameBytes, IsFrame, Followed, Damaged, Stuck, Advance;
    var read, f, tail := fs[..k], fs[k], FrameBytes(fs[k + 1..]);
    var at := |FrameBytes(read)| + i;
    var other := f.bytes[i := x];
    SplitAt(fs, k);
    assert p.bytes == FrameBytes(read) + (f.bytes + tail);
    assert p.bytes[at] == (f.bytes + tail)[i] == f.bytes[i];
    var q := p.(bytes := p.bytes[at := x]);
    assert q.bytes == FrameBytes(read) + (other + tail);
    assert q.bytes[0..] == q.bytes;
    FollowedPrefix(Cont(p.base, None), fs, k, digests);
    var c := Followed(Cont(p.base, None), read, digests).value;
    assert Underway(q, (p.base, 0), read, other + tail, c, digests);
    ChangedFrame(q, f, i, x, tail, c, digests);
    StuckMeansDamaged(q, (p.base, 0), read, other + tail, c, digests);
  }

  lemma SplitAt(fs: seq<Frame>, k: nat)
    requires k < |fs|
    ensures FrameBytes(fs) == FrameBytes(fs[..k]) + (fs[k].bytes + FrameBytes(fs[k + 1..]))
  {
    hide FrameBytes;
    assert fs == fs[..k] + fs[k..];
    FrameBytesConcat(fs[..k], fs[k..]);
    FrameBytesOfSome(fs[k..]);
    assert fs[k..][1..] == fs[k + 1..];
  }

  lemma ChangedFrame(p: Planned, f: Frame, i: nat, x: byte, tail: Bytes, c: Cont, digests: bool)
    requires IsFrame(f) && i < |f.bytes| && f.bytes[i] != x && !(8 <= i < 16)
    ensures Stuck(p, f.bytes[i := x] + tail, c, digests)
  {
    hide DecodedFrame, FrameTotalLen, Advance;
    var other := f.bytes[i := x];
    assert other[..i] == f.bytes[..i] && other[i + 1..] == f.bytes[i + 1..];
    DamagedByteIsRefused(f.bytes, other, i, tail, DEFAULT_LIMITS);
  }

  /** So a full read meets it: without sidecars, limits or a window that ends before, it does
      not come back without an error. */
  lemma ChangedByteIsNoticed(f: Filter, ps: seq<Planned>, j: nat, p: Planned, fs: seq<Frame>, k: nat, i: nat, x: byte, t: Trace)
    requires f.selector.Valid() && f.maxEvents.None? && NonePast(f, SeenBy(t))
    requires j < |ps| && AllFrames(fs) && p.bytes == FrameBytes(fs) && k < |fs| && Followed(Cont(p.base, None), fs, f.digests).Ok?
    requires i < |fs[k].bytes| && fs[k].bytes[i] != x && !(8 <= i < 16)
    requires |FrameBytes(fs[..k])| + i < |p.bytes| && ps[j] == p.(bytes := p.bytes[|FrameBytes(fs[..k])| + i := x])
    ensures !ReadToEnd(f, ps, map[], t)
  {
    hide FrameBytes, IsFrame, Followed, WholeFrom, NonePast, ReadToEnd;
    ChangedByteIsDamage(p, fs, k, i, x, f.digests);
    if ReadToEnd(f, ps, map[], t) {
      var found := SilenceMeansWhole(f, ps, map[], t, j);
    }
  }
}
