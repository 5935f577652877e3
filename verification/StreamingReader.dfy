/** The bounded-memory reader: it skips whole segments on a sidecar's word, seeks within
    them, checks continuity frame by frame and filters. On an intact log it yields what
    the reference selection yields, whichever sidecars are present. */
module StreamingReader {
  import opened Base
  import opened Format
  import opened RecordWalk
  import opened RecordWalkLaws
  import opened Continuity
  import opened SegmentCursor
  import opened ReadPlan
  import opened Sidecar
  import opened ReadEvidence
  import Crc

  ghost predicate IntactSegment(p: Planned, fs: seq<Frame>) {
    && p.bytes == FrameBytes(fs)
    && Clean(Cont(p.base, None), fs, false, p.end) && Clean(Cont(p.base, None), fs, true, p.end)
  }

  ghost predicate Intact(ps: seq<Planned>, fss: seq<seq<Frame>>) {
    && |ps| == |fss|
    && (forall i :: 0 <= i < |ps| ==> IntactSegment(ps[i], fss[i]))
    && (forall i, j :: 0 <= i < j < |ps| ==> ps[i].end <= ps[j].base)
  }

  ghost predicate SoundSidecars(ps: seq<Planned>, fss: seq<seq<Frame>>, sidecars: map<nat, Sidecar>)
    requires |ps| == |fss|
  {
    forall i :: 0 <= i < |ps| && ps[i].base in sidecars ==> Sound(sidecars[ps[i].base], ps[i].base, ps[i].end, fss[i])
  }

  function AllRecords(fss: seq<seq<Frame>>): seq<Record> {
    if fss == [] then [] else Records(fss[0]) + AllRecords(fss[1..])
  }

  /** System reads take no position window: the one caller asks for the whole log. */
  predicate WholeIfSystem(f: Filter, ps: seq<Planned>) {
    f.kinds == SystemOnly ==> f.from == 0 && forall p :: p in ps ==> p.end <= f.until
  }

  // ── what may be left out of a selection ────────────────────────────────

  /** A prefix in which nothing passes, below everything after it, can be dropped. */
  lemma DropPrefix(f: Filter, a: seq<Record>, b: seq<Record>, bound: nat)
    requires f.selector.Valid() && forall r :: r in a ==> !Passes(f, r)
    requires forall r :: r in a && r.kind == Event ==> r.position < bound
    requires forall r :: r in b && r.kind == Event ==> r.position >= bound
    requires f.kinds == SystemOnly ==> forall r :: r in a ==> !PastEnd(f, r)
    ensures Selected(f, a + b) == Selected(f, b)
  {
    NothingSelected(f, a, b);
    if r :| r in a && PastEnd(f, r) {
      NoneBefore(f, b);
    }
  }

  lemma {:induction false} NoneBefore(f: Filter, b: seq<Record>)
    requires f.selector.Valid() && f.kinds == UserEvents
    requires forall r :: r in b && r.kind == Event ==> PastEnd(f, r)
    ensures Selected(f, b) == []
    decreases |b|
  {
    if b != [] {
      assert b[0] in b;
      NoneBefore(f, b[1..]);
    }
  }

  lemma RecordIn(fs: seq<Frame>, r: Record)
    requires r in Records(fs)
    ensures exists f :: f in fs && f.rec == r
  {
    var i :| 0 <= i < |Records(fs)| && Records(fs)[i] == r;
    assert fs[i] in fs;
  }

  /** Events of later segments lie at or above the end of the earlier ones. */
  lemma {:induction false} LaterEventsAbove(ps: seq<Planned>, fss: seq<seq<Frame>>, bound: nat)
    requires Intact(ps, fss) && forall p :: p in ps ==> bound <= p.base
    ensures forall r :: r in AllRecords(fss) && r.kind == Event ==> r.position >= bound
    decreases |ps|
  {
    hide Clean;
    if ps != [] {
      assert Intact(ps[1..], fss[1..]) && ps[0] in ps;
      LaterEventsAbove(ps[1..], fss[1..], bound);
      SegmentEvents(ps[0], fss[0]);
    }
  }

  lemma SegmentEvents(p: Planned, fs: seq<Frame>)
    requires IntactSegment(p, fs)
    ensures forall r :: r in Records(fs) && r.kind == Event ==> p.base <= r.position < p.end
    ensures p.base <= p.end
  {
    CleanIsDense(Cont(p.base, None), fs, false, p.end);
    forall r | r in Records(fs) && r.kind == Event ensures p.base <= r.position < p.end {
      RecordIn(fs, r);
    }
  }

  /** A skipped segment contributes nothing. */
  lemma SkipDrops(f: Filter, seg: Planned, s: Sidecar, fs: seq<Frame>, rest: seq<Record>)
    requires f.selector.Valid() && IntactSegment(seg, fs) && Sound(s, seg.base, seg.end, fs) && Skippable(f, s)
    requires forall r :: r in rest && r.kind == Event ==> r.position >= seg.end
    requires f.kinds == SystemOnly ==> seg.end <= f.until
    ensures Selected(f, Records(fs) + rest) == Selected(f, rest)
  {
    hide Clean, Skippable, Passes, FrameBytes, Selected, SoundSeek, Summary;
    SkipIsSound(f, s, fs);
    SegmentEvents(seg, fs);
    forall r | r in Records(fs) ensures !Passes(f, r) {
      RecordIn(fs, r);
    }
    DropPrefix(f, Records(fs), rest, seg.end);
  }

  lemma BelowSeek(f: Filter, fs: seq<Frame>, k: nat, position: nat)
    requires f.selector.Valid() && f.kinds == UserEvents && k <= |fs| && position <= f.from
    requires forall x :: x in fs[..k] && x.rec.kind == Event ==> x.rec.position < position
    ensures forall r :: r in Records(fs[..k]) ==> !Passes(f, r) && (r.kind == Event ==> r.position < position)
  {
    forall r | r in Records(fs[..k]) ensures !Passes(f, r) && (r.kind == Event ==> r.position < position) {
      RecordIn(fs[..k], r);
    }
  }

  lemma RecordsSplit(fs: seq<Frame>, k: nat)
    requires k <= |fs|
    ensures Records(fs) == Records(fs[..k]) + Records(fs[k..])
  {
  }

  /** Dropping the frames before a seek point at or below the window's start loses nothing. */
  lemma SeekSelects(f: Filter, fs: seq<Frame>, k: nat, position: nat, end: nat, rest: seq<Record>)
    requires f.selector.Valid() && f.kinds == UserEvents && k <= |fs| && position <= f.from
    requires forall x :: x in fs[..k] && x.rec.kind == Event ==> x.rec.position < position
    requires Clean(Cont(position, None), fs[k..], false, end)
    requires forall r :: r in rest && r.kind == Event ==> r.position >= end
    ensures Selected(f, Records(fs) + rest) == Selected(f, Records(fs[k..]) + rest)
  {
    hide Clean, Selected, PastEnd, Passes, Advance, IsFrame, Records;
    RecordsSplit(fs, k);
    CleanIsDense(Cont(position, None), fs[k..], false, end);
    assert Records(fs) + rest == Records(fs[..k]) + (Records(fs[k..]) + rest);
    BelowSeek(f, fs, k, position);
    forall r | r in Records(fs[k..]) + rest && r.kind == Event ensures r.position >= position {
      if r in Records(fs[k..]) {
        RecordIn(fs[k..], r);
      }
    }
    DropPrefix(f, Records(fs[..k]), Records(fs[k..]) + rest, position);
  }

  /** Entering at a seek point: the bytes, the machine and the selection all line up. */
  lemma SeekDrops(f: Filter, seg: Planned, s: Sidecar, point: (nat, nat), fs: seq<Frame>, rest: seq<Record>) returns (k: nat)
    requires f.selector.Valid() && f.kinds == UserEvents && IntactSegment(seg, fs) && Sound(s, seg.base, seg.end, fs)
    requires point in s.seekPoints && point.0 <= f.from
    requires forall r :: r in rest && r.kind == Event ==> r.position >= seg.end
    ensures k <= |fs| && point.1 <= |seg.bytes| && seg.bytes[point.1..] == FrameBytes(fs[k..])
    ensures Clean(Cont(point.0, None), fs[k..], f.digests, seg.end)
    ensures Selected(f, Records(fs) + rest) == Selected(f, Records(fs[k..]) + rest)
  {
    hide Clean, FrameBytes, Selected, Counts, AllPositive, Records, Passes;
    var i :| 0 <= i < |s.seekPoints| && s.seekPoints[i] == point;
    assert SoundSeek(point, fs, seg.end);
    k :| 0 <= k <= |fs| && SeekAt(point, fs, seg.end, k);
    assert fs == fs[..k] + fs[k..];
    FrameBytesConcat(fs[..k], fs[k..]);
    SeekSelects(f, fs, k, point.0, seg.end, rest);
  }

  datatype Progress = More | Hit(record: Record) | SegmentEnd | Stopped

  /** The segments hold exactly `fss`, every sidecar present is sound, and `head` bounds both. */
  ghost predicate IntactPlan(f: Filter, ps: seq<Planned>, head: nat, sidecars: map<nat, Sidecar>, fss: seq<seq<Frame>>) {
    && Intact(ps, fss) && SoundSidecars(ps, fss, sidecars) && WholeIfSystem(f, ps)
    && forall p :: p in ps ==> p.end <= head
  }

  /** Nothing below the continuation is still to come, except what the window excludes. */
  ghost predicate AheadOf(f: Filter, rs: seq<Record>, continuation: nat, head: nat) {
    && (forall r :: r in rs && r.kind == Event ==> r.position >= continuation || r.position < f.from)
    && f.from <= continuation <= Max(f.from, Min(f.until, head))
  }

  lemma AheadOfFewer(f: Filter, rs: seq<Record>, fewer: seq<Record>, continuation: nat, head: nat)
    requires AheadOf(f, rs, continuation, head) && forall r :: r in fewer ==> r in rs
    ensures AheadOf(f, fewer, continuation, head)
  {
  }

  lemma AheadOfTail(f: Filter, fs: seq<Frame>, k: nat, rest: seq<Record>, continuation: nat, head: nat)
    requires AheadOf(f, Records(fs) + rest, continuation, head) && k <= |fs|
    ensures AheadOf(f, rest, continuation, head) && AheadOf(f, Records(fs[k..]) + rest, continuation, head)
  {
    hide AheadOf, Records;
    TailRecords(fs, k);
    AheadOfFewer(f, Records(fs) + rest, rest, continuation, head);
    AheadOfFewer(f, Records(fs) + rest, Records(fs[k..]) + rest, continuation, head);
  }

  function Continued(f: Filter, continuation: nat, rec: Record): nat {
    if PastEnd(f, rec) then Max(continuation, f.until)
    else if rec.kind == Event then Max(continuation, rec.position + 1)
    else continuation
  }

  lemma AheadAfter(f: Filter, rs: seq<Record>, rec: Record, rest: seq<Record>, continuation: nat, head: nat)
    requires f.selector.Valid() && AheadOf(f, rs, continuation, head) && rs == [rec] + rest
    requires rec.kind == Event ==> rec.position < head && forall r :: r in rest && r.kind == Event ==> r.position > rec.position
    ensures AheadOf(f, rest, Continued(f, continuation, rec), head)
    ensures rec.kind == Event && !PastEnd(f, rec) && Passes(f, rec) ==> Continued(f, continuation, rec) == rec.position + 1
  {
    assert rs[0] == rec;
    forall r | r in rest ensures r in rs {
      var i :| 0 <= i < |rest| && rest[i] == r;
      assert rs[i + 1] == r;
    }
  }

  lemma Upcoming(f: Filter, ps: seq<Planned>, head: nat, sidecars: map<nat, Sidecar>, fss: seq<seq<Frame>>, i: nat)
    requires IntactPlan(f, ps, head, sidecars, fss) && i < |ps|
    ensures IntactSegment(ps[i], fss[i]) && ps[i].end <= head
    ensures AllRecords(fss[i..]) == Records(fss[i]) + AllRecords(fss[i + 1..])
    ensures forall r :: r in AllRecords(fss[i + 1..]) && r.kind == Event ==> r.position >= ps[i].end
    ensures f.kinds == SystemOnly ==> ps[i].end <= f.until && f.from == 0
    ensures ps[i].base in sidecars ==> Sound(sidecars[ps[i].base], ps[i].base, ps[i].end, fss[i])
  {
    hide Clean, FrameBytes, Sound, IntactSegment;
    assert fss[i..][0] == fss[i] && fss[i..][1..] == fss[i + 1..];
    var end := ps[i].end;
    forall p | p in ps[i + 1..] ensures end <= p.base {
      var j :| 0 <= j < |ps[i + 1..]| && ps[i + 1..][j] == p;
      assert ps[i + 1 + j] == p;
    }
    assert ps[i] in ps;
    LaterEventsAbove(ps[i + 1..], fss[i + 1..], end);
  }

  /** How one frame moves the pending selection on. */
  predicate Yields(p: Progress, before: seq<Record>, after: seq<Record>) {
    match p
    case Hit(rec) => before == [rec] + after
    case Stopped => before == []
    case More => before == after
    case SegmentEnd => before == after
  }

  /** What a frame adds to what was yielded. */
  function Hits(p: Progress): seq<Record> {
    match p
    case Hit(rec) => [rec]
    case _ => []
  }

  /** On an intact log, what is left and to come of the frames known to be there. */
  ghost predicate InStep(f: Filter, ps: seq<Planned>, head: nat, sidecars: map<nat, Sidecar>, fss: seq<seq<Frame>>,
                         segIdx: nat, rest: Option<Bytes>, c: Cont, left: seq<Frame>, toCome: seq<Record>, continuation: nat) {
    && segIdx <= |ps| == |fss| && IntactPlan(f, ps, head, sidecars, fss)
    && (rest.None? ==> left == [])
    && (rest.Some? ==> segIdx >= 1 && rest.value == FrameBytes(left) && Clean(c, left, f.digests, ps[segIdx - 1].end))
    && toCome == Records(left) + AllRecords(fss[segIdx..])
    && AheadOf(f, toCome, continuation, head)
  }

  lemma StartsInStep(f: Filter, ps: seq<Planned>, head: nat, sidecars: map<nat, Sidecar>, fss: seq<seq<Frame>>)
    requires IntactPlan(f, ps, head, sidecars, fss)
    ensures forall c: Cont :: InStep(f, ps, head, sidecars, fss, 0, None, c, [], AllRecords(fss), f.from)
  {
    hide IntactSegment, Sound;
    assert fss[0..] == fss;
    assert Records([]) + AllRecords(fss) == AllRecords(fss);
  }

  /** An intact segment ahead of the reader, and what follows it. */
  ghost predicate Ahead(f: Filter, p: Planned, sidecars: map<nat, Sidecar>, fs: seq<Frame>, rest: seq<Record>) {
    && IntactSegment(p, fs) && (forall r :: r in rest && r.kind == Event ==> r.position >= p.end)
    && (f.kinds == SystemOnly ==> p.end <= f.until && f.from == 0)
    && (p.base in sidecars ==> Sound(sidecars[p.base], p.base, p.end, fs))
  }

  /** The next segment of an intact log: what is in it, and what skipping it leaves. */
  lemma UpcomingInStep(f: Filter, ps: seq<Planned>, head: nat, sidecars: map<nat, Sidecar>, fss: seq<seq<Frame>>,
                       segIdx: nat, c: Cont, left: seq<Frame>, toCome: seq<Record>, continuation: nat, next: Cont)
    requires InStep(f, ps, head, sidecars, fss, segIdx, None, c, left, toCome, continuation) && segIdx < |ps|
    ensures |fss| == |ps|
    ensures var p, fs, rest := ps[segIdx], fss[segIdx], AllRecords(fss[segIdx + 1..]);
      && Ahead(f, p, sidecars, fs, rest)
      && toCome == Records(fs) + rest
      && InStep(f, ps, head, sidecars, fss, segIdx + 1, None, next, [], rest, continuation)
  {
    hide Clean, FrameBytes, Sound, IntactSegment, IntactPlan, AllRecords, Records, AheadOf;
    var fs, rest := fss[segIdx], AllRecords(fss[segIdx + 1..]);
    Upcoming(f, ps, head, sidecars, fss, segIdx);
    NoRecords(rest);
    NoRecords(Records(fs) + rest);
    AheadOfTail(f, fs, |fs|, rest, continuation, head);
  }

  lemma EnterInStep(f: Filter, ps: seq<Planned>, head: nat, sidecars: map<nat, Sidecar>, fss: seq<seq<Frame>>,
                    segIdx: nat, c: Cont, left: seq<Frame>, toCome: seq<Record>, continuation: nat, entry: (nat, nat), k: nat)
    requires InStep(f, ps, head, sidecars, fss, segIdx, None, c, left, toCome, continuation) && segIdx < |ps| == |fss|
    requires k <= |fss[segIdx]| && FromEntry(ps[segIdx], entry) == FrameBytes(fss[segIdx][k..])
    requires Clean(Cont(entry.0, None), fss[segIdx][k..], f.digests, ps[segIdx].end)
    ensures InStep(f, ps, head, sidecars, fss, segIdx + 1, Some(FromEntry(ps[segIdx], entry)), Cont(entry.0, None),
                   fss[segIdx][k..], Records(fss[segIdx][k..]) + AllRecords(fss[segIdx + 1..]), continuation)
  {
    hide Clean, FrameBytes, Sound, IntactSegment, IntactPlan, AllRecords, Records, AheadOf;
    var fs, rest := fss[segIdx], AllRecords(fss[segIdx + 1..]);
    UpcomingInStep(f, ps, head, sidecars, fss, segIdx, c, left, toCome, continuation, c);
    AheadOfTail(f, fs, k, rest, continuation, head);
  }

  /** At the front of an intact segment there is its next frame, or its end. */
  lemma PeekInStep(f: Filter, ps: seq<Planned>, head: nat, sidecars: map<nat, Sidecar>, fss: seq<seq<Frame>>,
                   segIdx: nat, peek: Peek, rest: Bytes, c: Cont, left: seq<Frame>, toCome: seq<Record>, continuation: nat)
    requires InStep(f, ps, head, sidecars, fss, segIdx, Some(rest), c, left, toCome, continuation) && Peeked(peek, rest)
    ensures left == [] ==> peek == AtEnd(0) && c == Cont(ps[segIdx - 1].end, None)
    ensures left != [] ==> peek == Found(left[0].rec, left[0].bytes)
  {
    hide FrameBytes, IntactPlan, AllRecords, Records, AheadOf, Peeked, IsFrame, Advance;
    PeekOfFrames(peek, rest, left);
  }

  lemma LeaveInStep(f: Filter, ps: seq<Planned>, head: nat, sidecars: map<nat, Sidecar>, fss: seq<seq<Frame>>,
                    segIdx: nat, rest: Option<Bytes>, c: Cont, left: seq<Frame>, toCome: seq<Record>, continuation: nat)
    requires InStep(f, ps, head, sidecars, fss, segIdx, rest, c, left, toCome, continuation) && left == []
    ensures InStep(f, ps, head, sidecars, fss, segIdx, None, c, left, toCome, continuation)
  {
    hide FrameBytes, IntactPlan, AllRecords, Records, AheadOf, Clean;
  }

  lemma FrontInStep(f: Filter, ps: seq<Planned>, head: nat, sidecars: map<nat, Sidecar>, fss: seq<seq<Frame>>,
                    segIdx: nat, rest: Bytes, c: Cont, left: seq<Frame>, toCome: seq<Record>, continuation: nat)
    requires f.selector.Valid() && InStep(f, ps, head, sidecars, fss, segIdx, Some(rest), c, left, toCome, continuation) && left != []
    ensures Advance(c, left[0], f.digests).Ok? && |left[0].bytes| <= |rest| && segIdx <= |fss|
    ensures var x, after := left[0], Records(left[1..]) + AllRecords(fss[segIdx..]);
      && InStep(f, ps, head, sidecars, fss, segIdx, Some(rest[|x.bytes|..]), Advance(c, x, f.digests).value, left[1..], after,
                Continued(f, continuation, x.rec))
      && Yields(Verdict(f, x.rec), Selected(f, toCome), Selected(f, after))
      && (Verdict(f, x.rec).Hit? && Verdict(f, x.rec).record.kind == Event ==>
            Continued(f, continuation, x.rec) == Verdict(f, x.rec).record.position + 1)
  {
    hide Clean, FrameBytes, Selected, Passes, IntactPlan, AllRecords, Records, Advance, AheadOf, Yields, Continued, Sound, IntactSegment;
    Upcoming(f, ps, head, sidecars, fss, segIdx - 1);
    FrontStep(f, c, left, ps[segIdx - 1].end, AllRecords(fss[segIdx..]), continuation, head);
  }

  lemma EndInStep(f: Filter, ps: seq<Planned>, head: nat, sidecars: map<nat, Sidecar>, fss: seq<seq<Frame>>,
                  segIdx: nat, c: Cont, left: seq<Frame>, toCome: seq<Record>, continuation: nat)
    requires f.selector.Valid() && InStep(f, ps, head, sidecars, fss, segIdx, None, c, left, toCome, continuation) && segIdx == |ps|
    ensures Selected(f, toCome) == []
    ensures InStep(f, ps, head, sidecars, fss, segIdx, None, c, left, toCome, Max(continuation, Min(f.until, head)))
  {
    hide IntactPlan, AllRecords, Records, AheadOf, Selected;
    NothingLeft(f, fss, segIdx, continuation, head);
  }

  class LogReader {
    const filter: Filter
    const segments: seq<Planned>
    const head: nat
    /** The sidecars that happen to be available, by segment base. */
    const sidecars: map<nat, Sidecar>
    var segIdx: nat
    var cursor: SegmentCursor?
    var expected: nat
    var batch: Option<BatchTrack>
    var yielded: nat
    var continuation: nat
    var finished: bool
    ghost const frames: seq<seq<Frame>>
    /** The segments hold exactly `frames` and the sidecars are sound. */
    ghost const intact: bool
    /** The frames of the open segment that are not consumed yet. */
    ghost var left: seq<Frame>
    /** The records of `left` and of every segment not entered yet. */
    ghost var toCome: seq<Record>
    /** What was read so far, whatever the segments hold. */
    ghost var trace: Trace

    ghost function Rest(): Option<Bytes>
      reads this, cursor
      requires cursor != null ==> cursor.Valid()
    {
      if cursor == null then None else Some(cursor.Remaining())
    }

    /** Some segment is damaged, read from where this reader may enter it. */
    ghost predicate Broken() {
      exists i, entry :: 0 <= i < |segments| && EntryOf(filter, segments[i], sidecars, entry) && Damaged(segments[i], entry, filter.digests)
    }

    /** How much of the open segment is left. */
    ghost function Unread(): nat
      reads this, cursor
      requires cursor != null ==> cursor.Valid()
    {
      if cursor == null then 0 else |cursor.Remaining()| + 1
    }

    predicate MayYield()
      reads this
    {
      filter.maxEvents.Some? ==> yielded < filter.maxEvents.value
    }

    ghost predicate Valid()
      reads this, cursor
    {
      && filter.selector.Valid() && segIdx <= |segments|
      && (cursor != null ==> cursor.Valid() && segIdx >= 1)
      && Traced(filter, segments, sidecars, trace, segIdx, Rest(), Cont(expected, batch), yielded, finished)
      && (intact ==> InStep(filter, segments, head, sidecars, frames, segIdx, Rest(), Cont(expected, batch), left, toCome, continuation))
    }

    /** What the reader has still to yield. */
    ghost function Pending(): seq<Record>
      reads this
      requires filter.selector.Valid()
    {
      if finished then [] else Limited(Selected(filter, toCome), filter.maxEvents, yielded)
    }

    constructor (filter: Filter, segments: seq<Planned>, head: nat, sidecars: map<nat, Sidecar>, ghost frames: seq<seq<Frame>>)
      requires filter.selector.Valid()
      ensures Valid() && this.filter == filter && this.head == head && continuation == filter.from && cursor == null && !finished
      ensures this.segments == segments && this.sidecars == sidecars && trace == NO_TRACE
      ensures intact == IntactPlan(filter, segments, head, sidecars, frames)
      ensures intact ==> Pending() == Limited(Selected(filter, AllRecords(frames)), filter.maxEvents, 0)
    {
      this.filter, this.segments, this.head, this.sidecars := filter, segments, head, sidecars;
      segIdx, cursor, expected, batch := 0, null, 0, None;
      yielded, continuation, finished := 0, filter.from, false;
      this.frames, left, toCome, trace := frames, [], AllRecords(frames), NO_TRACE;
      intact := IntactPlan(filter, segments, head, sidecars, frames);
      new;
      TraceStarts(filter, segments, sidecars, Cont(0, None));
      if intact {
        StartsInStep(filter, segments, head, sidecars, frames);
      }
    }

    /** Enter the next segment that may hold something; false when none is left. */
    method EnterNextSegment() returns (entered: bool)
      requires Valid() && cursor == null && !finished
      modifies this`segIdx, this`cursor, this`expected, this`batch, this`left, this`toCome, this`trace
      ensures trace.given == old(trace.given)
      ensures Valid() && (cursor != null <==> entered) && (entered ==> fresh(cursor))
      ensures intact ==> Selected(filter, toCome) == old(Selected(filter, toCome))
      ensures segIdx >= old(segIdx) && (entered ==> segIdx > old(segIdx)) && (!entered ==> segIdx == |segments|)
    {
      hide Traced, InStep, Selected, Passes;
      entered := false;
      while segIdx < |segments| && !entered
        invariant Valid() && !finished && segIdx >= old(segIdx) && trace.given == old(trace.given)
        invariant (cursor != null <==> entered) && (entered ==> fresh(cursor) && segIdx > old(segIdx))
        invariant intact ==> Selected(filter, toCome) == old(Selected(filter, toCome))
        decreases |segments| - segIdx
      {
        entered := TryNext();
      }
    }

    /** Skip the next segment on its sidecar's word, or enter it. */
    method TryNext() returns (entered: bool)
      requires Valid() && cursor == null && !finished && segIdx < |segments|
      modifies this`segIdx, this`cursor, this`expected, this`batch, this`left, this`toCome, this`trace
      ensures Valid() && trace.given == old(trace.given) && segIdx == old(segIdx) + 1
      ensures (cursor != null <==> entered) && (entered ==> fresh(cursor))
      ensures intact ==> Selected(filter, toCome) == old(Selected(filter, toCome))
    {
      hide Clean, FrameBytes, Selected, Passes, Ahead, AllRecords, Records, Traced, PassageHolds, EntryOf, InStep;
      var seg := segments[segIdx];
      ghost var rest: seq<Record> := [];
      ghost var fs: seq<Frame> := [];
      if intact {
        UpcomingInStep(filter, segments, head, sidecars, frames, segIdx, Cont(expected, batch), left, toCome, continuation, Cont(expected, batch));
        rest, fs := AllRecords(frames[segIdx + 1..]), frames[segIdx];
      }
      var choice, k := ChooseEntry(filter, seg, sidecars, intact, fs, rest);
      if choice.Skip? {
        TraceSkips(filter, segments, sidecars, trace, segIdx, Cont(expected, batch), yielded, Cont(expected, batch));
        trace := trace.(passed := trace.passed + [Skipped]);
        segIdx, left, toCome := segIdx + 1, [], rest;
        return false;
      }
      TraceEnters(filter, segments, sidecars, trace, segIdx, Cont(expected, batch), yielded, choice.seek);
      if intact {
        EnterInStep(filter, segments, head, sidecars, frames, segIdx, Cont(expected, batch), left, toCome, continuation, choice.seek, k);
      }
      trace := trace.(entry := choice.seek);
      cursor := new SegmentCursor(seg.bytes, choice.seek.1);
      expected := choice.seek.0;
      batch := None;
      segIdx := segIdx + 1;
      left, toCome := fs[k..], Records(fs[k..]) + rest;
      return true;
    }

    /** The continuity machine, as the reader runs it on its own fields. */
    method CheckContinuity(rec: Record, bytes: Bytes) returns (r: Result<()>)
      modifies this`expected, this`batch
      ensures match Advance(Cont(old(expected), old(batch)), Frame(bytes, rec), filter.digests)
        case Ok(next) => r == Ok(()) && Cont(expected, batch) == next
        case Err(error) => r == Err(error)
    {
      hide ParseBatchControl, Crc.Crc32cAppend;
      match rec.kind {
      case BatchBegin =>
        if batch.Some? || rec.position != expected {
          return Err(Corrupt(rec.position));
        }
        var check: Option<DigestCheck> := None;
        if filter.digests {
          var control :- ParseBatchControl(rec.payload);
          check := Some(DigestCheck(control.0, control.1, 0));
        }
        batch := Some(BatchTrack(rec.position, rec.envelope.batchId, 0, check));
      case BatchCommit =>
        if batch.None? {
          return Err(Corrupt(rec.position));
        }
        var open := batch.value;
        batch := None;
        if rec.position != open.first || rec.envelope.batchId != open.batchId {
          return Err(Corrupt(rec.position));
        }
        if open.check.Some? {
          var control :- ParseBatchControl(rec.payload);
          var check := open.check.value;
          if control.0 != check.count || control.1 != check.digest || open.seen != check.count || check.running != check.digest {
            return Err(Corrupt(rec.position));
          }
        }
        if open.seen == 0 {
          return Err(Corrupt(rec.position));
        }
        expected := open.first + open.seen;
      case System =>
        if batch.Some? || rec.position != expected {
          return Err(Corrupt(rec.position));
        }
      case Event =>
        if batch.Some? {
          var open := batch.value;
          var slot := open.first + open.seen;
          if rec.position != slot || rec.envelope.batchId != open.batchId || rec.envelope.batchIndex != open.seen {
            return Err(Corrupt(rec.position));
          }
          var check := open.check;
          if check.Some? {
            check := Some(check.value.(running := Crc.Crc32cAppend(check.value.running, bytes)));
          }
          batch := Some(open.(check := check, seen := open.seen + 1));
        } else {
          if rec.position != expected {
            return Err(Corrupt(rec.position));
          }
          expected := expected + 1;
        }
      }
      return Ok(());
    }

    /** One frame of the open segment. */
    method StepFrame() returns (r: Result<Progress>)
      requires Valid() && cursor != null && !finished && MayYield()
      modifies this`cursor, this`expected, this`batch, this`yielded, this`continuation, this`finished, this`left, this`toCome, this`trace, cursor
      ensures r.Ok? ==> Valid() && (cursor == null || cursor == old(cursor))
      ensures r.Ok? ==> trace.given == old(trace.given) + Hits(r.value)
      ensures r.Err? ==> Broken()
      ensures intact ==> r.Ok?
      ensures r.Ok? ==> (finished <==> r.value.Stopped?) && (cursor == null <==> r.value.SegmentEnd?)
      ensures r.Ok? && (r.value.More? || r.value.Hit?) ==> |cursor.Remaining()| < old(|cursor.Remaining()|)
      ensures r.Ok? ==> yielded == old(yielded) + |Hits(r.value)|
      ensures intact ==> Yields(r.value, old(Selected(filter, toCome)), Selected(filter, toCome))
      ensures intact && r.value.Hit? && r.value.record.kind == Event ==> continuation == r.value.record.position + 1
      ensures continuation >= old(continuation)
      ensures intact && r.value.Stopped? ==> continuation >= filter.until
    {
      hide Selected, Passes, Traced, InStep, EndsWell, Stuck, Decode, Broken, Torn, Peeked;
      var segEnd, closed := segments[segIdx - 1].end, segments[segIdx - 1].closed;
      var peek := PeekFrame(cursor);
      if intact {
        PeekInStep(filter, segments, head, sidecars, frames, segIdx, peek, cursor.Remaining(), Cont(expected, batch), left, toCome, continuation);
      }
      PeekDecides(segments[segIdx - 1], peek, cursor.Remaining(), Cont(expected, batch), filter.digests);
      match peek {
        case AtEnd(leftover) =>
          if leftover != 0 && closed {
            GiveUp();
            return Err(Corrupt(expected));
          }
          if closed && expected < segEnd {
            GiveUp();
            return Err(Corrupt(expected));
          }
          Leave();
          return Ok(SegmentEnd);
        case MidFrame =>
          if closed {
            GiveUp();
            return Err(Corrupt(expected));
          }
          Leave();
          return Ok(SegmentEnd);
        case Bad(error) =>
          GiveUp();
          return Err(error);
        case Found(record, bytes) =>
          r := TakeFrame(record, bytes);
      }
    }

    /** The open segment is behind the reader. */
    method Leave()
      requires Valid() && cursor != null && !finished && (intact ==> left == [])
      requires EndsWell(segments[segIdx - 1], cursor.Remaining(), Cont(expected, batch))
      modifies this`cursor, this`trace
      ensures Valid() && cursor == null && trace.given == old(trace.given)
    {
      hide Selected, Traced, EndsWell, InStep;
      if intact {
        LeaveInStep(filter, segments, head, sidecars, frames, segIdx, Rest(), Cont(expected, batch), left, toCome, continuation);
      }
      TraceLeaves(filter, segments, sidecars, trace, segIdx, cursor.Remaining(), Cont(expected, batch), yielded, Cont(expected, batch));
      trace := trace.(passed := trace.passed + [Through(trace.entry, trace.read)], read := []);
      cursor := null;
    }

    /** The buffer starts with this frame. */
    ghost predicate AtFront(record: Record, bytes: Bytes)
      reads this, cursor
    {
      && cursor != null && cursor.Valid() && FRAME_HEADER_LEN <= |bytes| <= |cursor.Available()|
      && bytes <= cursor.Remaining() && Decode(cursor.Remaining()) == Ok(Some(Decoded(record, |bytes|)))
    }

    ghost function TraceWith(x: Frame): Trace
      reads this
      requires filter.selector.Valid()
    {
      trace.(read := trace.read + [x], given := trace.given + Hits(Verdict(filter, x.rec)))
    }

    lemma FrontTraced(x: Frame)
      requires Valid() && cursor != null && !finished && MayYield() && AtFront(x.rec, x.bytes)
      ensures match Advance(Cont(expected, batch), x, filter.digests)
        case Err(_) => Broken()
        case Ok(next) =>
          TraceWith(x).given == trace.given + Hits(Verdict(filter, x.rec))
          && Traced(filter, segments, sidecars, TraceWith(x), segIdx, Some(cursor.Remaining()[|x.bytes|..]), next,
                 yielded + |Hits(Verdict(filter, x.rec))|, PastEnd(filter, x.rec))
    {
      hide Selected, Passes, PastEnd, Advance, Traced, Broken, Decode, Stuck, InStep;
      var before := Cont(expected, batch);
      if Advance(before, x, filter.digests).Err? {
        FrameDecides(segments[segIdx - 1], cursor.Remaining(), before, x, filter.digests);
        GiveUp();
      } else {
        TraceReads(filter, segments, sidecars, trace, segIdx, cursor.Remaining(), before, yielded, x, Advance(before, x, filter.digests).value);
      }
    }

    lemma GiveUp()
      requires Valid() && cursor != null
      requires Stuck(segments[segIdx - 1], cursor.Remaining(), Cont(expected, batch), filter.digests)
      ensures Broken()
    {
      hide Selected, Stuck, EntryOf, PassageHolds, Underway, Damaged, InStep;
      StuckMeansDamaged(segments[segIdx - 1], trace.entry, trace.read, cursor.Remaining(), Cont(expected, batch), filter.digests);
    }

    /** Account for a decoded frame and decide whether it is yielded. */
    method TakeFrame(record: Record, bytes: Bytes) returns (r: Result<Progress>)
      requires Valid() && cursor != null && !finished && MayYield()
      requires AtFront(record, bytes) && (intact ==> left != [] && left[0] == Frame(bytes, record))
      modifies this`expected, this`batch, this`yielded, this`continuation, this`finished, this`left, this`toCome, this`trace, cursor
      ensures r.Ok? ==> Valid() && !r.value.SegmentEnd? && |cursor.Remaining()| < old(|cursor.Remaining()|)
      ensures r.Ok? ==> trace.given == old(trace.given) + Hits(r.value) && yielded == old(yielded) + |Hits(r.value)|
      ensures r.Err? ==> Broken()
      ensures intact ==> r.Ok?
      ensures r.Ok? ==> (finished <==> r.value.Stopped?)
      ensures intact ==> Yields(r.value, old(Selected(filter, toCome)), Selected(filter, toCome))
      ensures intact && r.value.Hit? && r.value.record.kind == Event ==> continuation == r.value.record.position + 1
      ensures continuation >= old(continuation)
      ensures intact && r.value.Stopped? ==> continuation >= filter.until
    {
      hide Selected, Passes, Advance, Yields, Continued, Traced, Broken, Decode, PastEnd, InStep, Records, AllRecords, Verdict, Hits, TraceWith;
      ghost var x, after := Frame(bytes, record), toCome;
      if intact {
        FrontInStep(filter, segments, head, sidecars, frames, segIdx, cursor.Remaining(), Cont(expected, batch), left, toCome, continuation);
        after := Records(left[1..]) + AllRecords(frames[segIdx..]);
      }
      FrontTraced(x);
      ghost var read := TraceWith(x);
      var _ :- CheckContinuity(record, bytes);
      cursor.Consume(|bytes|);
      left, toCome := if intact then left[1..] else left, after;
      trace := read;
      var progress := Account(record);
      return Ok(progress);
    }

    /** Move the continuation past a record, and say whether to yield it or stop. */
    method Account(record: Record) returns (progress: Progress)
      requires filter.selector.Valid() && !finished
      modifies this`continuation, this`finished, this`yielded
      ensures progress == Verdict(filter, record) && !progress.SegmentEnd? && (finished <==> progress.Stopped?) && finished == PastEnd(filter, record)
      ensures yielded == old(yielded) + |Hits(progress)|
      ensures continuation == Continued(filter, old(continuation), record) >= old(continuation)
      ensures progress.Stopped? ==> continuation >= filter.until
    {
      hide Passes;
      if record.kind == Event && record.position >= filter.until {
        finished := true;
        continuation := Max(continuation, filter.until);
        return Stopped;
      }
      if record.kind == Event {
        continuation := Max(continuation, record.position + 1);
      }
      if Passes(filter, record) {
        yielded := yielded + 1;
        return Hit(record);
      }
      return More;
    }

    /** One turn of the search: enter a segment, or look at one frame. */
    method Turn() returns (r: Result<Progress>)
      requires Valid()
      modifies this`segIdx, this`cursor, this`expected, this`batch, this`yielded, this`continuation, this`finished, this`left, this`toCome, this`trace, cursor
      ensures r.Ok? ==> Valid() && (cursor == null || cursor == old(cursor) || fresh(cursor))
      ensures r.Ok? ==> trace.given == old(trace.given) + Hits(r.value)
      ensures r.Err? ==> Broken()
      ensures continuation >= old(continuation)
      ensures intact ==> r.Ok? && Yields(r.value, old(Pending()), Pending())
      ensures r.Ok? && r.value.Stopped? ==> finished && Pending() == []
      ensures r.Ok? && !r.value.Stopped? ==> !old(finished) && !finished
      ensures intact && r.value.Hit? && r.value.record.kind == Event ==> continuation == r.value.record.position + 1
      ensures intact && r.value.Stopped? && filter.maxEvents.None? && !old(finished) ==> continuation >= Min(filter.until, head)
      ensures r.Ok? && (r.value.More? || r.value.SegmentEnd?) ==> !finished && yielded == old(yielded)
      ensures r.Ok? && !r.value.Stopped? ==>
                || segIdx > old(segIdx)
                || (segIdx == old(segIdx) && Unread() < old(Unread()))
    {
      hide Selected, Passes, InStep, Limited, Traced, Broken;
      LimitedParts(Selected(filter, toCome), filter.maxEvents, yielded);
      if finished {
        return Ok(Stopped);
      }
      if filter.maxEvents.Some? && yielded >= filter.maxEvents.value {
        TraceEnds(filter, segments, sidecars, trace, segIdx, Rest(), Cont(expected, batch), yielded);
        finished := true;
        return Ok(Stopped);
      }
      if cursor == null {
        var entered := EnterNextSegment();
        if entered {
          return Ok(More);
        }
        TraceEnds(filter, segments, sidecars, trace, segIdx, Rest(), Cont(expected, batch), yielded);
        finished := true;
        if intact {
          EndInStep(filter, segments, head, sidecars, frames, segIdx, Cont(expected, batch), left, toCome, continuation);
        }
        continuation := Max(continuation, Min(filter.until, head));
        return Ok(Stopped);
      }
      ghost var before, count := Selected(filter, toCome), yielded;
      var progress :- StepFrame();
      if intact {
        LimitedStep(progress, before, Selected(filter, toCome), filter.maxEvents, count);
      }
      return Ok(progress);
    }

    /** The next record the plan selects, or `None` at its end. On segments that may hold
        anything, an error means that one of them is damaged. */
    method Next() returns (r: Result<Option<Record>>)
      requires Valid()
      modifies this`segIdx, this`cursor, this`expected, this`batch, this`yielded, this`continuation, this`finished, this`left, this`toCome, this`trace, cursor
      ensures r.Ok? ==> Valid() && (cursor == null || cursor == old(cursor) || fresh(cursor))
      ensures r.Ok? ==> trace.given == old(trace.given) + if r.value.Some? then [r.value.value] else []
      ensures r.Ok? && r.value.None? ==> finished
      ensures r.Ok? && r.value.Some? ==> segIdx > old(segIdx) || (segIdx == old(segIdx) && Unread() < old(Unread()))
      ensures r.Err? ==> Broken()
      ensures continuation >= old(continuation)
      ensures intact ==> r.Ok?
      ensures intact && old(Pending()) == [] ==> r == Ok(None) && Pending() == []
      ensures intact && old(Pending()) != [] ==> r == Ok(Some(old(Pending())[0])) && Pending() == old(Pending())[1..]
      ensures r.Ok? && r.value.Some? ==> !finished
      ensures intact && r.value.Some? && r.value.value.kind == Event ==> continuation == r.value.value.position + 1
      ensures intact && r.value.None? && filter.maxEvents.None? && !old(finished) ==> continuation >= Min(filter.until, head)
    {
      hide Pending, InStep, Traced, Broken;
      while true
        invariant Valid() && (cursor == null || cursor == old(cursor) || fresh(cursor))
        invariant trace.given == old(trace.given)
        invariant intact ==> Pending() == old(Pending())
        invariant continuation >= old(continuation) && (finished ==> old(finished))
        invariant segIdx > old(segIdx) || (segIdx == old(segIdx) && Unread() <= old(Unread()))
        decreases |segments| - segIdx, Unread()
      {
        var progress :- Turn();
        match progress
        case Hit(record) =>
          assert intact ==> ([record] + Pending())[1..] == Pending();
          return Ok(Some(record));
        case Stopped =>
          return Ok(None);
        case More =>
        case SegmentEnd =>
      }
    }
  }

  /** Pulling until the end yields everything that was pending, in order. On segments that may
      hold anything it yields the selection of the frames that are there, or an error, which
      means that a segment is damaged. */
  method Drain(reader: LogReader) returns (r: Result<seq<Record>>)
    requires reader.Valid() && reader.cursor == null && !reader.finished && reader.trace == NO_TRACE
    modifies reader
    ensures r.Ok? ==> reader.Valid() && reader.finished && r.value == reader.trace.given
    ensures r.Err? ==> reader.Broken()
    ensures reader.intact ==> r == Ok(old(reader.Pending())) && reader.Pending() == []
    ensures reader.intact && reader.filter.maxEvents.None? ==> reader.continuation >= Min(reader.filter.until, reader.head)
  {
    hide LogReader.Pending, LogReader.Valid, LogReader.Broken;
    var records: seq<Record> := [];
    ReaderParts(reader);
    ghost var all := reader.Pending();
    while true
      invariant reader.Valid() && (reader.cursor == null || fresh(reader.cursor)) && !reader.finished
      invariant records == reader.trace.given
      invariant reader.filter.selector.Valid() && (reader.cursor != null ==> reader.cursor.Valid()) && reader.segIdx <= |reader.segments|
      invariant reader.intact ==> records + reader.Pending() == all
      decreases |reader.segments| - reader.segIdx, reader.Unread()
    {
      ghost var pending := reader.Pending();
      var next :- reader.Next();
      ReaderParts(reader);
      if next.None? {
        return Ok(records);
      }
      assert reader.intact ==> pending == [pending[0]] + pending[1..];
      records := records + [next.value];
    }
  }

  lemma ReaderParts(reader: LogReader)
    requires reader.Valid()
    ensures reader.filter.selector.Valid() && (reader.cursor != null ==> reader.cursor.Valid()) && reader.segIdx <= |reader.segments|
  {
    hide Traced, InStep;
  }

  lemma LimitedParts(rs: seq<Record>, max: Option<nat>, yielded: nat)
    ensures max.Some? && yielded >= max.value ==> Limited(rs, max, yielded) == []
    ensures rs == [] ==> Limited(rs, max, yielded) == []
  {
  }

  lemma LimitedStep(p: Progress, before: seq<Record>, after: seq<Record>, max: Option<nat>, yielded: nat)
    requires Yields(p, before, after) && (max.Some? ==> yielded < max.value)
    ensures p.Hit? ==> Limited(before, max, yielded) != [] && Limited(before, max, yielded)[0] == p.record
    ensures p.Hit? ==> Limited(before, max, yielded)[1..] == Limited(after, max, yielded + 1)
    ensures p.Stopped? ==> Limited(before, max, yielded) == []
    ensures !p.Hit? && !p.Stopped? ==> Limited(before, max, yielded) == Limited(after, max, yielded)
  {
  }

  lemma NothingLeft(f: Filter, fss: seq<seq<Frame>>, i: nat, continuation: nat, head: nat)
    requires f.selector.Valid() && i == |fss|
    requires AheadOf(f, Records([]) + AllRecords(fss[i..]), continuation, head)
    ensures Selected(f, Records([]) + AllRecords(fss[i..])) == []
    ensures AheadOf(f, Records([]) + AllRecords(fss[i..]), Max(continuation, Min(f.until, head)), head)
  {
    assert fss[i..] == [] && Records([]) + AllRecords([]) == [];
  }

  function Verdict(f: Filter, rec: Record): Progress
    requires f.selector.Valid()
  {
    if PastEnd(f, rec) then Stopped else if Passes(f, rec) then Hit(rec) else More
  }

  /** One frame of an intact segment, for every part of the reader's state. */
  lemma FrontStep(f: Filter, c: Cont, left: seq<Frame>, end: nat, rest: seq<Record>, continuation: nat, head: nat)
    requires f.selector.Valid() && left != [] && Clean(c, left, f.digests, end) && end <= head
    requires AheadOf(f, Records(left) + rest, continuation, head)
    requires forall r :: r in rest && r.kind == Event ==> r.position >= end
    ensures Advance(c, left[0], f.digests).Ok? && Clean(Advance(c, left[0], f.digests).value, left[1..], f.digests, end)
    ensures FrameBytes(left)[|left[0].bytes|..] == FrameBytes(left[1..]) && |left[0].bytes| <= |FrameBytes(left)|
    ensures var rec, after := left[0].rec, Records(left[1..]) + rest;
      && AheadOf(f, after, Continued(f, continuation, rec), head)
      && Yields(Verdict(f, rec), Selected(f, Records(left) + rest), Selected(f, after))
      && (rec.kind == Event && !PastEnd(f, rec) && Passes(f, rec) ==> Continued(f, continuation, rec) == rec.position + 1)
  {
    hide Clean, FrameBytes, Selected, Passes, Records, Advance, IsFrame, AheadOf, Continued;
    var rec, after := left[0].rec, Records(left[1..]) + rest;
    FrontFrame(f, c, left, f.digests, end, rest);
    DropFront(left);
    NothingBefore(Selected(f, after));
    forall r | r in after && r.kind == Event && rec.kind == Event ensures r.position > rec.position {
    }
    AheadAfter(f, Records(left) + rest, rec, after, continuation, head);
  }

  lemma DropFront(left: seq<Frame>)
    requires left != []
    ensures FrameBytes(left)[|left[0].bytes|..] == FrameBytes(left[1..]) && |left[0].bytes| <= |FrameBytes(left)|
  {
    FrameBytesOfSome(left);
  }

  lemma NothingBefore(rs: seq<Record>)
    ensures [] + rs == rs
  {
  }

  datatype Entry = Skip | Enter(seek: (nat, nat))

  lemma NoRecords(rest: seq<Record>)
    ensures Records([]) + rest == rest
  {
  }

  lemma TailRecords(fs: seq<Frame>, k: nat)
    requires k <= |fs|
    ensures forall r :: r in Records(fs[k..]) ==> r in Records(fs)
  {
    forall r | r in Records(fs[k..]) ensures r in Records(fs) {
      var i :| 0 <= i < |Records(fs[k..])| && Records(fs[k..])[i] == r;
      assert Records(fs)[k + i] == r;
    }
  }

  /** Consult the sidecar, if there is one: skip the segment, or where to enter it. */
  method ChooseEntry(f: Filter, seg: Planned, sidecars: map<nat, Sidecar>, ghost intact: bool, ghost fs: seq<Frame>, ghost rest: seq<Record>)
    returns (choice: Entry, ghost k: nat)
    requires f.selector.Valid()
    requires intact ==> Ahead(f, seg, sidecars, fs, rest)
    ensures k <= |fs|
    ensures choice.Skip? ==> PassageHolds(f, seg, sidecars, Skipped)
    ensures choice.Enter? ==> EntryOf(f, seg, sidecars, choice.seek)
    ensures intact && choice.Skip? ==> Selected(f, Records(fs) + rest) == Selected(f, rest)
    ensures intact && choice.Enter? ==>
      && seg.bytes[Min(choice.seek.1, |seg.bytes|)..] == FrameBytes(fs[k..])
      && Clean(Cont(choice.seek.0, None), fs[k..], f.digests, seg.end)
      && Selected(f, Records(fs) + rest) == Selected(f, Records(fs[k..]) + rest)
  {
    hide Clean, FrameBytes, Sound, Selected, Passes, IntactSegment, Skippable, Records;
    k := 0;
    var seek: (nat, nat) := (seg.base, 0);
    assert fs[0..] == fs;
    if seg.closed && seg.base in sidecars {
      var sidecar := sidecars[seg.base];
      var skip := ProvesSkip(f, sidecar);
      if skip {
        if intact {
          SoundIsAscending(sidecar, seg.base, seg.end, fs);
          SkipDrops(f, seg, sidecar, fs, rest);
        }
        return Skip, 0;
      }
      if f.from > seg.base {
        var point := SeekPointBefore(sidecar.seekPoints, f.from);
        if point.Some? {
          seek := point.value;
          if intact {
            k := SeekDrops(f, seg, sidecar, point.value, fs, rest);
          }
        }
      }
    }
    if intact {
      StartsClean(seg, fs, k, seek, f.digests);
    }
    return Enter(seek), k;
  }

  lemma StartsClean(seg: Planned, fs: seq<Frame>, k: nat, seek: (nat, nat), digests: bool)
    requires IntactSegment(seg, fs) && k <= |fs|
    requires
      || (k == 0 && seek == (seg.base, 0))
      || (seek.1 <= |seg.bytes| && seg.bytes[seek.1..] == FrameBytes(fs[k..]) && Clean(Cont(seek.0, None), fs[k..], digests, seg.end))
    ensures Clean(Cont(seek.0, None), fs[k..], digests, seg.end)
    ensures seg.bytes[Min(seek.1, |seg.bytes|)..] == FrameBytes(fs[k..])
  {
    assert fs[0..] == fs && seg.bytes[0..] == seg.bytes;
  }

  lemma FrontRecords(left: seq<Frame>, rest: seq<Record>)
    ensures left != [] ==>
      && Records(left) + rest == [left[0].rec] + (Records(left[1..]) + rest)
      && (Records(left) + rest)[0] == left[0].rec && (Records(left) + rest)[1..] == Records(left[1..]) + rest
  {
  }

  /** Unfolding one frame of an intact segment. */
  lemma FrontFrame(f: Filter, c: Cont, left: seq<Frame>, digests: bool, end: nat, rest: seq<Record>)
    requires f.selector.Valid() && Clean(c, left, digests, end)
    ensures left == [] ==> c == Cont(end, None)
    ensures left != [] ==>
      && IsFrame(left[0]) && Advance(c, left[0], digests).Ok?
      && Clean(Advance(c, left[0], digests).value, left[1..], digests, end)
      && FrameBytes(left) == left[0].bytes + FrameBytes(left[1..])
      && Records(left) + rest == [left[0].rec] + (Records(left[1..]) + rest)
      && Selected(f, Records(left) + rest)
         == (if PastEnd(f, left[0].rec) then []
             else (if Passes(f, left[0].rec) then [left[0].rec] else []) + Selected(f, Records(left[1..]) + rest))
    ensures left != [] && left[0].rec.kind == Event ==>
      && left[0].rec.position < end
      && forall r :: r in Records(left[1..]) && r.kind == Event ==> r.position > left[0].rec.position
    ensures forall r :: r in Records(left) && r.kind == Event ==> r.position < end
  {
    hide IsFrame, ParseBatchControl, Crc.Crc32cAppend, Passes, PastEnd, Records;
    FrontRecords(left, rest);
    forall r | r in Records(left) && r.kind == Event ensures r.position < end {
      RecordIn(left, r);
      CleanIsDense(c, left, digests, end);
    }
    if left != [] {
      var all := Records(left) + rest;
      CleanIsDense(c, left, digests, end);
      var next := Advance(c, left[0], digests).value;
      CleanIsDense(next, left[1..], digests, end);
      if left[0].rec.kind == Event {
        forall r | r in Records(left[1..]) && r.kind == Event ensures r.position > left[0].rec.position {
          RecordIn(left[1..], r);
        }
      }
    }
  }
}
