/** What a reader has seen of segments that may hold anything: which frames are really
    there, what was left behind unread and on whose word, and when a segment is damaged. */
module ReadEvidence {
  import opened Base
  import opened Format
  import opened FormatLaws
  import opened RecordWalk
  import opened RecordWalkLaws
  import opened Continuity
  import opened ReadPlan
  import opened Sidecar

  /** One segment the planner selected; `end` comes from the layout, not from a sidecar. */
  datatype Planned = Planned(base: nat, end: nat, bytes: Bytes, closed: bool)

  function FromEntry(p: Planned, entry: (nat, nat)): Bytes {
    p.bytes[Min(entry.1, |p.bytes|)..]
  }

  // ── whole and damaged segments ─────────────────────────────────────────

  /** What may be left where a segment ends: nothing of a closed one, which must have reached
      its recorded end, and at most the beginning of a frame of the active one. */
  predicate EndsWell(p: Planned, rest: Bytes, c: Cont) {
    if p.closed then rest == [] && c.expected >= p.end else Torn(rest)
  }

  /** From the entry on, the segment is exactly these frames, and they continue each other. */
  ghost predicate WholeFrom(p: Planned, entry: (nat, nat), fs: seq<Frame>, digests: bool) {
    && AllFrames(fs) && FrameBytes(fs) <= FromEntry(p, entry)
    && Followed(Cont(entry.0, None), fs, digests).Ok?
    && EndsWell(p, FromEntry(p, entry)[|FrameBytes(fs)|..], Followed(Cont(entry.0, None), fs, digests).value)
  }

  ghost predicate Damaged(p: Planned, entry: (nat, nat), digests: bool) {
    forall fs :: !WholeFrom(p, entry, fs, digests)
  }

  /** Part of the way through a segment: the frames read are there and accepted so far. */
  ghost predicate Underway(p: Planned, entry: (nat, nat), read: seq<Frame>, rest: Bytes, c: Cont, digests: bool) {
    && AllFrames(read) && FrameBytes(read) + rest == FromEntry(p, entry)
    && Followed(Cont(entry.0, None), read, digests) == Ok(c)
  }

  lemma TornHasNoFrame(bytes: Bytes)
    requires Torn(bytes)
    ensures Decode(bytes).Ok? ==> Decode(bytes).value.None?
  {
    hide DecodedFrame, FrameTotalLen;
    ProbeAgreesWithDecode(bytes, DEFAULT_LIMITS);
  }

  lemma NothingIsTorn()
    ensures Torn([])
  {
  }

  lemma FrameIsNotTorn(f: Frame, rest: Bytes)
    requires IsFrame(f)
    ensures !Torn(f.bytes + rest) && Decode(f.bytes + rest) == Ok(Some(Decoded(f.rec, |f.bytes|)))
  {
    hide DecodedFrame, FrameTotalLen;
    FrontOf(f.bytes + rest, f.bytes + rest, f, rest);
  }

  /** Why a reader gives up: no frame starts where one should, the next one does not continue
      the others, or a closed segment stops short. */
  ghost predicate Stuck(p: Planned, rest: Bytes, c: Cont, digests: bool) {
    || (!Torn(rest) && match Decode(rest)
        case Err(_) => true
        case Ok(None) => false
        case Ok(Some(d)) => Advance(c, Frame(rest[..d.consumed], d.record), digests).Err?)
    || (p.closed && rest != [] && Torn(rest))
    || (p.closed && rest == [] && c.expected < p.end)
  }

  /** What the front of the unread bytes means for the open segment. */
  lemma PeekDecides(p: Planned, peek: Peek, rest: Bytes, c: Cont, digests: bool)
    requires Peeked(peek, rest)
    ensures match peek
      case AtEnd(leftover) =>
        if p.closed && (leftover != 0 || c.expected < p.end) then Stuck(p, rest, c, digests) else EndsWell(p, rest, c)
      case MidFrame => if p.closed then Stuck(p, rest, c, digests) else EndsWell(p, rest, c)
      case Bad(_) => Stuck(p, rest, c, digests)
      case Found(record, bytes) => bytes <= rest && Decode(rest) == Ok(Some(Decoded(record, |bytes|)))
  {
    hide DecodedFrame, Advance;
    if |rest| < FRAME_HEADER_LEN {
      ShortIsTorn(rest);
    }
  }

  lemma ShortIsTorn(bytes: Bytes)
    requires |bytes| < FRAME_HEADER_LEN
    ensures Torn(bytes)
  {
  }

  lemma FrameDecides(p: Planned, rest: Bytes, c: Cont, x: Frame, digests: bool)
    requires x.bytes <= rest && Decode(rest) == Ok(Some(Decoded(x.rec, |x.bytes|))) && Advance(c, x, digests).Err?
    ensures Stuck(p, rest, c, digests)
  {
    hide DecodedFrame, Advance, FrameTotalLen;
    ProbeAgreesWithDecode(rest, DEFAULT_LIMITS);
    assert rest[..|x.bytes|] == x.bytes;
  }

  /** A reader that is stuck is stuck for a reason: no frames make up the segment. */
  lemma StuckMeansDamaged(p: Planned, entry: (nat, nat), read: seq<Frame>, rest: Bytes, c: Cont, digests: bool)
    requires Underway(p, entry, read, rest, c, digests) && Stuck(p, rest, c, digests)
    ensures Damaged(p, entry, digests)
  {
    hide Decode, DecodedFrame, FrameBytes, Torn, Advance, IsFrame;
    forall fs ensures !WholeFrom(p, entry, fs, digests) {
      if WholeFrom(p, entry, fs, digests) {
        NotWhole(p, entry, read, rest, c, digests, fs);
      }
    }
  }

  /** Wherever a reader is in a whole segment, its next frame is there and continues. */
  lemma WholeGoesOn(p: Planned, entry: (nat, nat), read: seq<Frame>, rest: Bytes, c: Cont, digests: bool, fs: seq<Frame>)
    requires Underway(p, entry, read, rest, c, digests) && WholeFrom(p, entry, fs, digests)
    ensures read <= fs
    ensures fs == read ==> EndsWell(p, rest, c)
    ensures fs != read ==>
      var f := fs[|read|];
      IsFrame(f) && f.bytes <= rest && f.bytes != [] && !Torn(rest) && Decode(rest) == Ok(Some(Decoded(f.rec, |f.bytes|))) && Advance(c, f, digests).Ok?
  {
    hide Decode, DecodedFrame, FrameBytes, Torn, Advance, IsFrame, Followed;
    var all := FromEntry(p, entry);
    var end := all[|FrameBytes(fs)|..];
    assert FrameBytes(fs) + end == all;
    EndsWithoutFrame(p, end, Followed(Cont(entry.0, None), fs, digests).value);
    ReadIsPrefix(read, rest, fs, end);
    if fs == read {
      FrameBytesOfNone();
      assert fs[|read|..] == [] && [] + end == end;
    } else {
      NextFrame(fs, |read|, end);
      FollowedPrefix(Cont(entry.0, None), fs, |read| + 1, digests);
      assert fs[..|read| + 1] == read + [fs[|read|]];
      FollowedSnoc(Cont(entry.0, None), read, fs[|read|], digests);
    }
  }

  lemma EndsWithoutFrame(p: Planned, end: Bytes, c: Cont)
    requires EndsWell(p, end, c)
    ensures Decode(end).Ok? ==> Decode(end).value.None?
  {
    hide DecodedFrame, Torn;
    NothingIsTorn();
    TornHasNoFrame(end);
  }

  lemma NextFrame(fs: seq<Frame>, n: nat, end: Bytes)
    requires AllFrames(fs) && n < |fs|
    ensures var rest := FrameBytes(fs[n..]) + end;
      && IsFrame(fs[n]) && fs[n].bytes <= rest && fs[n].bytes != [] && !Torn(rest)
      && Decode(rest) == Ok(Some(Decoded(fs[n].rec, |fs[n].bytes|)))
  {
    hide Decode, DecodedFrame, FrameBytes, Torn, IsFrame;
    var more := fs[n..];
    FrameBytesOfSome(more);
    var tail := FrameBytes(more[1..]) + end;
    assert FrameBytes(more) + end == fs[n].bytes + tail;
    FrameIsNotTorn(fs[n], tail);
    DecodableIsNonempty(fs[n]);
  }

  lemma NotWhole(p: Planned, entry: (nat, nat), read: seq<Frame>, rest: Bytes, c: Cont, digests: bool, fs: seq<Frame>)
    requires Underway(p, entry, read, rest, c, digests) && WholeFrom(p, entry, fs, digests)
    ensures !Stuck(p, rest, c, digests)
  {
    hide Decode, DecodedFrame, FrameBytes, FrameTotalLen, Advance, IsFrame, WholeFrom, Underway;
    WholeGoesOn(p, entry, read, rest, c, digests, fs);
    NothingIsTorn();
    if fs != read {
      assert rest[..|fs[|read|].bytes|] == fs[|read|].bytes;
    }
  }

  // ── the trace of a read ────────────────────────────────────────────────

  /** How a segment was left behind: unread on its sidecar's word, or read through. */
  datatype Passage = Skipped | Through(entry: (nat, nat), frames: seq<Frame>)

  /** The segments left behind, the frames read of the open one, and what was yielded. */
  datatype Trace = Trace(passed: seq<Passage>, entry: (nat, nat), read: seq<Frame>, given: seq<Record>)

  /** A reader enters a segment at its base, or at a seek point at or below its window. */
  ghost predicate EntryOf(f: Filter, p: Planned, sidecars: map<nat, Sidecar>, entry: (nat, nat)) {
    || entry == (p.base, 0)
    || (p.closed && p.base in sidecars && entry in sidecars[p.base].seekPoints && entry.0 <= f.from)
  }

  ghost predicate PassageHolds(f: Filter, p: Planned, sidecars: map<nat, Sidecar>, g: Passage)
    requires f.selector.Valid()
  {
    match g
    case Skipped => p.closed && p.base in sidecars && (Ascending(sidecars[p.base].postings) ==> Skippable(f, sidecars[p.base]))
    case Through(entry, fs) => EntryOf(f, p, sidecars, entry) && WholeFrom(p, entry, fs, f.digests)
  }

  function RecordsPassed(passed: seq<Passage>): seq<Record>
    decreases |passed|
  {
    if passed == [] then []
    else RecordsPassed(passed[..|passed| - 1])
         + match passed[|passed| - 1]
           case Skipped => []
           case Through(_, fs) => Records(fs)
  }

  /** The records of every frame read so far, in order. */
  function SeenBy(t: Trace): seq<Record> {
    RecordsPassed(t.passed) + Records(t.read)
  }

  ghost predicate NonePast(f: Filter, rs: seq<Record>) {
    forall r :: r in rs ==> !PastEnd(f, r)
  }

  /** Why a read is over: enough was yielded, every segment is behind it, or an event past
      the window was met. */
  ghost predicate Over(f: Filter, ps: seq<Planned>, t: Trace, segIdx: nat, yielded: nat) {
    || (f.maxEvents.Some? && yielded >= f.maxEvents.value)
    || (segIdx == |ps| == |t.passed|)
    || !NonePast(f, SeenBy(t))
  }

  /** The trace is true of the bytes: `rest` is unread of the open segment, if one is open. */
  ghost predicate Traced(f: Filter, ps: seq<Planned>, sidecars: map<nat, Sidecar>, t: Trace,
                         segIdx: nat, rest: Option<Bytes>, c: Cont, yielded: nat, finished: bool)
    requires f.selector.Valid()
  {
    && segIdx <= |ps| && |t.passed| + (if rest.Some? then 1 else 0) == segIdx
    && (forall i :: 0 <= i < |t.passed| ==> PassageHolds(f, ps[i], sidecars, t.passed[i]))
    && (rest.None? ==> t.read == [])
    && (rest.Some? ==> EntryOf(f, ps[segIdx - 1], sidecars, t.entry) && Underway(ps[segIdx - 1], t.entry, t.read, rest.value, c, f.digests))
    && t.given == Selected(f, SeenBy(t)) && |t.given| == yielded && (f.maxEvents.Some? ==> yielded <= f.maxEvents.value)
    && (if finished then Over(f, ps, t, segIdx, yielded) else NonePast(f, SeenBy(t)))
  }

  const NO_TRACE := Trace([], (0, 0), [], [])

  lemma TraceStarts(f: Filter, ps: seq<Planned>, sidecars: map<nat, Sidecar>, c: Cont)
    requires f.selector.Valid()
    ensures Traced(f, ps, sidecars, NO_TRACE, 0, None, c, 0, false)
  {
  }

  lemma PassedSnoc(passed: seq<Passage>, g: Passage)
    ensures RecordsPassed(passed + [g]) == RecordsPassed(passed) + match g
                                                                   case Skipped => []
                                                                   case Through(_, fs) => Records(fs)
  {
    assert (passed + [g])[..|passed|] == passed;
  }

  lemma TraceSkips(f: Filter, ps: seq<Planned>, sidecars: map<nat, Sidecar>, t: Trace, segIdx: nat, c: Cont, yielded: nat, next: Cont)
    requires f.selector.Valid() && Traced(f, ps, sidecars, t, segIdx, None, c, yielded, false)
    requires segIdx < |ps| && PassageHolds(f, ps[segIdx], sidecars, Skipped)
    ensures Traced(f, ps, sidecars, t.(passed := t.passed + [Skipped]), segIdx + 1, None, next, yielded, false)
  {
    hide PassageHolds, Selected, Records, PastEnd;
    PassedSnoc(t.passed, Skipped);
    assert RecordsPassed(t.passed) + [] == RecordsPassed(t.passed);
  }

  lemma TraceEnters(f: Filter, ps: seq<Planned>, sidecars: map<nat, Sidecar>, t: Trace, segIdx: nat, c: Cont, yielded: nat, entry: (nat, nat))
    requires f.selector.Valid() && Traced(f, ps, sidecars, t, segIdx, None, c, yielded, false)
    requires segIdx < |ps| && EntryOf(f, ps[segIdx], sidecars, entry)
    ensures Traced(f, ps, sidecars, t.(entry := entry), segIdx + 1, Some(FromEntry(ps[segIdx], entry)), Cont(entry.0, None), yielded, false)
  {
    hide PassageHolds, Selected, Records, PastEnd, EntryOf, RecordsPassed;
    FrameBytesOfNone();
    assert [] + FromEntry(ps[segIdx], entry) == FromEntry(ps[segIdx], entry);
  }

  /** Leaving a segment: it was whole, and the frames read are the ones that make it up. */
  lemma TraceLeaves(f: Filter, ps: seq<Planned>, sidecars: map<nat, Sidecar>, t: Trace, segIdx: nat, rest: Bytes, c: Cont, yielded: nat, next: Cont)
    requires f.selector.Valid() && Traced(f, ps, sidecars, t, segIdx, Some(rest), c, yielded, false)
    requires EndsWell(ps[segIdx - 1], rest, c)
    ensures Traced(f, ps, sidecars, t.(passed := t.passed + [Through(t.entry, t.read)], read := []), segIdx, None, next, yielded, false)
  {
    hide Selected, Records, PastEnd, EntryOf, FrameBytes, EndsWell, Followed, AllFrames, NonePast;
    PassedSnoc(t.passed, Through(t.entry, t.read));
    NoRecordsRead(RecordsPassed(t.passed) + Records(t.read));
    assert (FrameBytes(t.read) + rest)[|FrameBytes(t.read)|..] == rest;
    assert WholeFrom(ps[segIdx - 1], t.entry, t.read, f.digests);
  }

  lemma NoRecordsRead(rs: seq<Record>)
    ensures rs + Records([]) == rs
  {
  }

  /** One frame read: it is there, it continues the others, and it is yielded if it passes. */
  lemma TraceReads(f: Filter, ps: seq<Planned>, sidecars: map<nat, Sidecar>, t: Trace, segIdx: nat, rest: Bytes, c: Cont, yielded: nat, x: Frame, next: Cont)
    requires f.selector.Valid() && Traced(f, ps, sidecars, t, segIdx, Some(rest), c, yielded, false)
    requires f.maxEvents.Some? ==> yielded < f.maxEvents.value
    requires x.bytes <= rest && Decode(rest) == Ok(Some(Decoded(x.rec, |x.bytes|))) && Advance(c, x, f.digests) == Ok(next)
    ensures var hit := !PastEnd(f, x.rec) && Passes(f, x.rec);
      Traced(f, ps, sidecars, t.(read := t.read + [x], given := t.given + if hit then [x.rec] else []),
             segIdx, Some(rest[|x.bytes|..]), next, yielded + (if hit then 1 else 0), PastEnd(f, x.rec))
  {
    hide Selected, PastEnd, Passes, EntryOf, PassageHolds, Underway, Advance, IsFrame, Decode, DecodedFrame, Records, RecordsPassed, NonePast;
    UnderwayReads(ps[segIdx - 1], t.entry, t.read, rest, c, f.digests, x, next);
    RecordsSnoc(RecordsPassed(t.passed), t.read, x);
    SelectedSnoc(f, SeenBy(t), x.rec);
    PastSnoc(f, SeenBy(t), x.rec);
  }

  lemma UnderwayReads(p: Planned, entry: (nat, nat), read: seq<Frame>, rest: Bytes, c: Cont, digests: bool, x: Frame, next: Cont)
    requires Underway(p, entry, read, rest, c, digests)
    requires x.bytes <= rest && Decode(rest) == Ok(Some(Decoded(x.rec, |x.bytes|))) && Advance(c, x, digests) == Ok(next)
    ensures Underway(p, entry, read + [x], rest[|x.bytes|..], next, digests)
  {
    hide FrameBytes, Advance, IsFrame, Decode, DecodedFrame, Followed;
    FrameThere(rest, x);
    FollowedSnoc(Cont(entry.0, None), read, x, digests);
    FrameBytesSnoc(read, x);
    assert FrameBytes(read) + rest == (FrameBytes(read) + x.bytes) + rest[|x.bytes|..];
  }

  lemma RecordsSnoc(rs: seq<Record>, fs: seq<Frame>, x: Frame)
    ensures rs + Records(fs + [x]) == (rs + Records(fs)) + [x.rec]
  {
  }

  lemma PastSnoc(f: Filter, rs: seq<Record>, r: Record)
    requires NonePast(f, rs)
    ensures NonePast(f, rs + [r]) <==> !PastEnd(f, r)
  {
    hide PastEnd;
    assert (rs + [r])[|rs|] == r;
    forall x | x in rs + [r] && x != r ensures x in rs {
    }
  }

  lemma SelectedSnoc(f: Filter, rs: seq<Record>, r: Record)
    requires f.selector.Valid() && NonePast(f, rs)
    ensures Selected(f, rs + [r]) == Selected(f, rs) + if !PastEnd(f, r) && Passes(f, r) then [r] else []
  {
    hide PastEnd, Passes;
    SelectedConcat(f, rs, [r]);
    assert [r][1..] == [];
  }

  lemma TraceEnds(f: Filter, ps: seq<Planned>, sidecars: map<nat, Sidecar>, t: Trace, segIdx: nat, rest: Option<Bytes>, c: Cont, yielded: nat)
    requires f.selector.Valid() && Traced(f, ps, sidecars, t, segIdx, rest, c, yielded, false)
    requires (segIdx == |ps| && rest.None?) || (f.maxEvents.Some? && yielded >= f.maxEvents.value)
    ensures Traced(f, ps, sidecars, t, segIdx, rest, c, yielded, true)
  {
    hide PassageHolds, Selected, Records, PastEnd, EntryOf, Underway, NonePast;
  }
}
