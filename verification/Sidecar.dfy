/** Per-segment sidecar indexes: seek points, stream postings and a timestamp range,
    built by walking the segment once. They only ever decide what not to read. */
module Sidecar {
  import opened Base
  import opened Format
  import opened FormatLaws
  import opened RecordWalk
  import opened RecordWalkLaws
  import opened Continuity
  import opened ReadPlan
  import opened SegmentCursor
  import Lexicographic

  const SEEK_POINT_SPACING := 64 * 1024
  const I64_MAX: i64 := 0x7FFF_FFFF_FFFF_FFFF
  const I64_MIN: i64 := -0x8000_0000_0000_0000

  datatype Posting = Posting(stream: Id, first: nat, last: nat, count: nat)

  datatype Sidecar = Sidecar(
    base: nat,
    end: nat,
    minTs: i64,
    maxTs: i64,
    systemFrames: nat,
    seekPoints: seq<(nat, nat)>,
    postings: seq<Posting>)

  // ── postings: a map ordered by stream ID ───────────────────────────────

  ghost predicate Ascending(ps: seq<Posting>) {
    forall i, j :: 0 <= i < j < |ps| ==> Lexicographic.Less(ps[i].stream, ps[j].stream)
  }

  function Find(ps: seq<Posting>, stream: Id): Option<Posting> {
    if ps == [] then None
    else if ps[0].stream == stream then Some(ps[0])
    else Find(ps[1..], stream)
  }

  /** `entry(stream).or_insert(..)`, then count one more record at `position`. */
  function Posted(ps: seq<Posting>, stream: Id, position: nat): seq<Posting> {
    if ps == [] then [Posting(stream, position, position, 1)]
    else if ps[0].stream == stream then [ps[0].(last := position, count := ps[0].count + 1)] + ps[1..]
    else if Lexicographic.Less(stream, ps[0].stream) then [Posting(stream, position, position, 1)] + ps
    else [ps[0]] + Posted(ps[1..], stream, position)
  }

  function CountFor(rs: seq<Record>, stream: Id): nat {
    if rs == [] then 0
    else CountFor(rs[..|rs| - 1], stream) + if rs[|rs| - 1].envelope.streamId == stream then 1 else 0
  }

  lemma {:induction false} AbsentBefore(ps: seq<Posting>, stream: Id)
    requires forall i :: 0 <= i < |ps| ==> Lexicographic.Less(stream, ps[i].stream)
    ensures Find(ps, stream).None?
  {
    if ps != [] {
      Lexicographic.Irreflexive(stream);
      AbsentBefore(ps[1..], stream);
    }
  }

  lemma AllAfter(ps: seq<Posting>, stream: Id)
    requires Ascending(ps) && ps != [] && Lexicographic.Less(stream, ps[0].stream)
    ensures forall i :: 0 <= i < |ps| ==> Lexicographic.Less(stream, ps[i].stream)
  {
    hide Lexicographic.Less;
    forall i | 0 <= i < |ps| ensures Lexicographic.Less(stream, ps[i].stream) {
      if i > 0 {
        Lexicographic.Transitive(stream, ps[0].stream, ps[i].stream);
      }
    }
  }

  lemma {:induction false} PostedCounts(ps: seq<Posting>, stream: Id, position: nat, other: Id)
    requires Ascending(ps)
    ensures var found := Find(ps, stream);
      Find(Posted(ps, stream, position), stream)
      == Some(if found.None? then Posting(stream, position, position, 1) else found.value.(last := position, count := found.value.count + 1))
    ensures other != stream ==> Find(Posted(ps, stream, position), other) == Find(ps, other)
    decreases |ps|
  {
    hide Lexicographic.Less, Ascending, Find;
    var first := Posting(stream, position, position, 1);
    FindNothing(stream);
    FindNothing(other);
    FindCons(first, ps, stream);
    FindCons(first, ps, other);
    if ps != [] {
      var counted := ps[0].(last := position, count := ps[0].count + 1);
      assert ps == [ps[0]] + ps[1..];
      FindCons(ps[0], ps[1..], stream);
      FindCons(ps[0], ps[1..], other);
      if ps[0].stream == stream {
        FindCons(counted, ps[1..], stream);
        FindCons(counted, ps[1..], other);
      } else if Lexicographic.Less(stream, ps[0].stream) {
        AllAfter(ps, stream);
        AbsentBefore(ps, stream);
      } else {
        AscendingTail(ps);
        PostedCounts(ps[1..], stream, position, other);
        FindCons(ps[0], Posted(ps[1..], stream, position), stream);
        FindCons(ps[0], Posted(ps[1..], stream, position), other);
      }
    } else {
      assert [first] + ps == [first];
    }
  }

  lemma FindNothing(stream: Id)
    ensures Find([], stream).None?
  {
  }

  lemma FindCons(p: Posting, ps: seq<Posting>, stream: Id)
    ensures Find([p] + ps, stream) == if p.stream == stream then Some(p) else Find(ps, stream)
  {
    assert ([p] + ps)[1..] == ps;
  }

  lemma AscendingTail(ps: seq<Posting>)
    requires Ascending(ps) && ps != []
    ensures Ascending(ps[1..]) && forall i :: 0 < i < |ps| ==> Lexicographic.Less(ps[0].stream, ps[i].stream)
  {
    hide Lexicographic.Less;
  }

  lemma AscendingCons(p: Posting, ps: seq<Posting>)
    requires Ascending(ps) && forall i :: 0 <= i < |ps| ==> Lexicographic.Less(p.stream, ps[i].stream)
    ensures Ascending([p] + ps)
  {
    hide Lexicographic.Less;
  }

  lemma {:induction false} PostedStreams(ps: seq<Posting>, stream: Id, position: nat, p: Posting)
    requires p in Posted(ps, stream, position)
    ensures p.stream == stream || exists q :: q in ps && q.stream == p.stream
    decreases |ps|
  {
    hide Lexicographic.Less;
    if ps != [] {
      assert ps == [ps[0]] + ps[1..];
      if p in Posted(ps[1..], stream, position) && ps[0].stream != stream {
        PostedStreams(ps[1..], stream, position, p);
      }
    }
  }

  lemma {:induction false} PostedKeepsOrder(ps: seq<Posting>, stream: Id, position: nat)
    requires Ascending(ps)
    ensures Ascending(Posted(ps, stream, position))
    decreases |ps|
  {
    hide Lexicographic.Less, Ascending;
    var first := Posting(stream, position, position, 1);
    if ps == [] {
      AscendingCons(first, ps);
      assert [first] + ps == [first];
      return;
    }
    AscendingTail(ps);
    if ps[0].stream == stream {
      AscendingCons(ps[0].(last := position, count := ps[0].count + 1), ps[1..]);
    } else if Lexicographic.Less(stream, ps[0].stream) {
      AllAfter(ps, stream);
      AscendingCons(first, ps);
    } else {
      Lexicographic.Trichotomy(stream, ps[0].stream);
      PostedKeepsOrder(ps[1..], stream, position);
      var rest := Posted(ps[1..], stream, position);
      forall j | 0 <= j < |rest| ensures Lexicographic.Less(ps[0].stream, rest[j].stream) {
        PostedStreams(ps[1..], stream, position, rest[j]);
      }
      AscendingCons(ps[0], rest);
    }
  }

  lemma {:induction false} FindIsMember(ps: seq<Posting>, stream: Id)
    ensures Find(ps, stream).Some? <==> exists p :: p in ps && p.stream == stream
  {
    if ps != [] {
      FindIsMember(ps[1..], stream);
      assert ps == [ps[0]] + ps[1..];
      if ps[0].stream == stream {
        assert ps[0] in ps;
      }
    }
  }

  /** The postings count every stream of `rs` exactly. */
  ghost predicate Counts(ps: seq<Posting>, rs: seq<Record>) {
    forall s: Id :: CountFor(rs, s) == if Find(ps, s).Some? then Find(ps, s).value.count else 0
  }

  ghost predicate AllPositive(ps: seq<Posting>) {
    forall s: Id :: Find(ps, s).Some? ==> Find(ps, s).value.count > 0
  }

  // ── what a sidecar may claim ───────────────────────────────────────────

  /** A reader may start at this entry: everything before it lies below its position,
      and the continuity machine accepts the rest from there. */
  ghost predicate SoundSeek(point: (nat, nat), fs: seq<Frame>, end: nat) {
    exists k :: 0 <= k <= |fs| && SeekAt(point, fs, end, k)
  }

  ghost predicate SeekAt(point: (nat, nat), fs: seq<Frame>, end: nat, k: nat)
    requires k <= |fs|
  {
    && point.1 == |FrameBytes(fs[..k])|
    && Clean(Cont(point.0, None), fs[k..], false, end) && Clean(Cont(point.0, None), fs[k..], true, end)
    && (forall f :: f in fs[..k] && f.rec.kind == Event ==> f.rec.position < point.0)
  }

  function SystemsIn(fs: seq<Frame>): nat {
    if fs == [] then 0 else SystemsIn(fs[..|fs| - 1]) + if fs[|fs| - 1].rec.kind == System then 1 else 0
  }

  /** What a sidecar says of the frames themselves, whether or not they continue each other. */
  ghost predicate Summary(s: Sidecar, fs: seq<Frame>) {
    && s.systemFrames == SystemsIn(fs)
    && Ascending(s.postings) && Counts(s.postings, EventsIn(fs)) && AllPositive(s.postings)
    && (forall f :: f in fs && f.rec.kind == Event ==> s.minTs <= f.rec.envelope.timestamp <= s.maxTs)
  }

  ghost predicate Sound(s: Sidecar, base: nat, end: nat, fs: seq<Frame>) {
    && s.base == base && s.end == end && Summary(s, fs)
    && (forall i :: 0 <= i < |s.seekPoints| ==> SoundSeek(s.seekPoints[i], fs, end))
    && (forall i, j :: 0 <= i < j < |s.seekPoints| ==> s.seekPoints[i].0 <= s.seekPoints[j].0)
  }

  // ── queries ────────────────────────────────────────────────────────────

  /** Binary search: an entry at or below `from`; on an ascending list, one with no
      entry strictly between. */
  method SeekPointBefore(points: seq<(nat, nat)>, from: nat) returns (r: Option<(nat, nat)>)
    ensures r.Some? ==> r.value in points && r.value.0 <= from
    ensures (forall i, j :: 0 <= i < j < |points| ==> points[i].0 <= points[j].0) ==>
              forall p :: p in points && p.0 <= from ==> r.Some? && p.0 <= r.value.0
  {
    ghost var ascending := forall i, j :: 0 <= i < j < |points| ==> points[i].0 <= points[j].0;
    var low, high := 0, |points|;
    while low < high
      invariant 0 <= low <= high <= |points|
      invariant low > 0 ==> points[low - 1].0 < from
      invariant ascending ==> forall i :: high <= i < |points| ==> points[i].0 > from
    {
      var mid := (low + high) / 2;
      if points[mid].0 == from {
        return Some(points[mid]);
      } else if points[mid].0 < from {
        low := mid + 1;
      } else {
        high := mid;
      }
    }
    if low == 0 {
      return None;
    }
    return Some(points[low - 1]);
  }

  ghost predicate TimeDisjoint(s: Sidecar, range: (int, int)) {
    s.minTs <= s.maxTs && (s.maxTs < range.0 || s.minTs >= range.1)
  }

  /** No posted stream is selected. */
  ghost predicate DisjointFrom(selector: StreamSelector, postings: seq<Posting>)
    requires selector.Valid()
  {
    match selector
    case All => false
    case Streams(ids) => forall id :: id in ids ==> Find(postings, id).None?
    case PartitionClass(count, index) => forall p :: p in postings ==> PartitionOf(p.stream, count) != index
  }

  ghost predicate Skippable(f: Filter, s: Sidecar)
    requires f.selector.Valid()
  {
    match f.kinds
    case SystemOnly => s.systemFrames == 0
    case UserEvents => DisjointFrom(f.selector, s.postings) || (f.time.Some? && TimeDisjoint(s, f.time.value))
  }

  lemma SoundIsAscending(s: Sidecar, base: nat, end: nat, fs: seq<Frame>)
    requires Sound(s, base, end, fs)
    ensures Ascending(s.postings)
  {
  }

  lemma {:induction false} FindOnlyIfPosted(ps: seq<Posting>, stream: Id)
    ensures Find(ps, stream).Some? <==> exists i :: 0 <= i < |ps| && ps[i].stream == stream
  {
    if ps != [] {
      FindOnlyIfPosted(ps[1..], stream);
      assert forall i :: 0 <= i < |ps[1..]| ==> ps[1..][i] == ps[i + 1];
      if i :| 0 <= i < |ps| && ps[i].stream == stream && i > 0 {
        assert ps[1..][i - 1].stream == stream;
      }
    }
  }

  lemma BelowAnd(ps: seq<Posting>, mid: nat, stream: Id)
    requires Ascending(ps) && mid < |ps|
    ensures Lexicographic.Less(ps[mid].stream, stream) ==> forall i :: 0 <= i <= mid ==> ps[i].stream != stream
    ensures Lexicographic.Less(stream, ps[mid].stream) ==> forall i :: mid <= i < |ps| ==> ps[i].stream != stream
  {
    hide Lexicographic.Less;
    Lexicographic.Irreflexive(stream);
    forall i | 0 <= i < |ps|
      ensures Lexicographic.Less(ps[mid].stream, stream) && i <= mid ==> ps[i].stream != stream
      ensures Lexicographic.Less(stream, ps[mid].stream) && mid <= i ==> ps[i].stream != stream
    {
      if ps[i].stream == stream && i != mid {
        if Lexicographic.Less(ps[mid].stream, stream) && Lexicographic.Less(stream, ps[mid].stream) {
          Lexicographic.Transitive(stream, ps[mid].stream, stream);
        }
      }
    }
  }

  /** Binary search over the postings, which are in stream order. */
  method IsPosted(ps: seq<Posting>, stream: Id) returns (found: bool)
    ensures Ascending(ps) ==> found == Find(ps, stream).Some?
  {
    hide Lexicographic.Less, Ascending;
    FindOnlyIfPosted(ps, stream);
    ghost var ascending := Ascending(ps);
    var low, high := 0, |ps|;
    while low < high
      invariant 0 <= low <= high <= |ps|
      invariant ascending ==> forall i :: 0 <= i < low || high <= i < |ps| ==> ps[i].stream != stream
    {
      var mid := (low + high) / 2;
      if ascending {
        BelowAnd(ps, mid, stream);
      }
      Lexicographic.Trichotomy(ps[mid].stream, stream);
      if ps[mid].stream == stream {
        return true;
      } else if Lexicographic.Less(ps[mid].stream, stream) {
        low := mid + 1;
      } else {
        high := mid;
      }
    }
    return false;
  }

  /** The skip proof as the reader computes it: each selected stream is probed, or each
      posted stream's partition compared. */
  method ProvesSkip(f: Filter, s: Sidecar) returns (skip: bool)
    requires f.selector.Valid()
    ensures Ascending(s.postings) ==> skip == Skippable(f, s)
  {
    hide Find, PartitionOf, Ascending;
    if f.kinds == SystemOnly {
      return s.systemFrames == 0;
    }
    var disjoint := Disjoint(f.selector, s.postings);
    return disjoint || (f.time.Some? && s.minTs <= s.maxTs && (s.maxTs < f.time.value.0 || s.minTs >= f.time.value.1));
  }

  method Disjoint(selector: StreamSelector, postings: seq<Posting>) returns (disjoint: bool)
    requires selector.Valid()
    ensures Ascending(postings) ==> disjoint == DisjointFrom(selector, postings)
  {
    hide Find, PartitionOf, Ascending;
    ghost var ascending := Ascending(postings);
    match selector {
      case All =>
        return false;
      case Streams(ids) =>
        for i := 0 to |ids|
          invariant ascending ==> forall k :: 0 <= k < i ==> Find(postings, ids[k]).None?
        {
          var hit := IsPosted(postings, ids[i]);
          if hit {
            assert ids[i] in ids;
            return false;
          }
        }
        return true;
      case PartitionClass(count, index) =>
        for i := 0 to |postings|
          invariant forall k :: 0 <= k < i ==> PartitionOf(postings[k].stream, count) != index
        {
          if PartitionOf(postings[i].stream, count) == index {
            return false;
          }
        }
        return true;
    }
  }

  lemma {:induction false} CountedIfPresent(rs: seq<Record>, r: Record)
    requires r in rs
    ensures CountFor(rs, r.envelope.streamId) > 0
    decreases |rs|
  {
    if rs[|rs| - 1] != r {
      assert rs == rs[..|rs| - 1] + [rs[|rs| - 1]];
      CountedIfPresent(rs[..|rs| - 1], r);
    }
  }

  lemma {:induction false} NoSystemFrames(fs: seq<Frame>)
    requires SystemsIn(fs) == 0
    ensures forall f :: f in fs ==> f.rec.kind != System
    decreases |fs|
  {
    if fs != [] {
      NoSystemFrames(fs[..|fs| - 1]);
      assert fs == fs[..|fs| - 1] + [fs[|fs| - 1]];
    }
  }

  lemma {:induction false} InEventsIn(fs: seq<Frame>, f: Frame)
    requires f in fs && f.rec.kind == Event
    ensures f.rec in EventsIn(fs)
    decreases |fs|
  {
    if fs[0] != f {
      assert fs == [fs[0]] + fs[1..];
      InEventsIn(fs[1..], f);
    }
  }

  /** The whole-segment skip proof: no record of a skipped segment passes the filter. */
  lemma SkipIsSound(f: Filter, s: Sidecar, fs: seq<Frame>)
    requires f.selector.Valid() && Summary(s, fs) && Skippable(f, s)
    ensures forall x :: x in fs ==> !Passes(f, x.rec)
  {
    forall x | x in fs ensures !Passes(f, x.rec) {
      if f.kinds == SystemOnly {
        NoSystemFrames(fs);
      } else if x.rec.kind == Event {
        InEventsIn(fs, x);
        if f.selector.Streams? {
          ProbedIsMember(f.selector.ids, x.rec.envelope.streamId);
        }
        CountedIfPresent(EventsIn(fs), x.rec);
        FindIsMember(s.postings, x.rec.envelope.streamId);
      }
    }
  }

  // ── building ───────────────────────────────────────────────────────────

  datatype Peek = AtEnd(leftover: nat) | MidFrame | Bad(error: Error) | Found(record: Record, bytes: Bytes)

  /** The buffer ends before the frame it starts with does. */
  predicate Torn(buf: Bytes) {
    match FrameTotalLen(buf, DEFAULT_LIMITS)
    case Ok(None) => true
    case Ok(Some(total)) => |buf| < total
    case Err(_) => false
  }

  /** What is at the front of the bytes, damaged or not. */
  ghost predicate Peeked(r: Peek, bytes: Bytes) {
    match r
    case AtEnd(leftover) => leftover == |bytes| < FRAME_HEADER_LEN
    case MidFrame => |bytes| >= FRAME_HEADER_LEN && Torn(bytes)
    case Bad(error) => !Torn(bytes) && Decode(bytes) == Err(error)
    case Found(record, frame) => Decode(bytes) == Ok(Some(Decoded(record, |frame|))) && frame <= bytes
  }

  /** Buffer and decode the frame at the cursor without consuming it. */
  method PeekFrame(cursor: SegmentCursor) returns (r: Peek)
    requires cursor.Valid()
    modifies cursor
    ensures cursor.Valid() && cursor.Remaining() == old(cursor.Remaining()) && Peeked(r, cursor.Remaining())
    ensures r.Found? ==> FRAME_HEADER_LEN <= |r.bytes| <= |cursor.Available()|
  {
    hide DecodedFrame, FrameTotalLen;
    ghost var remaining := cursor.Remaining();
    cursor.Fill(FRAME_HEADER_LEN);
    if |cursor.Available()| < FRAME_HEADER_LEN {
      return AtEnd(|cursor.Available()|);
    }
    var probe := FrameTotalLen(cursor.Available(), DEFAULT_LIMITS);
    ProbeOfFront(cursor.Available(), remaining);
    if probe.Err? {
      return Bad(probe.error);
    }
    var total := probe.value.value;
    cursor.Fill(total);
    ProbeOfFront(cursor.Available(), remaining);
    if |cursor.Available()| < total {
      return MidFrame;
    }
    DecodeReadsTotal(cursor.Available(), remaining, DEFAULT_LIMITS);
    var decoded := Decode(cursor.Available());
    ProbeAgreesWithDecode(cursor.Available(), DEFAULT_LIMITS);
    if decoded.Err? {
      return Bad(decoded.error);
    }
    return Found(decoded.value.value.record, cursor.Available()[..decoded.value.value.consumed]);
  }

  /** The probe sees the same in a buffer as in everything that follows. */
  lemma ProbeOfFront(available: Bytes, remaining: Bytes)
    requires available <= remaining && |available| >= FRAME_HEADER_LEN
    ensures FrameTotalLen(available, DEFAULT_LIMITS) == FrameTotalLen(remaining, DEFAULT_LIMITS)
    ensures FrameTotalLen(available, DEFAULT_LIMITS).Ok? ==>
      FrameTotalLen(available, DEFAULT_LIMITS).value.Some? && FrameTotalLen(available, DEFAULT_LIMITS).value.value >= FRAME_HEADER_LEN
    ensures FrameTotalLen(available, DEFAULT_LIMITS).Err? ==> Decode(remaining) == Err(FrameTotalLen(available, DEFAULT_LIMITS).error)
  {
    hide DecodedFrame, FrameTotalLen;
    assert available[..32] == remaining[..32];
    ProbeReadsHeader(available, remaining, DEFAULT_LIMITS);
    ProbeAgreesWithDecode(remaining, DEFAULT_LIMITS);
    if FrameTotalLen(available, DEFAULT_LIMITS).Ok? {
      ProbeIsSome(available);
    }
  }

  /** Bytes made of frames show the first one. */
  lemma PeekOfFrames(r: Peek, bytes: Bytes, fs: seq<Frame>)
    requires Peeked(r, bytes) && bytes == FrameBytes(fs)
    ensures fs == [] ==> r == AtEnd(0)
    ensures fs != [] && IsFrame(fs[0]) ==> r == Found(fs[0].rec, fs[0].bytes)
  {
    hide DecodedFrame, FrameTotalLen, FrameBytes;
    FrameBytesOfNone();
    ProbeOfNothing();
    if fs != [] {
      FrameBytesOfSome(fs);
      if IsFrame(fs[0]) {
        FrontOf(bytes, bytes, fs[0], FrameBytes(fs[1..]));
      }
    }
  }

  lemma ProbeOfNothing()
    ensures FrameTotalLen([], DEFAULT_LIMITS) == Ok(None)
  {
  }

  lemma ProbeIsSome(buf: Bytes)
    requires FrameTotalLen(buf, DEFAULT_LIMITS).Ok? && |buf| >= FRAME_HEADER_LEN
    ensures FrameTotalLen(buf, DEFAULT_LIMITS).value.Some? && FrameTotalLen(buf, DEFAULT_LIMITS).value.value >= FRAME_HEADER_LEN
  {
  }

  lemma FrontOf(available: Bytes, remaining: Bytes, f: Frame, rest: Bytes)
    requires available <= remaining == f.bytes + rest && IsFrame(f)
    requires |available| >= FRAME_HEADER_LEN || available == remaining
    ensures |available| >= FRAME_HEADER_LEN
    ensures FrameTotalLen(available, DEFAULT_LIMITS) == Ok(Some(|f.bytes|))
    ensures |f.bytes| <= |available| ==>
      Decode(available) == Ok(Some(Decoded(f.rec, |f.bytes|))) && available[..|f.bytes|] == f.bytes
    ensures |f.bytes| <= |remaining|
  {
    hide DecodedFrame, FrameTotalLen;
    DecodableIsNonempty(f);
    DecodeFirst(f, rest);
    ProbeOfFrame(available, f);
    if |f.bytes| <= |available| {
      assert available[..|f.bytes|] == f.bytes;
      assert f.bytes[..|f.bytes|] == f.bytes;
      DecodeDependsOnFrameOnly(f.bytes, available, DEFAULT_LIMITS);
    }
  }

  lemma ProbeOfFrame(available: Bytes, f: Frame)
    requires IsFrame(f) && |available| >= FRAME_HEADER_LEN
    requires available <= f.bytes || f.bytes <= available
    ensures FrameTotalLen(available, DEFAULT_LIMITS) == Ok(Some(|f.bytes|))
  {
    hide DecodedFrame, FrameTotalLen;
    DecodableIsNonempty(f);
    assert available[..32] == f.bytes[..32];
    ProbeReadsHeader(available, f.bytes, DEFAULT_LIMITS);
    ProbeAgreesWithDecode(f.bytes, DEFAULT_LIMITS);
  }

  datatype Build = Build(
    expected: nat,
    inBatch: Option<(nat, nat)>,
    byteOffset: nat,
    minTs: i64,
    maxTs: i64,
    systemFrames: nat,
    seekPoints: seq<(nat, nat)>,
    lastSeekByte: nat,
    postings: seq<Posting>)

  /** The builder's view of the continuity machine. */
  predicate Agrees(b: Build, c: Cont) {
    && b.expected == c.expected
    && (b.inBatch.Some? <==> c.batch.Some?)
    && (b.inBatch.Some? ==> b.inBatch.value == (c.batch.value.first, c.batch.value.seen))
  }

  /** What the builder knows after the first `k` frames of an intact segment. */
  ghost predicate Covers(b: Build, fs: seq<Frame>, k: nat, end: nat, plain: Cont, checked: Cont)
    requires k <= |fs|
  {
    && Agrees(b, plain) && Agrees(b, checked) && WellBracketed(plain) && WellBracketed(checked)
    && Clean(plain, fs[k..], false, end) && Clean(checked, fs[k..], true, end)
    && b.byteOffset == |FrameBytes(fs[..k])|
    && (forall f :: f in fs[..k] && f.rec.kind == Event ==> f.rec.position < Slot(plain))
    && b.systemFrames == SystemsIn(fs[..k])
    && Ascending(b.postings) && Counts(b.postings, EventsIn(fs[..k])) && AllPositive(b.postings)
    && (forall f :: f in fs[..k] && f.rec.kind == Event ==> b.minTs <= f.rec.envelope.timestamp <= b.maxTs)
    && (forall i :: 0 <= i < |b.seekPoints| ==> SoundSeek(b.seekPoints[i], fs, end) && b.seekPoints[i].0 <= b.expected)
    && (forall i, j :: 0 <= i < j < |b.seekPoints| ==> b.seekPoints[i].0 <= b.seekPoints[j].0)
  }

  /** One frame of the building walk. */
  function Noted(b: Build, rec: Record, size: nat): Result<Build> {
    var b := b.(byteOffset := b.byteOffset + size);
    match rec.kind
    case BatchBegin =>
      if b.inBatch.Some? || rec.position != b.expected then Err(Corrupt(rec.position))
      else Ok(b.(inBatch := Some((rec.position, 0))))
    case BatchCommit =>
      if b.inBatch.None? then Err(Corrupt(rec.position))
      else if rec.position != b.inBatch.value.0 || b.inBatch.value.1 == 0 then Err(Corrupt(rec.position))
      else Ok(b.(inBatch := None, expected := b.inBatch.value.0 + b.inBatch.value.1))
    case System =>
      if b.inBatch.Some? || rec.position != b.expected then Err(Corrupt(rec.position))
      else Ok(b.(systemFrames := b.systemFrames + 1))
    case Event =>
      var slot := if b.inBatch.Some? then b.inBatch.value.0 + b.inBatch.value.1 else b.expected;
      if rec.position != slot then Err(Corrupt(rec.position))
      else
        var counted := b.(minTs := Min(b.minTs, rec.envelope.timestamp),
                          maxTs := Max(b.maxTs, rec.envelope.timestamp),
                          postings := Posted(b.postings, rec.envelope.streamId, rec.position));
        Ok(if b.inBatch.Some? then counted.(inBatch := Some((b.inBatch.value.0, b.inBatch.value.1 + 1)))
           else counted.(expected := b.expected + 1))
  }

  /** Between batches, far enough from the last one, the next frame is a seek point. */
  function SeekNoted(b: Build): Build {
    if b.inBatch.None? && b.byteOffset > 0 && b.byteOffset - b.lastSeekByte >= SEEK_POINT_SPACING
    then b.(seekPoints := b.seekPoints + [(b.expected, b.byteOffset)], lastSeekByte := b.byteOffset)
    else b
  }

  lemma SeekKeepsCover(b: Build, fs: seq<Frame>, k: nat, end: nat, plain: Cont, checked: Cont)
    requires k <= |fs| && Covers(b, fs, k, end, plain, checked)
    ensures Covers(SeekNoted(b), fs, k, end, plain, checked)
  {
    hide Clean, FrameBytes, Counts, AllPositive, Ascending, SystemsIn;
    var b' := SeekNoted(b);
    if b' != b {
      assert plain == Cont(b.expected, None) && checked == Cont(b.expected, None);
      assert SeekAt((b.expected, b.byteOffset), fs, end, k);
      assert SoundSeek((b.expected, b.byteOffset), fs, end);
    }
  }

  lemma NotedEvent(ps: seq<Posting>, rs: seq<Record>, r: Record)
    requires Ascending(ps) && Counts(ps, rs) && AllPositive(ps)
    ensures var ps' := Posted(ps, r.envelope.streamId, r.position);
      Ascending(ps') && Counts(ps', rs + [r]) && AllPositive(ps')
  {
    var s := r.envelope.streamId;
    var ps' := Posted(ps, s, r.position);
    PostedKeepsOrder(ps, s, r.position);
    assert (rs + [r])[..|rs|] == rs;
    forall t: Id
      ensures CountFor(rs + [r], t) == if Find(ps', t).Some? then Find(ps', t).value.count else 0
      ensures Find(ps', t).Some? ==> Find(ps', t).value.count > 0
    {
      PostedCounts(ps, s, r.position, t);
    }
  }

  lemma EventsInSnoc(fs: seq<Frame>, f: Frame)
    ensures EventsIn(fs + [f]) == EventsIn(fs) + if f.rec.kind == Event then [f.rec] else []
  {
    EventsInConcat(fs, [f]);
    assert [f][1..] == [];
  }

  lemma SystemsInSnoc(fs: seq<Frame>, f: Frame)
    ensures SystemsIn(fs + [f]) == SystemsIn(fs) + if f.rec.kind == System then 1 else 0
  {
    assert (fs + [f])[..|fs|] == fs;
  }

  lemma NotedParts(b: Build, rec: Record, size: nat)
    requires Noted(b, rec, size).Ok?
    ensures var b' := Noted(b, rec, size).value;
      && b'.postings == (if rec.kind == Event then Posted(b.postings, rec.envelope.streamId, rec.position) else b.postings)
      && b'.systemFrames == b.systemFrames + if rec.kind == System then 1 else 0
  {
    hide Posted;
  }

  lemma NotedKeepsPostings(b: Build, fs: seq<Frame>, f: Frame)
    requires Noted(b, f.rec, |f.bytes|).Ok?
    requires Ascending(b.postings) && Counts(b.postings, EventsIn(fs)) && AllPositive(b.postings)
    requires b.systemFrames == SystemsIn(fs)
    ensures var b' := Noted(b, f.rec, |f.bytes|).value;
      && Ascending(b'.postings) && Counts(b'.postings, EventsIn(fs + [f])) && AllPositive(b'.postings)
      && b'.systemFrames == SystemsIn(fs + [f])
  {
    hide Ascending, Counts, AllPositive, Posted, EventsIn, SystemsIn, Noted;
    NotedParts(b, f.rec, |f.bytes|);
    EventsInSnoc(fs, f);
    SystemsInSnoc(fs, f);
    if f.rec.kind == Event {
      NotedEvent(b.postings, EventsIn(fs), f.rec);
    } else {
      assert EventsIn(fs) + [] == EventsIn(fs);
    }
  }

  lemma NotedFollows(b: Build, c: Cont, f: Frame, digests: bool)
    requires Agrees(b, c) && WellBracketed(c) && Advance(c, f, digests).Ok?
    ensures Noted(b, f.rec, |f.bytes|).Ok?
    ensures var b', c' := Noted(b, f.rec, |f.bytes|).value, Advance(c, f, digests).value;
      && Agrees(b', c') && WellBracketed(c')
      && b.expected <= b'.expected && Slot(c) <= Slot(c')
      && (f.rec.kind == Event ==> f.rec.position == Slot(c) && Slot(c') == Slot(c) + 1)
  {
    hide ParseBatchControl;
  }

  lemma NotedBounds(b: Build, rec: Record, size: nat)
    requires Noted(b, rec, size).Ok?
    ensures var b' := Noted(b, rec, size).value;
      && b'.minTs <= b.minTs && b.maxTs <= b'.maxTs && b'.byteOffset == b.byteOffset + size
      && (rec.kind == Event ==> b'.minTs <= rec.envelope.timestamp <= b'.maxTs)
      && b'.seekPoints == b.seekPoints
  {
    hide Posted;
  }

  lemma NotedKeepsCover(b: Build, fs: seq<Frame>, k: nat, end: nat, plain: Cont, checked: Cont)
    requires k < |fs| && Covers(b, fs, k, end, plain, checked)
    ensures Noted(b, fs[k].rec, |fs[k].bytes|).Ok? && Advance(plain, fs[k], false).Ok? && Advance(checked, fs[k], true).Ok?
    ensures IsFrame(fs[k])
    ensures Covers(Noted(b, fs[k].rec, |fs[k].bytes|).value, fs, k + 1, end, Advance(plain, fs[k], false).value, Advance(checked, fs[k], true).value)
  {
    hide FrameBytes, Counts, AllPositive, Ascending, SystemsIn, Noted, Advance, EventsIn, IsFrame, SoundSeek, Agrees, WellBracketed, Slot;
    var f := fs[k];
    assert fs[k..][0] == f && fs[k..][1..] == fs[k + 1..];
    assert fs[..k + 1] == fs[..k] + [f];
    NotedFollows(b, plain, f, false);
    NotedFollows(b, checked, f, true);
    NotedKeepsPostings(b, fs[..k], f);
    NotedBounds(b, f.rec, |f.bytes|);
    FrameBytesSnoc(fs[..k], f);
  }

  lemma StartCovers(base: nat, end: nat, fs: seq<Frame>)
    requires Clean(Cont(base, None), fs, false, end) && Clean(Cont(base, None), fs, true, end)
    ensures Covers(StartBuild(base), fs, 0, end, Cont(base, None), Cont(base, None))
  {
    hide Clean;
    assert fs[0..] == fs && fs[..0] == [];
    assert SeekAt((base, 0), fs, end, 0);
    assert StartBuild(base).seekPoints[0] == (base, 0);
    assert SoundSeek((base, 0), fs, end);
  }

  function StartBuild(base: nat): Build {
    Build(base, None, 0, I64_MAX, I64_MIN, 0, [(base, 0)], 0, [])
  }

  lemma CoversAll(b: Build, base: nat, fs: seq<Frame>, end: nat, plain: Cont, checked: Cont)
    requires Covers(b, fs, |fs|, end, plain, checked)
    ensures b.inBatch.None?
    ensures Sound(Sidecar(base, b.expected, b.minTs, b.maxTs, b.systemFrames, b.seekPoints, b.postings), base, end, fs)
  {
    hide FrameBytes, Counts, AllPositive, Ascending, SystemsIn, EventsIn, IsFrame, SoundSeek;
    assert fs[|fs|..] == [] && fs[..|fs|] == fs;
  }

  // ── what it says of any bytes ──────────────────────────────────────────

  /** The frames are really there, the sidecar sums them up, its seek points lie between them
      where the next event belongs, and their events count up from the base. */
  ghost predicate Told(s: Sidecar, base: nat, fs: seq<Frame>) {
    && Summary(s, fs) && s.base == base && s.end == base + |EventsIn(fs)|
    && (forall i :: 0 <= i < |EventsIn(fs)| ==> EventsIn(fs)[i].position == base + i)
    && (forall i :: 0 <= i < |s.seekPoints| ==> AtBoundary(s.seekPoints[i], base, fs))
  }

  ghost predicate AtBoundary(point: (nat, nat), base: nat, fs: seq<Frame>) {
    exists k :: 0 <= k <= |fs| && point == (base + |EventsIn(fs[..k])|, |FrameBytes(fs[..k])|)
  }

  function BuildSlot(b: Build): nat {
    if b.inBatch.Some? then b.inBatch.value.0 + b.inBatch.value.1 else b.expected
  }

  function SidecarOf(b: Build, base: nat): Sidecar {
    Sidecar(base, b.expected, b.minTs, b.maxTs, b.systemFrames, b.seekPoints, b.postings)
  }

  /** The builder after some frames, whatever they are. */
  ghost predicate Tells(b: Build, base: nat, fs: seq<Frame>) {
    && Told(SidecarOf(b, base).(end := base + |EventsIn(fs)|), base, fs)
    && BuildSlot(b) == base + |EventsIn(fs)| && b.byteOffset == |FrameBytes(fs)|
  }

  lemma StartTells(base: nat)
    ensures Tells(StartBuild(base), base, [])
  {
    var none: seq<Frame> := [];
    assert none[..0] == none;
    assert AtBoundary((base, 0), base, none);
  }

  lemma SeekTells(b: Build, base: nat, fs: seq<Frame>)
    requires Tells(b, base, fs)
    ensures Tells(SeekNoted(b), base, fs)
  {
    hide FrameBytes, Counts, AllPositive, Ascending, SystemsIn, EventsIn;
    assert fs[..|fs|] == fs;
    assert AtBoundary((base + |EventsIn(fs)|, |FrameBytes(fs)|), base, fs);
  }

  lemma NotedTells(b: Build, base: nat, fs: seq<Frame>, f: Frame)
    requires Tells(b, base, fs) && Noted(b, f.rec, |f.bytes|).Ok?
    ensures Tells(Noted(b, f.rec, |f.bytes|).value, base, fs + [f])
  {
    hide FrameBytes, Counts, AllPositive, Ascending, SystemsIn, Noted, EventsIn, AtBoundary, BuildSlot;
    var b', more := Noted(b, f.rec, |f.bytes|).value, fs + [f];
    NotedKeepsPostings(b, fs, f);
    NotedBounds(b, f.rec, |f.bytes|);
    NotedSlot(b, f.rec, |f.bytes|);
    FrameBytesSnoc(fs, f);
    EventsInSnoc(fs, f);
    forall x | x in more && x.rec.kind == Event ensures b'.minTs <= x.rec.envelope.timestamp <= b'.maxTs {
      if x != f {
        assert x in fs;
      }
    }
    forall i | 0 <= i < |b'.seekPoints| ensures AtBoundary(b'.seekPoints[i], base, more) {
      BoundaryOfMore(b.seekPoints[i], base, fs, f);
    }
  }

  lemma BoundaryOfMore(point: (nat, nat), base: nat, fs: seq<Frame>, f: Frame)
    requires AtBoundary(point, base, fs)
    ensures AtBoundary(point, base, fs + [f])
  {
    hide FrameBytes, EventsIn;
    var k :| 0 <= k <= |fs| && point == (base + |EventsIn(fs[..k])|, |FrameBytes(fs[..k])|);
    assert (fs + [f])[..k] == fs[..k];
  }

  lemma EndTells(b: Build, base: nat, fs: seq<Frame>)
    requires Tells(b, base, fs) && b.inBatch.None?
    ensures Told(SidecarOf(b, base), base, fs)
  {
    hide FrameBytes, Counts, AllPositive, Ascending, SystemsIn, EventsIn, AtBoundary;
  }

  lemma NotedSlot(b: Build, rec: Record, size: nat)
    requires Noted(b, rec, size).Ok?
    ensures BuildSlot(Noted(b, rec, size).value) == BuildSlot(b) + if rec.kind == Event then 1 else 0
    ensures rec.kind == Event ==> rec.position == BuildSlot(b)
  {
    hide Posted;
  }

  lemma FrameThere(rest: Bytes, x: Frame)
    requires x.bytes <= rest && Decode(rest) == Ok(Some(Decoded(x.rec, |x.bytes|)))
    ensures IsFrame(x)
  {
    hide DecodedFrame;
    assert rest[..|x.bytes|] == x.bytes[..|x.bytes|] == x.bytes;
    DecodeDependsOnFrameOnly(rest, x.bytes, DEFAULT_LIMITS);
  }

  /** Part of the way through any bytes: the frames so far are there, and told of. */
  ghost predicate Building(file: Bytes, rest: Bytes, b: Build, base: nat, found: seq<Frame>) {
    AllFrames(found) && FrameBytes(found) + rest == file && Tells(b, base, found)
  }

  lemma BuildingStarts(file: Bytes, base: nat)
    ensures Building(file, file, StartBuild(base), base, [])
  {
    hide Tells;
    FrameBytesOfNone();
    StartTells(base);
    assert [] + file == file;
  }

  lemma BuildingStep(file: Bytes, rest: Bytes, b: Build, base: nat, found: seq<Frame>, x: Frame)
    requires Building(file, rest, b, base, found) && Noted(SeekNoted(b), x.rec, |x.bytes|).Ok?
    requires x.bytes <= rest && Decode(rest) == Ok(Some(Decoded(x.rec, |x.bytes|)))
    ensures Building(file, rest[|x.bytes|..], Noted(SeekNoted(b), x.rec, |x.bytes|).value, base, found + [x])
  {
    hide Tells, Noted, SeekNoted, FrameBytes, IsFrame, Decode, DecodedFrame;
    FrameThere(rest, x);
    SeekTells(b, base, found);
    NotedTells(SeekNoted(b), base, found, x);
    FrameBytesSnoc(found, x);
    assert FrameBytes(found) + rest == (FrameBytes(found) + x.bytes) + rest[|x.bytes|..];
  }

  lemma BuildingEnds(file: Bytes, b: Build, base: nat, found: seq<Frame>)
    requires Building(file, [], b, base, found) && b.inBatch.None?
    ensures AllFrames(found) && file == FrameBytes(found) && Told(SidecarOf(b, base), base, found)
  {
    hide Tells, Told, FrameBytes;
    EndTells(b, base, found);
    assert FrameBytes(found) + [] == FrameBytes(found);
  }

  /** Part of the way through an intact segment. */
  ghost predicate OnIntact(rest: Bytes, b: Build, fs: seq<Frame>, k: nat, end: nat, plain: Cont, checked: Cont) {
    k <= |fs| && rest == FrameBytes(fs[k..]) && Covers(b, fs, k, end, plain, checked)
  }

  lemma IntactStarts(file: Bytes, base: nat, end: nat, fs: seq<Frame>)
    requires file == FrameBytes(fs) && Clean(Cont(base, None), fs, false, end) && Clean(Cont(base, None), fs, true, end)
    ensures OnIntact(file, StartBuild(base), fs, 0, end, Cont(base, None), Cont(base, None))
  {
    hide Clean, Covers, FrameBytes;
    assert fs[0..] == fs;
    StartCovers(base, end, fs);
  }

  /** On an intact segment the next frame is found and noted, or the segment is over. */
  lemma IntactStep(rest: Bytes, b: Build, fs: seq<Frame>, k: nat, end: nat, plain: Cont, checked: Cont, peek: Peek)
    requires OnIntact(rest, b, fs, k, end, plain, checked) && Peeked(peek, rest)
    ensures k == |fs| ==> peek == AtEnd(0)
    ensures k < |fs| ==>
      var x := fs[k];
      && peek == Found(x.rec, x.bytes) && Noted(SeekNoted(b), x.rec, |x.bytes|).Ok? && |x.bytes| <= |rest|
      && Advance(plain, x, false).Ok? && Advance(checked, x, true).Ok?
      && OnIntact(rest[|x.bytes|..], Noted(SeekNoted(b), x.rec, |x.bytes|).value, fs, k + 1, end,
                  Advance(plain, x, false).value, Advance(checked, x, true).value)
  {
    hide Clean, Covers, FrameBytes, Peeked, Noted, SeekNoted, Advance, IsFrame;
    PeekOfFrames(peek, rest, fs[k..]);
    if k < |fs| {
      SeekKeepsCover(b, fs, k, end, plain, checked);
      NotedKeepsCover(SeekNoted(b), fs, k, end, plain, checked);
      FrameBytesOfSome(fs[k..]);
      assert fs[k..][0] == fs[k] && fs[k..][1..] == fs[k + 1..];
    }
  }

  lemma IntactEnds(rest: Bytes, b: Build, base: nat, fs: seq<Frame>, end: nat, plain: Cont, checked: Cont)
    requires OnIntact(rest, b, fs, |fs|, end, plain, checked)
    ensures b.inBatch.None? && Sound(SidecarOf(b, base), base, end, fs)
  {
    hide Covers, FrameBytes;
    CoversAll(b, base, fs, end, plain, checked);
  }

  /** A sidecar of an intact segment is sound, whatever the read sizes were. On any other bytes
      there is a sidecar only if they are frames throughout, and then it tells of them. */
  method BuildSidecar(file: Bytes, base: nat, ghost fs: seq<Frame>, ghost end: nat) returns (r: Result<Sidecar>, ghost found: seq<Frame>)
    ensures r.Ok? ==> AllFrames(found) && file == FrameBytes(found) && Told(r.value, base, found)
    ensures file == FrameBytes(fs) && Clean(Cont(base, None), fs, false, end) && Clean(Cont(base, None), fs, true, end) ==>
              r.Ok? && Sound(r.value, base, end, fs)
  {
    hide FrameBytes, Clean, Noted, SeekNoted, Advance, Sound, Told, Building, OnIntact, Decode, AllFrames;
    ghost var intact := file == FrameBytes(fs) && Clean(Cont(base, None), fs, false, end) && Clean(Cont(base, None), fs, true, end);
    var cursor := new SegmentCursor(file, 0);
    assert file[0..] == file;
    var b := StartBuild(base);
    found := [];
    ghost var k, plain, checked := 0, Cont(base, None), Cont(base, None);
    BuildingStarts(file, base);
    if intact {
      IntactStarts(file, base, end, fs);
    }
    while true
      invariant cursor.Valid() && fresh(cursor) && k <= |fs|
      invariant Building(file, cursor.Remaining(), b, base, found)
      invariant intact ==> OnIntact(cursor.Remaining(), b, fs, k, end, plain, checked)
      decreases |cursor.Remaining()|
    {
      var peek := PeekFrame(cursor);
      if intact {
        IntactStep(cursor.Remaining(), b, fs, k, end, plain, checked, peek);
      }
      match peek
      case AtEnd(leftover) =>
        if leftover != 0 {
          return Err(Corrupt(b.expected)), found;
        }
        break;
      case MidFrame =>
        return Err(Corrupt(b.expected)), found;
      case Bad(error) =>
        return Err(error), found;
      case Found(record, bytes) =>
        ghost var before := b;
        b := SeekNoted(b);
        var noted := Noted(b, record, |bytes|);
        if noted.Err? {
          return Err(noted.error), found;
        }
        ghost var x := Frame(bytes, record);
        BuildingStep(file, cursor.Remaining(), before, base, found, x);
        if intact {
          plain, checked, k := Advance(plain, fs[k], false).value, Advance(checked, fs[k], true).value, k + 1;
        }
        b, found := noted.value, found + [x];
        cursor.Consume(|bytes|);
    }
    if intact {
      IntactEnds(cursor.Remaining(), b, base, fs, end, plain, checked);
    }
    if b.inBatch.Some? {
      return Err(Corrupt(b.expected)), found;
    }
    BuildingEnds(file, b, base, found);
    return Ok(SidecarOf(b, base)), found;
  }
}
