/** The sidecar file: a fixed header, fixed-size seek and posting entries and a checksum. */
module SidecarFormat {
  import opened Base
  import opened LittleEndian
  import opened FormatLaws
  import opened Sidecar
  import Crc
  import Lexicographic

  const SIDECAR_MAGIC: Bytes := [0x53, 0x44, 0x42, 0x58]
  const SIDECAR_VERSION := 1
  const HEADER_LEN := 56
  const SEEK_ENTRY_LEN := 16
  const POSTING_ENTRY_LEN := 40

  // ── encoding ───────────────────────────────────────────────────────────

  function SeekBytes(p: (nat, nat)): (b: Bytes)
    ensures |b| == SEEK_ENTRY_LEN
  {
    ToBytes(p.0, 8) + ToBytes(p.1, 8)
  }

  function PostingBytes(p: Posting): (b: Bytes)
    ensures |b| == POSTING_ENTRY_LEN
  {
    p.stream + (ToBytes(p.first, 8) + (ToBytes(p.last, 8) + ToBytes(p.count, 8)))
  }

  function AllSeeks(ps: seq<(nat, nat)>): (b: Bytes)
    ensures |b| == |ps| * SEEK_ENTRY_LEN
  {
    if ps == [] then [] else SeekBytes(ps[0]) + AllSeeks(ps[1..])
  }

  function AllPostings(ps: seq<Posting>): (b: Bytes)
    ensures |b| == |ps| * POSTING_ENTRY_LEN
  {
    if ps == [] then [] else PostingBytes(ps[0]) + AllPostings(ps[1..])
  }

  function HeaderBytes(s: Sidecar): (b: Bytes)
    ensures |b| == HEADER_LEN
  {
    SIDECAR_MAGIC + (ToBytes(SIDECAR_VERSION, 2) + (ToBytes(0, 2)
    + (ToBytes(s.base, 8) + (ToBytes(s.end, 8) + (ToBytes(FromI64(s.minTs), 8) + (ToBytes(FromI64(s.maxTs), 8)
    + (ToBytes(s.systemFrames, 8) + (ToBytes(|s.seekPoints|, 4) + ToBytes(|s.postings|, 4)))))))))
  }

  function Body(s: Sidecar): Bytes {
    HeaderBytes(s) + (AllSeeks(s.seekPoints) + AllPostings(s.postings))
  }

  function Encoded(s: Sidecar): Bytes {
    Body(s) + ToBytes(Crc.Crc32c(Body(s)), 4)
  }

  // ── decoding ───────────────────────────────────────────────────────────

  function NumberAt(b: Bytes, at: nat, width: nat): nat
    requires at + width <= |b|
  {
    FromBytes(b[at..at + width])
  }

  lemma U64Bound(b: Bytes, at: nat)
    requires at + 8 <= |b|
    ensures NumberAt(b, at, 8) < POSITIONS
  {
    PowersOf256();
  }

  function I64At(b: Bytes, at: nat): i64
    requires at + 8 <= |b|
  {
    U64Bound(b, at);
    ToI64(NumberAt(b, at, 8))
  }

  function SeeksAt(b: Bytes, at: nat, n: nat): (ps: seq<(nat, nat)>)
    requires at + n * SEEK_ENTRY_LEN <= |b|
    ensures |ps| == n
    decreases n
  {
    if n == 0 then []
    else [(NumberAt(b, at, 8), NumberAt(b, at + 8, 8))] + SeeksAt(b, at + SEEK_ENTRY_LEN, n - 1)
  }

  function PostingsAt(b: Bytes, at: nat, n: nat): (ps: seq<Posting>)
    requires at + n * POSTING_ENTRY_LEN <= |b|
    ensures |ps| == n
    decreases n
  {
    if n == 0 then []
    else [Posting(b[at..at + 16], NumberAt(b, at + 16, 8), NumberAt(b, at + 24, 8), NumberAt(b, at + 32, 8))]
         + PostingsAt(b, at + POSTING_ENTRY_LEN, n - 1)
  }

  /** Neighbours in order, as the decoder compares them. */
  predicate NeighboursSorted(seeks: seq<(nat, nat)>, postings: seq<Posting>) {
    && (forall i :: 0 <= i < |seeks| - 1 ==> seeks[i].0 <= seeks[i + 1].0)
    && (forall i :: 0 <= i < |postings| - 1 ==> Lexicographic.Less(postings[i].stream, postings[i + 1].stream))
  }

  /** Any deviation is one and the same error: the caller rebuilds. */
  function Decoded(bytes: Bytes): Result<Sidecar> {
    if |bytes| < HEADER_LEN + 4 then Err(InvalidFormat)
    else
      var body := bytes[..|bytes| - 4];
      if Crc.Crc32c(body) != NumberAt(bytes, |bytes| - 4, 4) then Err(InvalidFormat)
      else if body[0..4] != SIDECAR_MAGIC || NumberAt(body, 4, 2) != SIDECAR_VERSION then Err(InvalidFormat)
      else
        var seeks, postings := NumberAt(body, 48, 4), NumberAt(body, 52, 4);
        if |body| != HEADER_LEN + seeks * SEEK_ENTRY_LEN + postings * POSTING_ENTRY_LEN then Err(InvalidFormat)
        else
          var seekPoints := SeeksAt(body, HEADER_LEN, seeks);
          var entries := PostingsAt(body, HEADER_LEN + seeks * SEEK_ENTRY_LEN, postings);
          if !NeighboursSorted(seekPoints, entries) then Err(InvalidFormat)
          else Ok(Sidecar(NumberAt(body, 8, 8), NumberAt(body, 16, 8), I64At(body, 24), I64At(body, 32), NumberAt(body, 40, 8), seekPoints, entries))
  }

  // ── the round trip ─────────────────────────────────────────────────────

  /** What the engine builds: 64-bit values, 32-bit counts, entries in order. */
  ghost predicate Writable(s: Sidecar) {
    && s.base < POSITIONS && s.end < POSITIONS && s.systemFrames < POSITIONS
    && |s.seekPoints| < 0x1_0000_0000 && |s.postings| < 0x1_0000_0000
    && (forall p :: p in s.seekPoints ==> p.0 < POSITIONS && p.1 < POSITIONS)
    && (forall p :: p in s.postings ==> p.first < POSITIONS && p.last < POSITIONS && p.count < POSITIONS)
    && NeighboursSorted(s.seekPoints, s.postings)
  }

  lemma NumberBack(value: nat, b: Bytes, at: nat, width: nat)
    requires (width == 2 && value < 0x1_0000) || (width == 4 && value < 0x1_0000_0000) || (width == 8 && value < POSITIONS)
    requires at + width <= |b| && b[at..at + width] == ToBytes(value, width)
    ensures NumberAt(b, at, width) == value
  {
    PowersOf256();
    FromToBytes(value, width);
  }

  lemma {:induction false} SeeksBack(prefix: Bytes, ps: seq<(nat, nat)>, suffix: Bytes)
    requires forall p :: p in ps ==> p.0 < POSITIONS && p.1 < POSITIONS
    ensures SeeksAt(prefix + (AllSeeks(ps) + suffix), |prefix|, |ps|) == ps
    decreases |ps|
  {
    hide ToBytes, NumberAt, SeekBytes;
    if ps != [] {
      var b := prefix + (AllSeeks(ps) + suffix);
      assert ps[0] in ps;
      assert AllSeeks(ps) + suffix == SeekBytes(ps[0]) + (AllSeeks(ps[1..]) + suffix);
      NextEntry(prefix, SeekBytes(ps[0]), AllSeeks(ps[1..]) + suffix, b);
      SeekParts(ps[0], b, |prefix|);
      SeeksBack(prefix + SeekBytes(ps[0]), ps[1..], suffix);
    }
  }

  lemma SeekParts(p: (nat, nat), b: Bytes, at: nat)
    requires at + 16 <= |b| && b[at..at + 16] == SeekBytes(p) && p.0 < POSITIONS && p.1 < POSITIONS
    ensures NumberAt(b, at, 8) == p.0 && NumberAt(b, at + 8, 8) == p.1
  {
    hide ToBytes, NumberAt;
    var e := b[at..at + 16];
    SliceOfSlice(b, at, 16, 0, 8);
    SliceOfSlice(b, at, 16, 8, 16);
    assert e[0..8] == ToBytes(p.0, 8) && e[8..16] == ToBytes(p.1, 8);
    NumberBack(p.0, b, at, 8);
    NumberBack(p.1, b, at + 8, 8);
  }

  lemma {:induction false} PostingsBack(prefix: Bytes, ps: seq<Posting>)
    requires forall p :: p in ps ==> p.first < POSITIONS && p.last < POSITIONS && p.count < POSITIONS
    ensures PostingsAt(prefix + AllPostings(ps), |prefix|, |ps|) == ps
    decreases |ps|
  {
    hide ToBytes, NumberAt, PostingBytes;
    if ps != [] {
      var b := prefix + AllPostings(ps);
      var at := |prefix|;
      assert ps[0] in ps;
      NextEntry(prefix, PostingBytes(ps[0]), AllPostings(ps[1..]), b);
      PostingParts(ps[0], b, at);
      PostingsBack(prefix + PostingBytes(ps[0]), ps[1..]);
    }
  }

  lemma NextEntry(prefix: Bytes, entry: Bytes, rest: Bytes, b: Bytes)
    requires b == prefix + (entry + rest)
    ensures b[|prefix|..|prefix| + |entry|] == entry && b == (prefix + entry) + rest
  {
  }

  lemma SliceOfSlice(b: Bytes, at: nat, length: nat, i: nat, j: nat)
    requires at + length <= |b| && i <= j <= length
    ensures b[at..at + length][i..j] == b[at + i..at + j]
  {
    var slice := b[at..at + length];
    forall k | 0 <= k < j - i ensures slice[i..j][k] == b[at + i..at + j][k] {
      assert slice[i + k] == b[at + (i + k)];
    }
  }

  lemma PostingParts(p: Posting, b: Bytes, at: nat)
    requires at + 40 <= |b| && b[at..at + 40] == PostingBytes(p) && p.first < POSITIONS && p.last < POSITIONS && p.count < POSITIONS
    ensures b[at..at + 16] == p.stream
    ensures NumberAt(b, at + 16, 8) == p.first && NumberAt(b, at + 24, 8) == p.last && NumberAt(b, at + 32, 8) == p.count
  {
    hide ToBytes, NumberAt;
    var e := b[at..at + 40];
    SliceOfSlice(b, at, 40, 0, 16);
    SliceOfSlice(b, at, 40, 16, 24);
    SliceOfSlice(b, at, 40, 24, 32);
    SliceOfSlice(b, at, 40, 32, 40);
    assert e[16..24] == ToBytes(p.first, 8) && e[24..32] == ToBytes(p.last, 8) && e[32..40] == ToBytes(p.count, 8);
    NumberBack(p.first, b, at + 16, 8);
    NumberBack(p.last, b, at + 24, 8);
    NumberBack(p.count, b, at + 32, 8);
  }

  lemma HeaderParts(s: Sidecar, h: Bytes)
    requires Writable(s) && h == HeaderBytes(s)
    ensures h[0..4] == SIDECAR_MAGIC && NumberAt(h, 4, 2) == SIDECAR_VERSION
    ensures NumberAt(h, 8, 8) == s.base && NumberAt(h, 16, 8) == s.end
    ensures I64At(h, 24) == s.minTs && I64At(h, 32) == s.maxTs && NumberAt(h, 40, 8) == s.systemFrames
    ensures NumberAt(h, 48, 4) == |s.seekPoints| && NumberAt(h, 52, 4) == |s.postings|
  {
    hide ToBytes, NumberAt;
    NumberBack(SIDECAR_VERSION, h, 4, 2);
    NumberBack(s.base, h, 8, 8);
    NumberBack(s.end, h, 16, 8);
    NumberBack(FromI64(s.minTs), h, 24, 8);
    NumberBack(FromI64(s.maxTs), h, 32, 8);
    NumberBack(s.systemFrames, h, 40, 8);
    NumberBack(|s.seekPoints|, h, 48, 4);
    NumberBack(|s.postings|, h, 52, 4);
  }

  lemma NumberInPrefix(h: Bytes, rest: Bytes, at: nat, width: nat)
    requires at + width <= |h|
    ensures NumberAt(h + rest, at, width) == NumberAt(h, at, width)
  {
    assert (h + rest)[at..at + width] == h[at..at + width];
  }

  /** ROUND TRIP: what was written is read back. */
  lemma SidecarRoundTrip(s: Sidecar)
    requires Writable(s)
    ensures Decoded(Encoded(s)) == Ok(s)
  {
    hide ToBytes, NumberAt, HeaderBytes, AllSeeks, AllPostings, SeeksAt, PostingsAt, Crc.Crc32c, NeighboursSorted;
    var h, rest := HeaderBytes(s), AllSeeks(s.seekPoints) + AllPostings(s.postings);
    var body, bytes := Body(s), Encoded(s);
    assert bytes[..|bytes| - 4] == body;
    NumberBack(Crc.Crc32c(body), bytes, |bytes| - 4, 4);
    HeaderParts(s, h);
    assert body[0..4] == h[0..4];
    NumberInPrefix(h, rest, 4, 2);
    NumberInPrefix(h, rest, 8, 8);
    NumberInPrefix(h, rest, 16, 8);
    NumberInPrefix(h, rest, 24, 8);
    NumberInPrefix(h, rest, 32, 8);
    NumberInPrefix(h, rest, 40, 8);
    NumberInPrefix(h, rest, 48, 4);
    NumberInPrefix(h, rest, 52, 4);
    SeeksBack(h, s.seekPoints, AllPostings(s.postings));
    PostingsBack(h + AllSeeks(s.seekPoints), s.postings);
    assert body == (h + AllSeeks(s.seekPoints)) + AllPostings(s.postings);
  }

  // ── what is accepted ───────────────────────────────────────────────────

  lemma NumberIsBytes(b: Bytes, at: nat, width: nat)
    requires at + width <= |b|
    ensures ToBytes(NumberAt(b, at, width), width) == b[at..at + width]
  {
    ToFromBytes(b[at..at + width]);
  }

  lemma Joined(b: Bytes, i: nat, j: nat, k: nat)
    requires i <= j <= k <= |b|
    ensures b[i..j] + b[j..k] == b[i..k]
  {
  }

  lemma {:induction false} SeeksAreBytes(b: Bytes, at: nat, n: nat)
    requires at + n * SEEK_ENTRY_LEN <= |b|
    ensures AllSeeks(SeeksAt(b, at, n)) == b[at..at + n * SEEK_ENTRY_LEN]
    ensures forall p :: p in SeeksAt(b, at, n) ==> p.0 < POSITIONS && p.1 < POSITIONS
    decreases n
  {
    hide ToBytes, NumberAt;
    if n > 0 {
      NumberIsBytes(b, at, 8);
      NumberIsBytes(b, at + 8, 8);
      U64Bound(b, at);
      U64Bound(b, at + 8);
      SeeksAreBytes(b, at + SEEK_ENTRY_LEN, n - 1);
      var p := (NumberAt(b, at, 8), NumberAt(b, at + 8, 8));
      Joined(b, at, at + 8, at + 16);
      assert SeekBytes(p) == b[at..at + 16];
      Joined(b, at, at + 16, at + n * SEEK_ENTRY_LEN);
      assert ([p] + SeeksAt(b, at + 16, n - 1))[1..] == SeeksAt(b, at + 16, n - 1);
    }
  }

  lemma {:induction false} PostingsAreBytes(b: Bytes, at: nat, n: nat)
    requires at + n * POSTING_ENTRY_LEN <= |b|
    ensures AllPostings(PostingsAt(b, at, n)) == b[at..at + n * POSTING_ENTRY_LEN]
    ensures forall p :: p in PostingsAt(b, at, n) ==> p.first < POSITIONS && p.last < POSITIONS && p.count < POSITIONS
    decreases n
  {
    hide ToBytes, NumberAt;
    if n > 0 {
      NumberIsBytes(b, at + 16, 8);
      NumberIsBytes(b, at + 24, 8);
      NumberIsBytes(b, at + 32, 8);
      U64Bound(b, at + 16);
      U64Bound(b, at + 24);
      U64Bound(b, at + 32);
      PostingsAreBytes(b, at + POSTING_ENTRY_LEN, n - 1);
      var p := Posting(b[at..at + 16], NumberAt(b, at + 16, 8), NumberAt(b, at + 24, 8), NumberAt(b, at + 32, 8));
      Joined(b, at + 24, at + 32, at + 40);
      Joined(b, at + 16, at + 24, at + 40);
      Joined(b, at, at + 16, at + 40);
      assert PostingBytes(p) == b[at..at + 40];
      Joined(b, at, at + 40, at + n * POSTING_ENTRY_LEN);
      assert ([p] + PostingsAt(b, at + 40, n - 1))[1..] == PostingsAt(b, at + 40, n - 1);
    }
  }

  /** STRICT: whatever is accepted is in order and in range, and was written from it: but for
      two reserved bytes, the body is the encoding of the sidecar it decodes to. */
  lemma AcceptedIsWritten(bytes: Bytes)
    requires Decoded(bytes).Ok?
    ensures Writable(Decoded(bytes).value)
    ensures var body := bytes[..|bytes| - 4]; var written := Body(Decoded(bytes).value);
      |body| == |written| && body[..6] == written[..6] && body[8..] == written[8..]
  {
    hide ToBytes, NumberAt, AllSeeks, AllPostings, SeeksAt, PostingsAt, Crc.Crc32c, NeighboursSorted, I64At;
    var s, body := Decoded(bytes).value, bytes[..|bytes| - 4];
    var seeks, postings := |s.seekPoints|, |s.postings|;
    SeeksAreBytes(body, HEADER_LEN, seeks);
    PostingsAreBytes(body, HEADER_LEN + seeks * SEEK_ENTRY_LEN, postings);
    HeaderIsBytes(body, s);
    var h := HeaderBytes(s);
    var mid := HEADER_LEN + seeks * SEEK_ENTRY_LEN;
    assert body[HEADER_LEN..mid] + body[mid..] == body[HEADER_LEN..];
    assert body[mid..mid + postings * POSTING_ENTRY_LEN] == body[mid..];
    assert Body(s) == h + body[HEADER_LEN..];
    assert body[8..] == body[8..HEADER_LEN] + body[HEADER_LEN..];
    assert Body(s)[8..] == h[8..] + body[HEADER_LEN..];
  }

  lemma HeaderIsBytes(b: Bytes, s: Sidecar)
    requires |b| >= HEADER_LEN && b[0..4] == SIDECAR_MAGIC && NumberAt(b, 4, 2) == SIDECAR_VERSION
    requires s.base == NumberAt(b, 8, 8) && s.end == NumberAt(b, 16, 8) && s.minTs == I64At(b, 24) && s.maxTs == I64At(b, 32)
    requires s.systemFrames == NumberAt(b, 40, 8) && |s.seekPoints| == NumberAt(b, 48, 4) && |s.postings| == NumberAt(b, 52, 4)
    ensures HeaderBytes(s)[..6] == b[..6] && HeaderBytes(s)[8..] == b[8..HEADER_LEN]
    ensures s.base < POSITIONS && s.end < POSITIONS && s.systemFrames < POSITIONS
    ensures |s.seekPoints| < 0x1_0000_0000 && |s.postings| < 0x1_0000_0000
  {
    hide ToBytes, NumberAt;
    SmallNumber(b, 48);
    SmallNumber(b, 52);
    U64Bound(b, 8);
    U64Bound(b, 16);
    U64Bound(b, 24);
    U64Bound(b, 32);
    U64Bound(b, 40);
    NumberIsBytes(b, 4, 2);
    NumberIsBytes(b, 8, 8);
    NumberIsBytes(b, 16, 8);
    NumberIsBytes(b, 24, 8);
    NumberIsBytes(b, 32, 8);
    NumberIsBytes(b, 40, 8);
    NumberIsBytes(b, 48, 4);
    NumberIsBytes(b, 52, 4);
    assert FromI64(s.minTs) == NumberAt(b, 24, 8) && FromI64(s.maxTs) == NumberAt(b, 32, 8);
    Joined(b, 0, 4, 6);
    Joined(b, 48, 52, 56);
    Joined(b, 40, 48, 56);
    Joined(b, 32, 40, 56);
    Joined(b, 24, 32, 56);
    Joined(b, 16, 24, 56);
    Joined(b, 8, 16, 56);
    var front, back := SIDECAR_MAGIC + ToBytes(SIDECAR_VERSION, 2), b[8..56];
    assert front == b[0..6] == b[..6];
    assert HeaderBytes(s) == front + (ToBytes(0, 2) + back);
    assert (front + (ToBytes(0, 2) + back))[..6] == front && (front + (ToBytes(0, 2) + back))[8..] == back;
  }

  lemma SmallNumber(b: Bytes, at: nat)
    requires at + 4 <= |b|
    ensures NumberAt(b, at, 4) < 0x1_0000_0000
  {
    PowersOf256();
  }

  /** A DAMAGED SIDECAR IS DISCARDED: change any one byte of an accepted file and it is refused. */
  lemma DamagedSidecarIsRefused(bytes: Bytes, other: Bytes, i: nat)
    requires Decoded(bytes).Ok? && OneByteOff(bytes, other, i)
    ensures Decoded(other).Err?
  {
    hide NumberAt, SeeksAt, PostingsAt, Crc.Crc32c, NeighboursSorted, I64At;
    var n := |bytes| - 4;
    var body, changed := bytes[..n], other[..n];
    SameBut(bytes, other, i);
    if i < n {
      assert body == body[..i] + [body[i]] + body[i + 1..];
      assert changed == body[..i] + [changed[i]] + body[i + 1..];
      CrcTells(body[..i], body[i], changed[i], body[i + 1..]);
      assert bytes[n..n + 4] == other[n..n + 4];
      SameNumber(bytes, other, n);
    } else {
      assert body == changed;
      NumberIsBytes(bytes, n, 4);
      NumberIsBytes(other, n, 4);
      assert bytes[n..n + 4][i - n] != other[n..n + 4][i - n];
    }
  }

  lemma SameNumber(a: Bytes, b: Bytes, at: nat)
    requires at + 4 <= |a| == |b| && a[at..at + 4] == b[at..at + 4]
    ensures NumberAt(a, at, 4) == NumberAt(b, at, 4)
  {
  }

  lemma CrcTells(a: Bytes, x: byte, y: byte, b: Bytes)
    requires x != y
    ensures Crc.Crc32c(a + [x] + b) != Crc.Crc32c(a + [y] + b)
  {
    hide Crc.Update;
    if Crc.Crc32c(a + [x] + b) == Crc.Crc32c(a + [y] + b) {
      Crc.OneByteTells(Crc.ALL_ONES, a, x, y, b);
    }
  }

  // ── the loops ──────────────────────────────────────────────────────────

  lemma {:induction false} SeeksSnoc(ps: seq<(nat, nat)>, p: (nat, nat))
    ensures AllSeeks(ps + [p]) == AllSeeks(ps) + SeekBytes(p)
    decreases |ps|
  {
    hide SeekBytes;
    if ps == [] {
      assert [p][1..] == [];
    } else {
      assert (ps + [p])[1..] == ps[1..] + [p];
      SeeksSnoc(ps[1..], p);
    }
  }

  lemma {:induction false} PostingsSnoc(ps: seq<Posting>, p: Posting)
    ensures AllPostings(ps + [p]) == AllPostings(ps) + PostingBytes(p)
    decreases |ps|
  {
    hide PostingBytes;
    if ps == [] {
      assert [p][1..] == [];
    } else {
      assert (ps + [p])[1..] == ps[1..] + [p];
      PostingsSnoc(ps[1..], p);
    }
  }

  method Encode(s: Sidecar) returns (out: Bytes)
    ensures out == Encoded(s)
  {
    hide ToBytes, SeekBytes, PostingBytes;
    out := HeaderBytes(s);
    for i := 0 to |s.seekPoints|
      invariant out == HeaderBytes(s) + AllSeeks(s.seekPoints[..i])
    {
      SeeksSnoc(s.seekPoints[..i], s.seekPoints[i]);
      assert s.seekPoints[..i + 1] == s.seekPoints[..i] + [s.seekPoints[i]];
      out := out + SeekBytes(s.seekPoints[i]);
    }
    assert s.seekPoints[..|s.seekPoints|] == s.seekPoints;
    for i := 0 to |s.postings|
      invariant out == HeaderBytes(s) + (AllSeeks(s.seekPoints) + AllPostings(s.postings[..i]))
    {
      PostingsSnoc(s.postings[..i], s.postings[i]);
      assert s.postings[..i + 1] == s.postings[..i] + [s.postings[i]];
      out := out + PostingBytes(s.postings[i]);
    }
    assert s.postings[..|s.postings|] == s.postings;
    out := out + ToBytes(Crc.Crc32c(out), 4);
  }

  method Decode(bytes: Bytes) returns (r: Result<Sidecar>)
    ensures r == Decoded(bytes)
  {
    hide NumberAt, Lexicographic.Less, Crc.Crc32c;
    if |bytes| < HEADER_LEN + 4 {
      return Err(InvalidFormat);
    }
    var body := bytes[..|bytes| - 4];
    if Crc.Crc32c(body) != NumberAt(bytes, |bytes| - 4, 4) {
      return Err(InvalidFormat);
    }
    if body[0..4] != SIDECAR_MAGIC {
      return Err(InvalidFormat);
    }
    if NumberAt(body, 4, 2) != SIDECAR_VERSION {
      return Err(InvalidFormat);
    }
    var seekCount, postingCount := NumberAt(body, 48, 4), NumberAt(body, 52, 4);
    if |body| != HEADER_LEN + seekCount * SEEK_ENTRY_LEN + postingCount * POSTING_ENTRY_LEN {
      return Err(InvalidFormat);
    }
    var seeks, at := ReadSeeks(body, HEADER_LEN, seekCount);
    var postings := ReadPostings(body, at, postingCount);
    if !NeighboursSorted(seeks, postings) {
      return Err(InvalidFormat);
    }
    return Ok(Sidecar(NumberAt(body, 8, 8), NumberAt(body, 16, 8), I64At(body, 24), I64At(body, 32), NumberAt(body, 40, 8), seeks, postings));
  }

  lemma SeeksStep(b: Bytes, at: nat, n: nat)
    requires 0 < n && at + n * SEEK_ENTRY_LEN <= |b|
    ensures SeeksAt(b, at, n) == [(NumberAt(b, at, 8), NumberAt(b, at + 8, 8))] + SeeksAt(b, at + SEEK_ENTRY_LEN, n - 1)
  {
  }

  lemma PostingsStep(b: Bytes, at: nat, n: nat)
    requires 0 < n && at + n * POSTING_ENTRY_LEN <= |b|
    ensures PostingsAt(b, at, n) ==
            [Posting(b[at..at + 16], NumberAt(b, at + 16, 8), NumberAt(b, at + 24, 8), NumberAt(b, at + 32, 8))]
            + PostingsAt(b, at + POSTING_ENTRY_LEN, n - 1)
  {
  }

  method ReadSeeks(body: Bytes, from: nat, n: nat) returns (seeks: seq<(nat, nat)>, at: nat)
    requires from + n * SEEK_ENTRY_LEN <= |body|
    ensures seeks == SeeksAt(body, from, n) && at == from + n * SEEK_ENTRY_LEN
  {
    hide NumberAt, SeeksAt;
    seeks, at := [], from;
    while |seeks| < n
      invariant |seeks| <= n && at == from + |seeks| * SEEK_ENTRY_LEN
      invariant SeeksAt(body, from, n) == seeks + SeeksAt(body, at, n - |seeks|)
    {
      SeeksStep(body, at, n - |seeks|);
      seeks := seeks + [(NumberAt(body, at, 8), NumberAt(body, at + 8, 8))];
      at := at + SEEK_ENTRY_LEN;
    }
  }

  method ReadPostings(body: Bytes, from: nat, n: nat) returns (postings: seq<Posting>)
    requires from + n * POSTING_ENTRY_LEN <= |body|
    ensures postings == PostingsAt(body, from, n)
  {
    hide NumberAt, PostingsAt;
    var at := from;
    postings := [];
    while |postings| < n
      invariant |postings| <= n && at == from + |postings| * POSTING_ENTRY_LEN
      invariant PostingsAt(body, from, n) == postings + PostingsAt(body, at, n - |postings|)
    {
      PostingsStep(body, at, n - |postings|);
      postings := postings + [Posting(body[at..at + 16], NumberAt(body, at + 16, 8), NumberAt(body, at + 24, 8), NumberAt(body, at + 32, 8))];
      at := at + POSTING_ENTRY_LEN;
    }
  }
}
