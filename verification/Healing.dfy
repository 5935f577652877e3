/** Lazy partition healing: partitions of a key index catch up one by one, from empty or
    from a snapshot, against one in-order replay of the same timeline. */
module Healing {
  import opened Base
  import opened Format
  import opened ReadPlan
  import opened LittleEndian

  // ── the index ──────────────────────────────────────────────────────────

  /** What decoding a record yields: nothing for this index, a row under a key, or a failure. */
  datatype Reading = Ignored | Put(key: Bytes) | Broken

  type Reader = Record -> Reading

  /** Rows by key, and the stream each row came from. */
  datatype Index = Index(rows: map<Bytes, Bytes>, streams: map<Bytes, Id>)

  const EMPTY_INDEX := Index(map[], map[])

  function Applied(reading: Reader, x: Index, r: Record): Index {
    match reading(r)
    case Put(key) => Index(x.rows[key := r.payload], x.streams[key := r.envelope.streamId])
    case _ => x
  }

  /** Apply in order, stopping at the first failure. */
  datatype Outcome = Outcome(index: Index, failed: bool)

  function AppliedAll(reading: Reader, x: Index, rs: seq<Record>): Outcome
    decreases |rs|
  {
    if rs == [] then Outcome(x, false)
    else
      var before := AppliedAll(reading, x, rs[..|rs| - 1]);
      if before.failed then before
      else if reading(rs[|rs| - 1]).Broken? then Outcome(before.index, true)
      else Outcome(Applied(reading, before.index, rs[|rs| - 1]), false)
  }

  function RowAt(x: Index, key: Bytes): Option<Bytes> {
    if key in x.rows then Some(x.rows[key]) else None
  }

  function StreamAt(x: Index, key: Bytes): Option<Id> {
    if key in x.streams then Some(x.streams[key]) else None
  }

  predicate Puts(reading: Reader, r: Record, key: Bytes) {
    reading(r) == Put(key)
  }

  /** The last record that writes a key. */
  function LastPut(reading: Reader, rs: seq<Record>, key: Bytes): (last: Option<Record>)
    ensures last.Some? ==> last.value in rs && Puts(reading, last.value, key)
    ensures last.None? ==> forall r :: r in rs ==> !Puts(reading, r, key)
    decreases |rs|
  {
    if rs == [] then None
    else if Puts(reading, rs[|rs| - 1], key) then Some(rs[|rs| - 1])
    else LastPut(reading, rs[..|rs| - 1], key)
  }

  predicate NoneBroken(reading: Reader, rs: seq<Record>) {
    forall i :: 0 <= i < |rs| ==> !reading(rs[i]).Broken?
  }

  /** Replaying without failure leaves every key at its last write. */
  lemma {:induction false} AppliedIsLastPut(reading: Reader, x: Index, rs: seq<Record>, key: Bytes)
    ensures AppliedAll(reading, x, rs).failed <==> !NoneBroken(reading, rs)
    ensures var y, last := AppliedAll(reading, x, rs).index, LastPut(reading, rs, key);
      !AppliedAll(reading, x, rs).failed ==>
        && RowAt(y, key) == (if last.Some? then Some(last.value.payload) else RowAt(x, key))
        && StreamAt(y, key) == (if last.Some? then Some(last.value.envelope.streamId) else StreamAt(x, key))
    decreases |rs|
  {
    if rs != [] {
      var shorter := rs[..|rs| - 1];
      AppliedIsLastPut(reading, x, shorter, key);
      assert NoneBroken(reading, rs) <==> NoneBroken(reading, shorter) && !reading(rs[|rs| - 1]).Broken?;
    }
  }

  /** Even a failed replay touches only keys its records write, with their streams. */
  lemma {:induction false} AppliedTouches(reading: Reader, x: Index, rs: seq<Record>, key: Bytes)
    ensures var y := AppliedAll(reading, x, rs).index;
      || (RowAt(y, key) == RowAt(x, key) && StreamAt(y, key) == StreamAt(x, key))
      || (exists i :: 0 <= i < |rs| && Puts(reading, rs[i], key)
            && RowAt(y, key) == Some(rs[i].payload) && StreamAt(y, key) == Some(rs[i].envelope.streamId))
    decreases |rs|
  {
    if rs != [] {
      var shorter := rs[..|rs| - 1];
      AppliedTouches(reading, x, shorter, key);
      var y := AppliedAll(reading, x, rs).index;
      if Puts(reading, rs[|rs| - 1], key) && !AppliedAll(reading, x, shorter).failed {
        assert RowAt(y, key) == Some(rs[|rs| - 1].payload);
      } else {
        assert RowAt(y, key) == RowAt(AppliedAll(reading, x, shorter).index, key);
        assert forall i :: 0 <= i < |shorter| ==> shorter[i] == rs[i];
      }
    }
  }

  lemma {:induction false} LastPutConcat(reading: Reader, a: seq<Record>, b: seq<Record>, key: Bytes)
    ensures LastPut(reading, a + b, key) == if LastPut(reading, b, key).Some? then LastPut(reading, b, key) else LastPut(reading, a, key)
    decreases |b|
  {
    if b == [] {
      assert a + b == a;
    } else {
      assert (a + b)[..|a + b| - 1] == a + b[..|b| - 1];
      LastPutConcat(reading, a, b[..|b| - 1], key);
    }
  }

  // ── partitions of a timeline ───────────────────────────────────────────

  predicate InPartition(count: nat, p: nat, r: Record)
    requires count > 0
  {
    PartitionOf(r.envelope.streamId, count) == p
  }

  /** A partition's records in `[from, until)`, in order. */
  function Part(h: seq<Record>, count: nat, p: nat, from: nat, until: nat): seq<Record>
    requires count > 0
    decreases |h|
  {
    if h == [] then []
    else
      var r := h[|h| - 1];
      Part(h[..|h| - 1], count, p, from, until) + if InPartition(count, p, r) && from <= r.position < until then [r] else []
  }

  ghost predicate Ascending(h: seq<Record>, head: nat) {
    && (forall i :: 0 <= i < |h| ==> h[i].position < head)
    && (forall i, j :: 0 <= i < j < |h| ==> h[i].position < h[j].position)
  }

  lemma {:induction false} PartMembers(h: seq<Record>, count: nat, p: nat, from: nat, until: nat)
    requires count > 0
    ensures forall r :: r in Part(h, count, p, from, until) <==> r in h && InPartition(count, p, r) && from <= r.position < until
    decreases |h|
  {
    if h != [] {
      PartMembers(h[..|h| - 1], count, p, from, until);
      assert h == h[..|h| - 1] + [h[|h| - 1]];
    }
  }

  /** Below and from a cursor: together the partition's records up to the head. */
  lemma {:induction false} PartSplits(h: seq<Record>, count: nat, p: nat, at: nat, head: nat)
    requires count > 0 && Ascending(h, head) && at <= head
    ensures Part(h, count, p, 0, head) == Part(h, count, p, 0, at) + Part(h, count, p, at, head)
    ensures h != [] && h[|h| - 1].position < at ==> Part(h, count, p, at, head) == []
    decreases |h|
  {
    if h != [] {
      var shorter := h[..|h| - 1];
      PartSplits(shorter, count, p, at, head);
      assert shorter != [] ==> shorter[|shorter| - 1].position < h[|h| - 1].position;
      if h[|h| - 1].position < at {
        assert Part(shorter, count, p, at, head) == [];
      }
    }
  }

  /** The last write of a key by anyone is the last write in its partition. */
  lemma {:induction false} LastPutOfPart(reading: Reader, h: seq<Record>, count: nat, p: nat, head: nat, key: Bytes)
    requires count > 0 && Ascending(h, head)
    requires forall r :: r in h && Puts(reading, r, key) ==> InPartition(count, p, r)
    ensures LastPut(reading, h, key) == LastPut(reading, Part(h, count, p, 0, head), key)
    decreases |h|
  {
    hide InPartition, Puts, LastPut;
    if h != [] {
      var shorter, r := h[..|h| - 1], h[|h| - 1];
      assert h == shorter + [r] && r in h && r.position < head;
      assert forall x :: x in shorter ==> x in h;
      LastPutOfPart(reading, shorter, count, p, head, key);
      LastPutSnoc(reading, shorter, r, key);
      LastPutSnoc(reading, Part(shorter, count, p, 0, head), r, key);
      assert InPartition(count, p, r) ==> Part(h, count, p, 0, head) == Part(shorter, count, p, 0, head) + [r];
      assert !InPartition(count, p, r) ==> Part(h, count, p, 0, head) == Part(shorter, count, p, 0, head);
    } else {
      NothingPut(reading, key);
    }
  }

  lemma NothingPut(reading: Reader, key: Bytes)
    ensures LastPut(reading, [], key) == None
  {
  }

  lemma LastPutSnoc(reading: Reader, rs: seq<Record>, r: Record, key: Bytes)
    ensures LastPut(reading, rs + [r], key) == if Puts(reading, r, key) then Some(r) else LastPut(reading, rs, key)
  {
    assert (rs + [r])[..|rs|] == rs;
  }

  /** A longer timeline shows the same records below the old head. */
  lemma {:induction false} PartOfLonger(h: seq<Record>, more: seq<Record>, count: nat, p: nat, from: nat, until: nat)
    requires count > 0 && forall r :: r in more ==> r.position >= until
    ensures Part(h + more, count, p, from, until) == Part(h, count, p, from, until)
    decreases |more|
  {
    if more == [] {
      assert h + more == h;
    } else {
      assert (h + more)[..|h + more| - 1] == h + more[..|more| - 1];
      PartOfLonger(h, more[..|more| - 1], count, p, from, until);
    }
  }

  // ── healing ────────────────────────────────────────────────────────────

  datatype Status = Cold(at: nat) | Ready(at: nat) | Stale(at: nat) | Failed(at: nat)

  datatype Query = Query(index: Index, partitions: seq<Status>)

  /** One partition's rows as of a position. */
  datatype Snapshot = Snapshot(at: nat, rows: map<Bytes, (Id, Bytes)>)

  function ColdQuery(count: nat): Query {
    Query(EMPTY_INDEX, seq(count, i => Cold(0)))
  }

  predicate Serving(s: Status) {
    s.Cold? || s.Ready?
  }

  /** Bring one partition to the head; `delta` are its records from the cursor on. */
  function Healed(reading: Reader, q: Query, p: nat, head: nat, delta: seq<Record>): Query
    requires p < |q.partitions|
  {
    var start := q.partitions[p].at;
    if !Serving(q.partitions[p]) then q
    else if start >= head then q.(partitions := q.partitions[p := Ready(head)])
    else
      var outcome := AppliedAll(reading, q.index, delta);
      Query(outcome.index, q.partitions[p := if outcome.failed then Failed(start) else Ready(head)])
  }

  /** A cold partition adopts a snapshot's rows and position. */
  function Restored(q: Query, p: nat, s: Snapshot): Query
    requires p < |q.partitions|
  {
    if !q.partitions[p].Cold? then q
    else
      Query(Index(q.index.rows + (map k | k in s.rows :: s.rows[k].1), q.index.streams + (map k | k in s.rows :: s.rows[k].0)),
            q.partitions[p := Ready(s.at)])
  }

  /** The rows of one partition, by the stream each came from. */
  function Checkpointed(x: Index, count: nat, p: nat): map<Bytes, (Id, Bytes)>
    requires count > 0
  {
    map k | k in x.rows && k in x.streams && PartitionOf(x.streams[k], count) == p :: (x.streams[k], x.rows[k])
  }

  // ── what healing keeps ─────────────────────────────────────────────────

  /** No key is written from two partitions. */
  ghost predicate OwnedKeys(reading: Reader, h: seq<Record>, count: nat)
    requires count > 0
  {
    forall r, s, key :: r in h && s in h && Puts(reading, r, key) && Puts(reading, s, key) ==>
      PartitionOf(r.envelope.streamId, count) == PartitionOf(s.envelope.streamId, count)
  }

  ghost predicate Writes(reading: Reader, h: seq<Record>, count: nat, p: nat, key: Bytes)
    requires count > 0
  {
    exists r :: r in h && Puts(reading, r, key) && InPartition(count, p, r)
  }

  /** Every row was written by some record, whose stream is the one noted. */
  ghost predicate Sourced(reading: Reader, h: seq<Record>, x: Index) {
    && x.rows.Keys == x.streams.Keys
    && forall key :: key in x.rows ==> exists r :: r in h && Puts(reading, r, key) && r.envelope.streamId == x.streams[key]
  }

  ghost predicate EntryIs(x: Index, key: Bytes, last: Option<Record>) {
    && RowAt(x, key) == (if last.Some? then Some(last.value.payload) else None)
    && StreamAt(x, key) == (if last.Some? then Some(last.value.envelope.streamId) else None)
  }

  /** A serving partition's keys are at their last write below its cursor. */
  ghost predicate Tracked(reading: Reader, h: seq<Record>, head: nat, q: Query, p: nat)
    requires p < |q.partitions|
  {
    Serving(q.partitions[p]) ==>
      && q.partitions[p].at <= head
      && NoneBroken(reading, Part(h, |q.partitions|, p, 0, q.partitions[p].at))
      && forall key :: Writes(reading, h, |q.partitions|, p, key) ==>
           EntryIs(q.index, key, LastPut(reading, Part(h, |q.partitions|, p, 0, q.partitions[p].at), key))
  }

  ghost predicate HealInv(reading: Reader, h: seq<Record>, head: nat, q: Query) {
    && q.partitions != [] && Ascending(h, head) && OwnedKeys(reading, h, |q.partitions|) && Sourced(reading, h, q.index)
    && forall p :: 0 <= p < |q.partitions| ==> Tracked(reading, h, head, q, p)
  }

  /** A snapshot of the same timeline: each of the partition's keys at its last write. */
  ghost predicate SnapshotOf(reading: Reader, h: seq<Record>, head: nat, count: nat, p: nat, s: Snapshot)
    requires count > 0
  {
    && s.at <= head && NoneBroken(reading, Part(h, count, p, 0, s.at))
    && forall key :: if LastPut(reading, Part(h, count, p, 0, s.at), key).Some?
                     then key in s.rows && s.rows[key] == EntryOf(LastPut(reading, Part(h, count, p, 0, s.at), key).value)
                     else key !in s.rows
  }

  function EntryOf(r: Record): (Id, Bytes) {
    (r.envelope.streamId, r.payload)
  }

  lemma {:induction false} ColdIsInv(reading: Reader, count: nat)
    requires count > 0
    ensures HealInv(reading, [], 0, ColdQuery(count))
  {
  }

  // ── steps ──────────────────────────────────────────────────────────────

  lemma HealedIndexTracks(reading: Reader, h: seq<Record>, head: nat, q: Query, p: nat, key: Bytes)
    requires HealInv(reading, h, head, q) && p < |q.partitions| && Serving(q.partitions[p]) && q.partitions[p].at < head
    requires Writes(reading, h, |q.partitions|, p, key)
    ensures var delta := Part(h, |q.partitions|, p, q.partitions[p].at, head);
      !AppliedAll(reading, q.index, delta).failed ==>
        EntryIs(AppliedAll(reading, q.index, delta).index, key, LastPut(reading, Part(h, |q.partitions|, p, 0, head), key))
  {
    hide Part, LastPut, Ascending, OwnedKeys, Sourced, AppliedAll, NoneBroken, Writes;
    var n, at := |q.partitions|, q.partitions[p].at;
    assert Tracked(reading, h, head, q, p);
    PartSplits(h, n, p, at, head);
    LastPutConcat(reading, Part(h, n, p, 0, at), Part(h, n, p, at, head), key);
    AppliedIsLastPut(reading, q.index, Part(h, n, p, at, head), key);
  }

  lemma NoneBrokenConcat(reading: Reader, a: seq<Record>, b: seq<Record>)
    ensures NoneBroken(reading, a + b) <==> NoneBroken(reading, a) && NoneBroken(reading, b)
  {
    forall i | 0 <= i < |b| ensures (a + b)[|a| + i] == b[i] {
    }
    forall i | 0 <= i < |a| ensures (a + b)[i] == a[i] {
    }
  }

  /** Healing one partition leaves the keys of the others alone. */
  lemma HealedLeavesOthers(reading: Reader, h: seq<Record>, head: nat, q: Query, p: nat, other: nat, key: Bytes)
    requires HealInv(reading, h, head, q) && p < |q.partitions| && other < |q.partitions| && other != p
    requires Writes(reading, h, |q.partitions|, other, key)
    ensures var y := AppliedAll(reading, q.index, Part(h, |q.partitions|, p, q.partitions[p].at, head)).index;
      RowAt(y, key) == RowAt(q.index, key) && StreamAt(y, key) == StreamAt(q.index, key)
  {
    hide Part, AppliedAll, Tracked, Sourced, Ascending, Puts;
    var n := |q.partitions|;
    var delta := Part(h, n, p, q.partitions[p].at, head);
    AppliedTouches(reading, q.index, delta, key);
    PartMembers(h, n, p, q.partitions[p].at, head);
    var w :| w in h && Puts(reading, w, key) && InPartition(n, other, w);
    forall i | 0 <= i < |delta| ensures !Puts(reading, delta[i], key) {
      assert delta[i] in delta;
    }
  }

  lemma HealedIsSourced(reading: Reader, h: seq<Record>, x: Index, delta: seq<Record>)
    requires Sourced(reading, h, x) && forall r :: r in delta ==> r in h
    ensures Sourced(reading, h, AppliedAll(reading, x, delta).index)
  {
    hide AppliedAll, Puts;
    var y := AppliedAll(reading, x, delta).index;
    forall key | key in y.rows || key in y.streams
      ensures key in y.rows && key in y.streams
      ensures exists r :: r in h && Puts(reading, r, key) && r.envelope.streamId == y.streams[key]
    {
      AppliedTouches(reading, x, delta, key);
      if i :| 0 <= i < |delta| && Puts(reading, delta[i], key)
              && RowAt(y, key) == Some(delta[i].payload) && StreamAt(y, key) == Some(delta[i].envelope.streamId) {
        assert delta[i] in h;
      } else {
        assert key in x.rows.Keys && x.rows.Keys == x.streams.Keys;
      }
    }
  }

  /** HEALING one partition keeps every partition on track, even if it fails half way. */
  lemma HealKeeps(reading: Reader, h: seq<Record>, head: nat, q: Query, p: nat)
    requires HealInv(reading, h, head, q) && p < |q.partitions|
    ensures HealInv(reading, h, head, Healed(reading, q, p, head, Part(h, |q.partitions|, p, q.partitions[p].at, head)))
  {
    hide Part, AppliedAll, Ascending, OwnedKeys, Sourced, LastPut, NoneBroken, EntryIs, Writes;
    var n, at := |q.partitions|, q.partitions[p].at;
    var delta := Part(h, n, p, at, head);
    var next := Healed(reading, q, p, head, delta);
    assert Tracked(reading, h, head, q, p);
    PartMembers(h, n, p, at, head);
    if Serving(q.partitions[p]) && at < head {
      PartSplits(h, n, p, at, head);
      NoneBrokenConcat(reading, Part(h, n, p, 0, at), delta);
      HealedIsSourced(reading, h, q.index, delta);
      AppliedIsLastPut(reading, q.index, delta, []);
      forall key | Writes(reading, h, n, p, key)
        ensures !AppliedAll(reading, q.index, delta).failed ==> EntryIs(next.index, key, LastPut(reading, Part(h, n, p, 0, head), key))
      {
        HealedIndexTracks(reading, h, head, q, p, key);
      }
      forall other, key | 0 <= other < n && other != p && Writes(reading, h, n, other, key)
        ensures RowAt(next.index, key) == RowAt(q.index, key) && StreamAt(next.index, key) == StreamAt(q.index, key)
      {
        HealedLeavesOthers(reading, h, head, q, p, other, key);
      }
      forall other | 0 <= other < n ensures Tracked(reading, h, head, next, other) {
        if other != p {
          assert Tracked(reading, h, head, q, other);
          SameEntriesTrack(reading, h, head, q, next, other);
        }
      }
    } else {
      forall other | 0 <= other < n ensures Tracked(reading, h, head, next, other) {
        assert Tracked(reading, h, head, q, other);
      }
    }
  }

  lemma SameEntriesTrack(reading: Reader, h: seq<Record>, head: nat, q: Query, next: Query, p: nat)
    requires p < |q.partitions| == |next.partitions| && Tracked(reading, h, head, q, p) && next.partitions[p] == q.partitions[p]
    requires forall key :: Writes(reading, h, |q.partitions|, p, key) ==>
               RowAt(next.index, key) == RowAt(q.index, key) && StreamAt(next.index, key) == StreamAt(q.index, key)
    ensures Tracked(reading, h, head, next, p)
  {
    hide Part, LastPut, NoneBroken, Writes;
  }

  lemma {:induction false} NothingBelowZero(h: seq<Record>, count: nat, p: nat)
    requires count > 0
    ensures Part(h, count, p, 0, 0) == []
    decreases |h|
  {
    if h != [] {
      NothingBelowZero(h[..|h| - 1], count, p);
    }
  }

  /** A snapshot's rows carry keys its own partition writes. */
  lemma SnapshotKeys(reading: Reader, h: seq<Record>, head: nat, count: nat, p: nat, s: Snapshot, key: Bytes)
    requires count > 0 && SnapshotOf(reading, h, head, count, p, s) && key in s.rows
    ensures exists r :: r in h && Puts(reading, r, key) && InPartition(count, p, r) && EntryOf(r) == s.rows[key]
  {
    hide Part;
    PartMembers(h, count, p, 0, s.at);
    var r := LastPut(reading, Part(h, count, p, 0, s.at), key).value;
    assert r in h && Puts(reading, r, key) && InPartition(count, p, r);
  }

  /** RESTORING a snapshot of the same timeline into a cold partition keeps everything on track. */
  lemma RestoreKeeps(reading: Reader, h: seq<Record>, head: nat, q: Query, p: nat, s: Snapshot)
    requires HealInv(reading, h, head, q) && p < |q.partitions| && q.partitions[p] == Cold(0)
    requires SnapshotOf(reading, h, head, |q.partitions|, p, s)
    ensures HealInv(reading, h, head, Restored(q, p, s))
  {
    hide Part, Ascending, OwnedKeys, LastPut, NoneBroken, Sourced, Writes, SnapshotOf;
    var n := |q.partitions|;
    var next := Restored(q, p, s);
    assert Tracked(reading, h, head, q, p);
    NothingBelowZero(h, n, p);
    RestoredIsSourced(reading, h, head, q, p, s);
    forall key | Writes(reading, h, n, p, key)
      ensures EntryIs(next.index, key, LastPut(reading, Part(h, n, p, 0, s.at), key))
    {
      NothingPut(reading, key);
      SnapshotEntry(reading, h, head, n, p, s, key);
    }
    SnapshotPosition(reading, h, head, n, p, s);
    forall other | 0 <= other < n ensures Tracked(reading, h, head, next, other) {
      if other != p {
        assert Tracked(reading, h, head, q, other);
        forall key | Writes(reading, h, n, other, key) ensures key !in s.rows {
          OthersNotInSnapshot(reading, h, head, n, p, s, other, key);
        }
        SameEntriesTrack(reading, h, head, q, next, other);
      }
    }
  }

  lemma SnapshotPosition(reading: Reader, h: seq<Record>, head: nat, count: nat, p: nat, s: Snapshot)
    requires count > 0 && SnapshotOf(reading, h, head, count, p, s)
    ensures s.at <= head && NoneBroken(reading, Part(h, count, p, 0, s.at))
  {
  }

  lemma SnapshotEntry(reading: Reader, h: seq<Record>, head: nat, count: nat, p: nat, s: Snapshot, key: Bytes)
    requires count > 0 && SnapshotOf(reading, h, head, count, p, s)
    ensures if LastPut(reading, Part(h, count, p, 0, s.at), key).Some?
            then key in s.rows && s.rows[key] == EntryOf(LastPut(reading, Part(h, count, p, 0, s.at), key).value)
            else key !in s.rows
  {
    hide Part, LastPut, NoneBroken;
  }

  lemma RestoredIsSourced(reading: Reader, h: seq<Record>, head: nat, q: Query, p: nat, s: Snapshot)
    requires p < |q.partitions| && q.partitions[p].Cold? && Sourced(reading, h, q.index)
    requires SnapshotOf(reading, h, head, |q.partitions|, p, s)
    ensures Sourced(reading, h, Restored(q, p, s).index)
  {
    hide SnapshotOf, Puts, InPartition;
    forall key | key in s.rows ensures exists r :: r in h && Puts(reading, r, key) && r.envelope.streamId == s.rows[key].0 {
      SnapshotKeys(reading, h, head, |q.partitions|, p, s, key);
    }
  }

  lemma OthersNotInSnapshot(reading: Reader, h: seq<Record>, head: nat, count: nat, p: nat, s: Snapshot, other: nat, key: Bytes)
    requires count > 0 && OwnedKeys(reading, h, count) && SnapshotOf(reading, h, head, count, p, s)
    requires other != p && Writes(reading, h, count, other, key)
    ensures key !in s.rows
  {
    hide SnapshotOf, Puts;
    if key in s.rows {
      SnapshotKeys(reading, h, head, count, p, s, key);
    }
  }

  /** CHECKPOINTING a ready partition yields a snapshot of the timeline at its cursor. */
  lemma CheckpointIsSnapshot(reading: Reader, h: seq<Record>, head: nat, q: Query, p: nat)
    requires HealInv(reading, h, head, q) && p < |q.partitions| && q.partitions[p].Ready?
    ensures SnapshotOf(reading, h, head, |q.partitions|, p, Snapshot(q.partitions[p].at, Checkpointed(q.index, |q.partitions|, p)))
  {
    hide Part, Ascending, OwnedKeys, LastPut, NoneBroken, PartitionOf;
    var n, at := |q.partitions|, q.partitions[p].at;
    var rows := Checkpointed(q.index, n, p);
    assert Tracked(reading, h, head, q, p);
    PartMembers(h, n, p, 0, at);
    forall key
      ensures if LastPut(reading, Part(h, n, p, 0, at), key).Some?
              then key in rows && rows[key] == EntryOf(LastPut(reading, Part(h, n, p, 0, at), key).value)
              else key !in rows
    {
      var last := LastPut(reading, Part(h, n, p, 0, at), key);
      CheckpointedIsWritten(reading, h, q.index, n, p, key);
      if last.Some? {
        assert last.value in h && Puts(reading, last.value, key) && InPartition(n, p, last.value);
        assert Writes(reading, h, n, p, key);
      }
    }
  }

  lemma CheckpointedIsWritten(reading: Reader, h: seq<Record>, x: Index, count: nat, p: nat, key: Bytes)
    requires count > 0 && Sourced(reading, h, x)
    ensures key in Checkpointed(x, count, p) ==> Writes(reading, h, count, p, key)
  {
    hide PartitionOf, Puts;
    if key in Checkpointed(x, count, p) {
      var r :| r in h && Puts(reading, r, key) && r.envelope.streamId == x.streams[key];
      assert InPartition(count, p, r);
    }
  }

  /** More records at the head change nothing for cursors at or below it. */
  lemma GrowthKeeps(reading: Reader, h: seq<Record>, head: nat, more: seq<Record>, head': nat, q: Query)
    requires HealInv(reading, h, head, q) && head <= head' && forall r :: r in more ==> r.position >= head
    requires Ascending(h + more, head') && OwnedKeys(reading, h + more, |q.partitions|)
    ensures HealInv(reading, h + more, head', q)
  {
    hide Part, Ascending, OwnedKeys, LastPut, NoneBroken, InPartition;
    var n := |q.partitions|;
    forall key | key in q.index.rows ensures exists r :: r in h + more && Puts(reading, r, key) && r.envelope.streamId == q.index.streams[key] {
      var r :| r in h && Puts(reading, r, key) && r.envelope.streamId == q.index.streams[key];
      assert r in h + more;
    }
    forall p | 0 <= p < n ensures Tracked(reading, h + more, head', q, p) {
      assert Tracked(reading, h, head, q, p);
      if Serving(q.partitions[p]) {
        PartOfLonger(h, more, n, p, 0, q.partitions[p].at);
        forall key | Writes(reading, h + more, n, p, key)
          ensures EntryIs(q.index, key, LastPut(reading, Part(h + more, n, p, 0, q.partitions[p].at), key))
        {
          if !Writes(reading, h, n, p, key) {
            UnwrittenIsAbsent(reading, h, head, q, p, more, key);
          }
        }
      }
    }
  }

  /** A key only newer records write is not in the index yet. */
  lemma UnwrittenIsAbsent(reading: Reader, h: seq<Record>, head: nat, q: Query, p: nat, more: seq<Record>, key: Bytes)
    requires q.partitions != [] && p < |q.partitions| && Sourced(reading, h, q.index) && OwnedKeys(reading, h + more, |q.partitions|)
    requires Writes(reading, h + more, |q.partitions|, p, key) && !Writes(reading, h, |q.partitions|, p, key)
    ensures EntryIs(q.index, key, LastPut(reading, Part(h, |q.partitions|, p, 0, q.partitions[p].at), key))
  {
    hide Part, LastPut, Puts, PartitionOf;
    var n, at := |q.partitions|, q.partitions[p].at;
    PartMembers(h, n, p, 0, at);
    WritersShare(reading, h, more, n, p, key);
    assert key !in q.index.rows.Keys && q.index.rows.Keys == q.index.streams.Keys;
  }

  lemma WritersShare(reading: Reader, h: seq<Record>, more: seq<Record>, count: nat, p: nat, key: Bytes)
    requires count > 0 && OwnedKeys(reading, h + more, count) && Writes(reading, h + more, count, p, key)
    ensures forall r :: r in h && Puts(reading, r, key) ==> InPartition(count, p, r)
  {
    hide Puts, PartitionOf;
    var w :| w in h + more && Puts(reading, w, key) && InPartition(count, p, w);
    forall r | r in h && Puts(reading, r, key) ensures InPartition(count, p, r) {
      assert r in h + more;
    }
  }

  lemma GrowthKeepsSnapshot(reading: Reader, h: seq<Record>, head: nat, more: seq<Record>, head': nat, count: nat, p: nat, s: Snapshot)
    requires count > 0 && SnapshotOf(reading, h, head, count, p, s) && head <= head' && forall r :: r in more ==> r.position >= head
    ensures SnapshotOf(reading, h + more, head', count, p, s)
  {
    hide Part, LastPut, NoneBroken;
    PartOfLonger(h, more, count, p, 0, s.at);
  }

  // ── the theorem ────────────────────────────────────────────────────────

  /** LAZY EQUALS FULL: once every partition is ready at the head, the rows are those of
      one in-order replay of the whole timeline, and that replay does not fail. */
  lemma HealedEqualsReplay(reading: Reader, h: seq<Record>, head: nat, q: Query)
    requires HealInv(reading, h, head, q) && forall p :: 0 <= p < |q.partitions| ==> q.partitions[p] == Ready(head)
    ensures AppliedAll(reading, EMPTY_INDEX, h) == Outcome(q.index, false)
  {
    hide Part, AppliedAll, LastPut, NoneBroken;
    var n := |q.partitions|;
    NoneBrokenAnywhere(reading, h, head, q);
    AppliedIsLastPut(reading, EMPTY_INDEX, h, []);
    var full := AppliedAll(reading, EMPTY_INDEX, h).index;
    forall key ensures RowAt(full, key) == RowAt(q.index, key) && StreamAt(full, key) == StreamAt(q.index, key) {
      AppliedIsLastPut(reading, EMPTY_INDEX, h, key);
      EntryAtHead(reading, h, head, q, key);
    }
    SameEntries(full, q.index);
  }

  lemma SameEntries(x: Index, y: Index)
    requires forall key :: RowAt(x, key) == RowAt(y, key) && StreamAt(x, key) == StreamAt(y, key)
    ensures x == y
  {
    forall key ensures key in x.rows <==> key in y.rows {
      assert RowAt(x, key) == RowAt(y, key);
    }
    forall key ensures key in x.streams <==> key in y.streams {
      assert StreamAt(x, key) == StreamAt(y, key);
    }
    forall key | key in x.rows ensures x.rows[key] == y.rows[key] {
      assert RowAt(x, key) == RowAt(y, key);
    }
    forall key | key in x.streams ensures x.streams[key] == y.streams[key] {
      assert StreamAt(x, key) == StreamAt(y, key);
    }
    assert x.rows == y.rows && x.streams == y.streams;
  }

  lemma NoneBrokenAnywhere(reading: Reader, h: seq<Record>, head: nat, q: Query)
    requires HealInv(reading, h, head, q) && forall p :: 0 <= p < |q.partitions| ==> q.partitions[p] == Ready(head)
    ensures NoneBroken(reading, h)
  {
    hide Part, LastPut, OwnedKeys, Sourced;
    var n := |q.partitions|;
    forall i | 0 <= i < |h| ensures !reading(h[i]).Broken? {
      var p := PartitionOf(h[i].envelope.streamId, n);
      PartMembers(h, n, p, 0, head);
      assert Tracked(reading, h, head, q, p);
      assert h[i] in Part(h, n, p, 0, head);
    }
  }

  lemma EntryAtHead(reading: Reader, h: seq<Record>, head: nat, q: Query, key: Bytes)
    requires HealInv(reading, h, head, q) && forall p :: 0 <= p < |q.partitions| ==> q.partitions[p] == Ready(head)
    ensures EntryIs(q.index, key, LastPut(reading, h, key))
  {
    hide Part, NoneBroken, PartitionOf, LastPut;
    var n := |q.partitions|;
    if w :| w in h && Puts(reading, w, key) {
      var p := PartitionOf(w.envelope.streamId, n);
      assert Tracked(reading, h, head, q, p) && InPartition(n, p, w) && Writes(reading, h, n, p, key);
      LastPutOfPart(reading, h, n, p, head, key);
    } else {
      assert key !in q.index.rows.Keys && q.index.rows.Keys == q.index.streams.Keys;
    }
  }

  // ── runs ───────────────────────────────────────────────────────────────

  /** A timeline that grows, the query over it and the snapshots taken so far. */
  datatype Engine = Engine(h: seq<Record>, head: nat, query: Query, saved: seq<(nat, Snapshot)>)

  datatype Step =
    | Grow(more: seq<Record>, head: nat)
    | Heal(p: nat)
    | Save(p: nat)
    | Restore(k: nat)
    | Restart

  ghost predicate CanStep(reading: Reader, e: Engine, step: Step) {
    match step
    case Grow(more, head) =>
      && e.query.partitions != [] && head >= e.head && (forall r :: r in more ==> r.position >= e.head)
      && Ascending(e.h + more, head) && OwnedKeys(reading, e.h + more, |e.query.partitions|)
    case Heal(p) => p < |e.query.partitions|
    case Save(p) => p < |e.query.partitions| && e.query.partitions[p].Ready?
    case Restore(k) => k < |e.saved| && e.saved[k].0 < |e.query.partitions| && e.query.partitions[e.saved[k].0].Cold?
    case Restart => true
  }

  function Stepped(reading: Reader, e: Engine, step: Step): Engine
    requires CanStep(reading, e, step)
  {
    var n := |e.query.partitions|;
    match step
    case Grow(more, head) => e.(h := e.h + more, head := head)
    case Heal(p) => e.(query := Healed(reading, e.query, p, e.head, Part(e.h, n, p, e.query.partitions[p].at, e.head)))
    case Save(p) => e.(saved := e.saved + [(p, Snapshot(e.query.partitions[p].at, Checkpointed(e.query.index, n, p)))])
    case Restore(k) => e.(query := Restored(e.query, e.saved[k].0, e.saved[k].1))
    case Restart => e.(query := ColdQuery(n))
  }

  ghost predicate EngineInv(reading: Reader, e: Engine) {
    && HealInv(reading, e.h, e.head, e.query)
    && (forall p :: 0 <= p < |e.query.partitions| && e.query.partitions[p].Cold? ==> e.query.partitions[p].at == 0)
    && (forall k :: 0 <= k < |e.saved| ==>
          e.saved[k].0 < |e.query.partitions| && SnapshotOf(reading, e.h, e.head, |e.query.partitions|, e.saved[k].0, e.saved[k].1))
  }

  lemma RestartKeeps(reading: Reader, h: seq<Record>, head: nat, q: Query)
    requires HealInv(reading, h, head, q)
    ensures HealInv(reading, h, head, ColdQuery(|q.partitions|))
  {
    hide Part, Ascending, OwnedKeys, LastPut;
    var n := |q.partitions|;
    forall p | 0 <= p < n ensures Tracked(reading, h, head, ColdQuery(n), p) {
      NothingBelowZero(h, n, p);
      forall key ensures LastPut(reading, [], key) == None {
        NothingPut(reading, key);
      }
    }
  }

  lemma StepKeeps(reading: Reader, e: Engine, step: Step)
    requires EngineInv(reading, e) && CanStep(reading, e, step)
    ensures EngineInv(reading, Stepped(reading, e, step))
  {
    hide HealInv, SnapshotOf, OwnedKeys, Ascending, Part, AppliedAll;
    var n := |e.query.partitions|;
    match step
    case Grow(more, head) =>
      GrowthKeeps(reading, e.h, e.head, more, head, e.query);
      forall k | 0 <= k < |e.saved| ensures SnapshotOf(reading, e.h + more, head, n, e.saved[k].0, e.saved[k].1) {
        GrowthKeepsSnapshot(reading, e.h, e.head, more, head, n, e.saved[k].0, e.saved[k].1);
      }
    case Heal(p) => HealKeeps(reading, e.h, e.head, e.query, p);
    case Save(p) => CheckpointIsSnapshot(reading, e.h, e.head, e.query, p);
    case Restore(k) => RestoreKeeps(reading, e.h, e.head, e.query, e.saved[k].0, e.saved[k].1);
    case Restart => RestartKeeps(reading, e.h, e.head, e.query);
  }

  ghost predicate Runs(reading: Reader, e: Engine, steps: seq<Step>)
    decreases |steps|
  {
    steps == [] || (CanStep(reading, e, steps[0]) && Runs(reading, Stepped(reading, e, steps[0]), steps[1..]))
  }

  ghost function RunTo(reading: Reader, e: Engine, steps: seq<Step>): Engine
    requires Runs(reading, e, steps)
    decreases |steps|
  {
    if steps == [] then e else RunTo(reading, Stepped(reading, e, steps[0]), steps[1..])
  }

  lemma {:induction false} RunKeeps(reading: Reader, e: Engine, steps: seq<Step>)
    requires EngineInv(reading, e) && Runs(reading, e, steps)
    ensures EngineInv(reading, RunTo(reading, e, steps))
    decreases |steps|
  {
    hide EngineInv, CanStep, Stepped;
    if steps != [] {
      StepKeeps(reading, e, steps[0]);
      RunKeeps(reading, Stepped(reading, e, steps[0]), steps[1..]);
    }
  }

  /** LAZY HEALING OVER RUNS: whatever order partitions heal in, in however many rounds, from
      empty or from snapshots, while the timeline grows: when all are ready at the head the
      rows are those of one full replay. */
  lemma LazyHealingIsReplay(reading: Reader, count: nat, steps: seq<Step>)
    requires count > 0 && Runs(reading, Engine([], 0, ColdQuery(count), []), steps)
    requires var e := RunTo(reading, Engine([], 0, ColdQuery(count), []), steps);
      forall p :: 0 <= p < |e.query.partitions| ==> e.query.partitions[p] == Ready(e.head)
    ensures var e := RunTo(reading, Engine([], 0, ColdQuery(count), []), steps);
      AppliedAll(reading, EMPTY_INDEX, e.h) == Outcome(e.query.index, false)
  {
    hide HealInv, Runs, RunTo, AppliedAll;
    ColdIsInv(reading, count);
    var e := Engine([], 0, ColdQuery(count), []);
    RunKeeps(reading, e, steps);
    var last := RunTo(reading, e, steps);
    HealedEqualsReplay(reading, last.h, last.head, last.query);
  }

  // ── shared keys: exactly when order matters ────────────────────────────

  /** Healing one partition after the other, from a cold query, each to the head. */
  function HealedInOrder(reading: Reader, h: seq<Record>, head: nat, count: nat, order: seq<nat>): (q: Query)
    requires count > 0
    ensures |q.partitions| == count
    decreases |order|
  {
    if order == [] then ColdQuery(count)
    else
      var q, p := HealedInOrder(reading, h, head, count, order[..|order| - 1]), order[|order| - 1];
      if p < count then Healed(reading, q, p, head, Part(h, count, p, q.partitions[p].at, head)) else q
  }

  ghost predicate Complete(order: seq<nat>, count: nat) {
    forall p :: 0 <= p < count ==> p in order
  }

  /** Every partition exactly once. */
  ghost predicate OneRound(order: seq<nat>, count: nat) {
    Complete(order, count) && |order| == count
  }

  /** In each partition, a key's last write carries the payload of its last write anywhere. */
  ghost predicate LastWritesAgree(reading: Reader, h: seq<Record>, head: nat, count: nat)
    requires count > 0
  {
    forall p: nat, key :: LastPut(reading, Part(h, count, p, 0, head), key).Some? ==>
      && LastPut(reading, h, key).Some?
      && LastPut(reading, Part(h, count, p, 0, head), key).value.payload == LastPut(reading, h, key).value.payload
  }

  lemma PartIsReadable(reading: Reader, h: seq<Record>, count: nat, p: nat, from: nat, head: nat)
    requires count > 0 && NoneBroken(reading, h)
    ensures NoneBroken(reading, Part(h, count, p, from, head))
  {
    hide Part;
    var part := Part(h, count, p, from, head);
    PartMembers(h, count, p, from, head);
    forall i | 0 <= i < |part| ensures !reading(part[i]).Broken? {
      assert part[i] in part;
      var j :| 0 <= j < |h| && h[j] == part[i];
    }
  }

  lemma NoPart(h: seq<Record>, head: nat, count: nat, p: nat)
    requires count > 0 && Ascending(h, 0)
    ensures Part(h, count, p, 0, head) == []
  {
    assert h != [] ==> h[0].position < 0;
  }

  /** A partition that was healed is ready at the head, one that was not is cold. */
  lemma {:induction false} WhoIsReady(reading: Reader, h: seq<Record>, head: nat, count: nat, order: seq<nat>, p: nat)
    requires count > 0 && NoneBroken(reading, h) && p < count
    ensures HealedInOrder(reading, h, head, count, order).partitions[p] == if p in order then Ready(head) else Cold(0)
    decreases |order|
  {
    hide Part, AppliedAll, NoneBroken;
    if order != [] {
      var shorter, last := order[..|order| - 1], order[|order| - 1];
      assert order == shorter + [last];
      WhoIsReady(reading, h, head, count, shorter, p);
      if last == p {
        var q := HealedInOrder(reading, h, head, count, shorter);
        PartIsReadable(reading, h, count, p, q.partitions[p].at, head);
        AppliedIsLastPut(reading, q.index, Part(h, count, p, q.partitions[p].at, head), []);
      }
    }
  }

  /** The first heal of a partition lays its last writes over the index; a second one, at
      the same head, reads nothing. */
  lemma HealInOrder(reading: Reader, h: seq<Record>, head: nat, count: nat, order: seq<nat>, p: nat, key: Bytes)
    requires count > 0 && Ascending(h, head) && NoneBroken(reading, h) && p < count
    ensures var last := LastPut(reading, Part(h, count, p, 0, head), key);
      RowAt(HealedInOrder(reading, h, head, count, order + [p]).index, key) ==
        if p !in order && last.Some? then Some(last.value.payload) else RowAt(HealedInOrder(reading, h, head, count, order).index, key)
    ensures var last := LastPut(reading, Part(h, count, p, 0, head), key);
      StreamAt(HealedInOrder(reading, h, head, count, order + [p]).index, key) ==
        if p !in order && last.Some? then Some(last.value.envelope.streamId) else StreamAt(HealedInOrder(reading, h, head, count, order).index, key)
  {
    hide Part, LastPut, AppliedAll, RowAt, StreamAt, NoneBroken, Ascending;
    var q := HealedInOrder(reading, h, head, count, order);
    assert (order + [p])[..|order|] == order;
    WhoIsReady(reading, h, head, count, order, p);
    if p !in order {
      if head == 0 {
        NoPart(h, head, count, p);
        NothingPut(reading, key);
      } else {
        PartIsReadable(reading, h, count, p, 0, head);
        AppliedIsLastPut(reading, q.index, Part(h, count, p, 0, head), key);
      }
    }
  }

  lemma {:induction false} RowsOfAgreeing(reading: Reader, h: seq<Record>, head: nat, count: nat, order: seq<nat>, key: Bytes)
    requires count > 0 && Ascending(h, head) && NoneBroken(reading, h) && LastWritesAgree(reading, h, head, count)
    ensures var q := HealedInOrder(reading, h, head, count, order);
      && ((exists p :: p in order && p < count && LastPut(reading, Part(h, count, p, 0, head), key).Some?) ==>
            LastPut(reading, h, key).Some? && RowAt(q.index, key) == Some(LastPut(reading, h, key).value.payload))
      && ((forall p :: p in order && p < count ==> LastPut(reading, Part(h, count, p, 0, head), key).None?) ==> RowAt(q.index, key) == None)
    decreases |order|
  {
    hide Part, LastPut, RowAt, HealedInOrder, NoneBroken, Ascending;
    if order == [] {
      NothingHealed(reading, h, head, count, key);
    } else {
      var shorter, last := order[..|order| - 1], order[|order| - 1];
      assert order == shorter + [last];
      RowsOfAgreeing(reading, h, head, count, shorter, key);
      if last < count {
        HealInOrder(reading, h, head, count, shorter, last, key);
      } else {
        NoSuchPartition(reading, h, head, count, shorter, last);
      }
    }
  }

  lemma NothingHealed(reading: Reader, h: seq<Record>, head: nat, count: nat, key: Bytes)
    requires count > 0
    ensures RowAt(HealedInOrder(reading, h, head, count, []).index, key) == None
  {
  }

  lemma NoSuchPartition(reading: Reader, h: seq<Record>, head: nat, count: nat, order: seq<nat>, p: nat)
    requires count > 0 && p >= count
    ensures HealedInOrder(reading, h, head, count, order + [p]) == HealedInOrder(reading, h, head, count, order)
  {
    assert (order + [p])[..|order|] == order;
  }

  /** ORDER DOES NOT MATTER exactly when the last writes agree: every round over all
      partitions then gives the rows of a full replay, in whatever order and with whatever
      repeated heals, and otherwise some order of healing each partition once does not. */
  lemma OrderIndependence(reading: Reader, h: seq<Record>, head: nat, count: nat)
    requires count > 0 && Ascending(h, head) && NoneBroken(reading, h)
    ensures LastWritesAgree(reading, h, head, count) <==>
      forall order, key :: OneRound(order, count) ==>
        RowAt(HealedInOrder(reading, h, head, count, order).index, key) == RowAt(AppliedAll(reading, EMPTY_INDEX, h).index, key)
    ensures LastWritesAgree(reading, h, head, count) ==>
      forall order, key :: Complete(order, count) ==>
        RowAt(HealedInOrder(reading, h, head, count, order).index, key) == RowAt(AppliedAll(reading, EMPTY_INDEX, h).index, key)
  {
    hide Part, LastPut, RowAt, HealedInOrder, AppliedAll, Ascending, Complete, LastWritesAgree, NoneBroken;
    if LastWritesAgree(reading, h, head, count) {
      forall order: seq<nat>, key | Complete(order, count)
        ensures RowAt(HealedInOrder(reading, h, head, count, order).index, key) == RowAt(AppliedAll(reading, EMPTY_INDEX, h).index, key)
      {
        CompleteOrder(reading, h, head, count, order, key);
      }
    } else {
      SomeOrderDiffers(reading, h, head, count);
    }
  }

  lemma CompleteOrder(reading: Reader, h: seq<Record>, head: nat, count: nat, order: seq<nat>, key: Bytes)
    requires count > 0 && Ascending(h, head) && NoneBroken(reading, h) && LastWritesAgree(reading, h, head, count) && Complete(order, count)
    ensures RowAt(HealedInOrder(reading, h, head, count, order).index, key) == RowAt(AppliedAll(reading, EMPTY_INDEX, h).index, key)
  {
    hide Part, LastPut, RowAt, HealedInOrder, AppliedAll, LastWritesAgree, NoneBroken;
    NothingHealed(reading, h, head, count, key);
    RowsOfAgreeing(reading, h, head, count, order, key);
    AppliedIsLastPut(reading, EMPTY_INDEX, h, key);
    EmptyHasNoRow(key);
    var last := LastPut(reading, h, key);
    if last.Some? {
      var p := PartitionOf(last.value.envelope.streamId, count);
      PartMembers(h, count, p, 0, head);
      var j :| 0 <= j < |h| && h[j] == last.value;
      assert last.value in Part(h, count, p, 0, head);
      assert p in order;
      assert LastPut(reading, Part(h, count, p, 0, head), key).Some?;
    } else {
      forall p | p in order && p < count ensures LastPut(reading, Part(h, count, p, 0, head), key).None? {
        PartMembers(h, count, p, 0, head);
      }
    }
  }

  lemma EmptyHasNoRow(key: Bytes)
    ensures RowAt(EMPTY_INDEX, key) == None
  {
  }

  /** Every partition once, the given one last. */
  function HealedLast(count: nat, p: nat): (order: seq<nat>)
    requires p < count
    ensures OneRound(order, count) && order[|order| - 1] == p && p !in order[..|order| - 1]
  {
    var others := seq(count - 1, i requires 0 <= i < count - 1 => if i < p then i else i + 1);
    var order := others + [p];
    assert forall x :: 0 <= x < count ==> x in order by {
      forall x | 0 <= x < count ensures x in order {
        var at := if x < p then x else if x == p then count - 1 else x - 1;
        assert order[at] == x;
      }
    }
    assert order[..|order| - 1] == others;
    order
  }

  /** Healing the disagreeing partition last leaves its older row behind. */
  lemma SomeOrderDiffers(reading: Reader, h: seq<Record>, head: nat, count: nat)
    requires count > 0 && Ascending(h, head) && NoneBroken(reading, h) && !LastWritesAgree(reading, h, head, count)
    ensures exists order: seq<nat>, key :: OneRound(order, count) &&
              RowAt(HealedInOrder(reading, h, head, count, order).index, key) != RowAt(AppliedAll(reading, EMPTY_INDEX, h).index, key)
  {
    hide Part, LastPut, RowAt, HealedInOrder, AppliedAll, HealedLast, NoneBroken, Ascending;
    var p: nat, key :| LastPut(reading, Part(h, count, p, 0, head), key).Some? &&
      !(LastPut(reading, h, key).Some? && LastPut(reading, Part(h, count, p, 0, head), key).value.payload == LastPut(reading, h, key).value.payload);
    PartMembers(h, count, p, 0, head);
    assert p < count;
    var order := HealedLast(count, p);
    var others := order[..|order| - 1];
    assert order == others + [p];
    HealInOrder(reading, h, head, count, others, p, key);
    EmptyHasNoRow(key);
    AppliedIsLastPut(reading, EMPTY_INDEX, h, key);
  }

  /** The stream routed to the second of two partitions. */
  const SECOND_STREAM: Id := [1] + ZERO_ID[1..]

  function Written(position: u64, stream: Id, payload: Bytes): Record {
    Record(Event, 0, position, Envelope(ZERO_ID, ZERO_ID, ZERO_ID, stream, 0, 0, [0x61], 1, 1, ZERO_ID, 0, []), payload)
  }

  /** Both records write the empty key. */
  const READS_ALL: Reader := r => Put([])

  lemma TwoParts(a: Record, b: Record)
    requires InPartition(2, 0, a) && !InPartition(2, 1, a) && InPartition(2, 1, b) && !InPartition(2, 0, b)
    requires a.position == 0 && b.position == 1
    ensures Part([a, b], 2, 0, 0, 2) == [a] && Part([a, b], 2, 1, 0, 2) == [b]
    ensures LastPut(READS_ALL, [a], []) == Some(a) && LastPut(READS_ALL, [b], []) == Some(b) && LastPut(READS_ALL, [a, b], []) == Some(b)
    ensures Ascending([a, b], 2) && NoneBroken(READS_ALL, [a, b])
  {
    hide InPartition, Part, LastPut;
    assert [a, b] == [a] + [b] && [] + [a] == [a] && [] + [b] == [b];
    NoPart([], 2, 2, 0);
    NoPart([], 2, 2, 1);
    PartSnoc([], a, 2, 0, 2);
    PartSnoc([], a, 2, 1, 2);
    PartSnoc([a], b, 2, 0, 2);
    PartSnoc([a], b, 2, 1, 2);
    NothingPut(READS_ALL, []);
    LastPutSnoc(READS_ALL, [], a, []);
    LastPutSnoc(READS_ALL, [], b, []);
    LastPutSnoc(READS_ALL, [a], b, []);
  }

  lemma PartSnoc(h: seq<Record>, r: Record, count: nat, p: nat, head: nat)
    requires count > 0
    ensures Part(h + [r], count, p, 0, head) == Part(h, count, p, 0, head) + if InPartition(count, p, r) && r.position < head then [r] else []
  {
    assert (h + [r])[..|h|] == h;
  }

  /** Whichever of the two is healed last leaves its payload. */
  lemma LastOneWins(a: Record, b: Record, first: nat, last: nat)
    requires Ascending([a, b], 2) && NoneBroken(READS_ALL, [a, b]) && first != last && first < 2 && last < 2
    requires LastPut(READS_ALL, Part([a, b], 2, last, 0, 2), []).Some?
    ensures RowAt(HealedInOrder(READS_ALL, [a, b], 2, 2, [first, last]).index, [])
         == Some(LastPut(READS_ALL, Part([a, b], 2, last, 0, 2), []).value.payload)
  {
    hide RowAt, HealedInOrder, Part, LastPut, NoneBroken, Ascending;
    HealInOrder(READS_ALL, [a, b], 2, 2, [first], last, []);
    assert [first] + [last] == [first, last];
  }

  /** IT HAPPENS: two streams of different partitions write one key, with different payloads.
      Healed in the order 0, 1 the row is the replay's, in the order 1, 0 it is not. */
  lemma LastWritesCanDisagree()
    ensures var h := [Written(0, ZERO_ID, [1]), Written(1, SECOND_STREAM, [2])];
      && Ascending(h, 2) && NoneBroken(READS_ALL, h) && !LastWritesAgree(READS_ALL, h, 2, 2)
      && RowAt(AppliedAll(READS_ALL, EMPTY_INDEX, h).index, []) == Some([2])
      && RowAt(HealedInOrder(READS_ALL, h, 2, 2, [0, 1]).index, []) == Some([2])
      && RowAt(HealedInOrder(READS_ALL, h, 2, 2, [1, 0]).index, []) == Some([1])
  {
    hide RowAt, HealedInOrder, AppliedAll, PartitionOf, NoneBroken, Ascending, Part, LastPut;
    var a, b := Written(0, ZERO_ID, [1]), Written(1, SECOND_STREAM, [2]);
    StreamsPart();
    TwoParts(a, b);
    AppliedIsLastPut(READS_ALL, EMPTY_INDEX, [a, b], []);
    LastOneWins(a, b, 0, 1);
    LastOneWins(a, b, 1, 0);
  }

  lemma StreamsPart()
    ensures PartitionOf(ZERO_ID, 2) == 0 && PartitionOf(SECOND_STREAM, 2) == 1
  {
    hide FromBytes;
    LowByte(ZERO_ID[..8]);
    LowByte(SECOND_STREAM[..8]);
  }

  lemma LowByte(b: Bytes)
    requires b != []
    ensures FromBytes(b) % 2 == b[0] % 2
  {
    assert FromBytes(b) == b[0] + 0x100 * FromBytes(b[1..]);
  }

  /** Keys owned by one partition each are one way to meet the condition. */
  lemma OwnedKeysAgree(reading: Reader, h: seq<Record>, head: nat, count: nat)
    requires count > 0 && Ascending(h, head) && OwnedKeys(reading, h, count)
    ensures LastWritesAgree(reading, h, head, count)
  {
    hide Part, LastPut, Ascending, PartitionOf;
    forall p: nat, key | LastPut(reading, Part(h, count, p, 0, head), key).Some?
      ensures LastPut(reading, h, key) == LastPut(reading, Part(h, count, p, 0, head), key)
    {
      PartMembers(h, count, p, 0, head);
      var w := LastPut(reading, Part(h, count, p, 0, head), key).value;
      assert w in h && Puts(reading, w, key) && InPartition(count, p, w);
      LastPutOfPart(reading, h, count, p, head, key);
    }
  }

  // ── shared keys with snapshots ─────────────────────────────────────────

  /** A run of heals, saves, restores and restarts over one timeline, from a cold query. */
  ghost predicate FixedRun(reading: Reader, h: seq<Record>, head: nat, count: nat, steps: seq<Step>) {
    (forall i :: 0 <= i < |steps| ==> !steps[i].Grow?) && Runs(reading, Engine(h, head, ColdQuery(count), []), steps)
  }

  ghost predicate EndsAtHead(e: Engine) {
    forall p :: 0 <= p < |e.query.partitions| ==> e.query.partitions[p] == Ready(e.head)
  }

  ghost predicate ReachesHead(reading: Reader, h: seq<Record>, head: nat, count: nat, steps: seq<Step>) {
    FixedRun(reading, h, head, count, steps) && EndsAtHead(RunTo(reading, Engine(h, head, ColdQuery(count), []), steps))
  }

  lemma {:induction false} RunsConcat(reading: Reader, e: Engine, a: seq<Step>, b: seq<Step>)
    requires Runs(reading, e, a) && Runs(reading, RunTo(reading, e, a), b)
    ensures Runs(reading, e, a + b) && RunTo(reading, e, a + b) == RunTo(reading, RunTo(reading, e, a), b)
    decreases |a|
  {
    hide CanStep, Stepped;
    if a == [] {
      assert a + b == b;
    } else {
      assert (a + b)[1..] == a[1..] + b;
      RunsConcat(reading, Stepped(reading, e, a[0]), a[1..], b);
    }
  }

  lemma RunsOne(reading: Reader, e: Engine, step: Step)
    requires CanStep(reading, e, step)
    ensures Runs(reading, e, [step]) && RunTo(reading, e, [step]) == Stepped(reading, e, step)
  {
    assert [step][1..] == [];
  }

  /** The first `n` partitions were saved at the head, none of them with the key. */
  ghost predicate SavedWithout(e: Engine, h: seq<Record>, head: nat, count: nat, key: Bytes, n: nat) {
    && e.h == h && e.head == head && |e.query.partitions| == count && |e.saved| == n
    && forall i :: 0 <= i < n ==> e.saved[i].0 == i && e.saved[i].1.at == head && key !in e.saved[i].1.rows
  }

  /** Two heals from cold: a row that both partitions write is noted under the second. */
  lemma NotedUnderSecond(reading: Reader, h: seq<Record>, head: nat, count: nat, x: nat, y: nat, key: Bytes)
    requires count > 0 && head > 0 && Ascending(h, head) && NoneBroken(reading, h) && x < count && y < count && x != y
    requires Writes(reading, h, count, y, key)
    ensures var q := HealedInOrder(reading, h, head, count, [x, y]);
      q.partitions[x] == Ready(head) && key !in Checkpointed(q.index, count, x)
  {
    hide Part, LastPut, HealedInOrder, NoneBroken, Ascending, PartitionOf;
    WhoIsReady(reading, h, head, count, [x, y], x);
    HealInOrder(reading, h, head, count, [x], y, key);
    assert [x] + [y] == [x, y];
    var w :| w in h && Puts(reading, w, key) && InPartition(count, y, w);
    PartMembers(h, count, y, 0, head);
    var j :| 0 <= j < |h| && h[j] == w;
    AscendingBelow(h, head, j);
    assert w in Part(h, count, y, 0, head);
    var last := LastPut(reading, Part(h, count, y, 0, head), key).value;
    assert InPartition(count, y, last);
  }

  lemma AscendingBelow(h: seq<Record>, head: nat, j: nat)
    requires Ascending(h, head) && j < |h|
    ensures h[j].position < head
  {
  }

  lemma TwoHeals(reading: Reader, h: seq<Record>, head: nat, count: nat, x: nat, y: nat)
    requires count > 0 && x < count && y < count && x != y && NoneBroken(reading, h)
    ensures var q := Healed(reading, ColdQuery(count), x, head, Part(h, count, x, 0, head));
      && q == HealedInOrder(reading, h, head, count, [x])
      && |q.partitions| == count && q.partitions[y] == Cold(0)
      && Healed(reading, q, y, head, Part(h, count, y, 0, head)) == HealedInOrder(reading, h, head, count, [x, y])
  {
    hide Part, Healed, NoneBroken;
    assert [x][..0] == [] && [x, y][..1] == [x];
    assert HealedInOrder(reading, h, head, count, []) == ColdQuery(count);
    WhoIsReady(reading, h, head, count, [x], y);
  }

  /** Restart, heal a partition, heal another that writes the key too, save the first. */
  lemma SaveWithout(reading: Reader, e: Engine, h: seq<Record>, head: nat, count: nat, x: nat, y: nat, key: Bytes) returns (steps: seq<Step>)
    requires head > 0 && Ascending(h, head) && NoneBroken(reading, h) && x < count && y < count && x != y
    requires SavedWithout(e, h, head, count, key, x) && Writes(reading, h, count, y, key)
    ensures Runs(reading, e, steps) && SavedWithout(RunTo(reading, e, steps), h, head, count, key, x + 1)
    ensures forall i :: 0 <= i < |steps| ==> !steps[i].Grow?
  {
    hide Part, HealedInOrder, NoneBroken, Ascending, Writes, Checkpointed, Healed, OwnedKeys;
    TwoHeals(reading, h, head, count, x, y);
    NotedUnderSecond(reading, h, head, count, x, y, key);
    var e1 := Stepped(reading, e, Restart);
    var e2 := Stepped(reading, e1, Heal(x));
    var e3 := Stepped(reading, e2, Heal(y));
    RunsOne(reading, e, Restart);
    RunsOne(reading, e1, Heal(x));
    RunsOne(reading, e2, Heal(y));
    assert e3.query == HealedInOrder(reading, h, head, count, [x, y]);
    RunsOne(reading, e3, Save(x));
    RunsConcat(reading, e, [Restart], [Heal(x)]);
    RunsConcat(reading, e, [Restart] + [Heal(x)], [Heal(y)]);
    RunsConcat(reading, e, [Restart] + [Heal(x)] + [Heal(y)], [Save(x)]);
    steps := [Restart] + [Heal(x)] + [Heal(y)] + [Save(x)];
  }

  lemma {:induction false} SaveAllWithout(reading: Reader, h: seq<Record>, head: nat, count: nat, p: nat, q: nat, key: Bytes, n: nat) returns (steps: seq<Step>)
    requires head > 0 && Ascending(h, head) && NoneBroken(reading, h) && p < count && q < count && p != q && n <= count
    requires Writes(reading, h, count, p, key) && Writes(reading, h, count, q, key)
    ensures FixedRun(reading, h, head, count, steps)
    ensures SavedWithout(RunTo(reading, Engine(h, head, ColdQuery(count), []), steps), h, head, count, key, n)
    decreases n
  {
    hide NoneBroken, Ascending, Writes, Runs, RunTo;
    var start := Engine(h, head, ColdQuery(count), []);
    if n == 0 {
      NoSteps(reading, start);
      steps := [];
    } else {
      var before := SaveAllWithout(reading, h, head, count, p, q, key, n - 1);
      var more := SaveWithout(reading, RunTo(reading, start, before), h, head, count, n - 1, if n - 1 == p then q else p, key);
      RunsConcat(reading, start, before, more);
      steps := before + more;
    }
  }

  lemma NoSteps(reading: Reader, e: Engine)
    ensures Runs(reading, e, []) && RunTo(reading, e, []) == e
  {
  }

  /** Restart and adopt the first `m` snapshots: the key is in none of them. */
  lemma {:induction false} RestoreAllWithout(reading: Reader, e: Engine, h: seq<Record>, head: nat, count: nat, key: Bytes, m: nat) returns (steps: seq<Step>)
    requires SavedWithout(e, h, head, count, key, count) && m <= count
    ensures Runs(reading, e, steps) && forall i :: 0 <= i < |steps| ==> !steps[i].Grow?
    ensures var last := RunTo(reading, e, steps);
      && SavedWithout(last, h, head, count, key, count) && key !in last.query.index.rows
      && forall p :: 0 <= p < count ==> last.query.partitions[p] == if p < m then Ready(head) else Cold(0)
    decreases m
  {
    hide Runs, RunTo, OwnedKeys, Ascending;
    if m == 0 {
      RunsOne(reading, e, Restart);
      steps := [Restart];
    } else {
      var before := RestoreAllWithout(reading, e, h, head, count, key, m - 1);
      var middle := RunTo(reading, e, before);
      RunsOne(reading, middle, Restore(m - 1));
      RunsConcat(reading, e, before, [Restore(m - 1)]);
      steps := before + [Restore(m - 1)];
    }
  }

  /** A key of two partitions can be lost altogether: each partition is saved while the row is
      noted under another one. */
  lemma SharedKeyCanVanish(reading: Reader, h: seq<Record>, head: nat, count: nat, p: nat, q: nat, key: Bytes) returns (steps: seq<Step>)
    requires Ascending(h, head) && NoneBroken(reading, h) && p < count && q < count && p != q
    requires Writes(reading, h, count, p, key) && Writes(reading, h, count, q, key)
    ensures ReachesHead(reading, h, head, count, steps)
    ensures key !in RunTo(reading, Engine(h, head, ColdQuery(count), []), steps).query.index.rows
    ensures key in AppliedAll(reading, EMPTY_INDEX, h).index.rows
  {
    hide NoneBroken, Ascending, Runs, RunTo, AppliedAll, LastPut;
    var w :| w in h && Puts(reading, w, key) && InPartition(count, p, w);
    var j :| 0 <= j < |h| && h[j] == w;
    AscendingBelow(h, head, j);
    AppliedIsLastPut(reading, EMPTY_INDEX, h, key);
    var start := Engine(h, head, ColdQuery(count), []);
    var saves := SaveAllWithout(reading, h, head, count, p, q, key, count);
    var restores := RestoreAllWithout(reading, RunTo(reading, start, saves), h, head, count, key, count);
    RunsConcat(reading, start, saves, restores);
    steps := saves + restores;
  }

  /** OWNED KEYS EXACTLY: with snapshots and restarts, every run that ends with all partitions
      at the head leaves the rows of one full replay if and only if no key is written from
      two partitions. */
  lemma OwnershipIsExact(reading: Reader, h: seq<Record>, head: nat, count: nat)
    requires count > 0 && Ascending(h, head) && NoneBroken(reading, h)
    ensures OwnedKeys(reading, h, count) <==>
      forall steps :: ReachesHead(reading, h, head, count, steps) ==>
        RunTo(reading, Engine(h, head, ColdQuery(count), []), steps).query.index.rows == AppliedAll(reading, EMPTY_INDEX, h).index.rows
  {
    hide NoneBroken, Ascending, Runs, RunTo, AppliedAll, PartitionOf, Puts;
    var start := Engine(h, head, ColdQuery(count), []);
    if OwnedKeys(reading, h, count) {
      forall steps | ReachesHead(reading, h, head, count, steps)
        ensures RunTo(reading, start, steps).query.index.rows == AppliedAll(reading, EMPTY_INDEX, h).index.rows
      {
        OwnedRunIsReplay(reading, h, head, count, steps);
      }
    } else {
      var r, s, key :| r in h && s in h && Puts(reading, r, key) && Puts(reading, s, key)
        && PartitionOf(r.envelope.streamId, count) != PartitionOf(s.envelope.streamId, count);
      var p, q := PartitionOf(r.envelope.streamId, count), PartitionOf(s.envelope.streamId, count);
      assert InPartition(count, p, r) && InPartition(count, q, s);
      var steps := SharedKeyCanVanish(reading, h, head, count, p, q, key);
    }
  }

  lemma OwnedRunIsReplay(reading: Reader, h: seq<Record>, head: nat, count: nat, steps: seq<Step>)
    requires count > 0 && Ascending(h, head) && OwnedKeys(reading, h, count)
    requires ReachesHead(reading, h, head, count, steps)
    ensures RunTo(reading, Engine(h, head, ColdQuery(count), []), steps).query.index.rows == AppliedAll(reading, EMPTY_INDEX, h).index.rows
  {
    hide HealInv, Runs, RunTo, AppliedAll, OwnedKeys, Ascending;
    ColdIsInv(reading, count);
    assert [] + h == h;
    GrowthKeeps(reading, [], 0, h, head, ColdQuery(count));
    var start := Engine(h, head, ColdQuery(count), []);
    RunKeeps(reading, start, steps);
    SameTimeline(reading, start, steps);
    var last := RunTo(reading, start, steps);
    HealedEqualsReplay(reading, last.h, last.head, last.query);
  }

  lemma {:induction false} SameTimeline(reading: Reader, e: Engine, steps: seq<Step>)
    requires Runs(reading, e, steps) && forall i :: 0 <= i < |steps| ==> !steps[i].Grow?
    ensures RunTo(reading, e, steps).h == e.h && RunTo(reading, e, steps).head == e.head
    decreases |steps|
  {
    hide OwnedKeys, Ascending, Healed, Part;
    if steps != [] {
      SameTimeline(reading, Stepped(reading, e, steps[0]), steps[1..]);
    }
  }
}
