/** What a read selects, said over the flat frame list, and which segments the planner
    hands to the streaming reader. */
module ReadPlan {
  import opened Base
  import opened LittleEndian
  import Lexicographic
  import opened Format
  import opened RecordWalk

  // ── selection ──────────────────────────────────────────────────────────

  /** The stable routing hash: eight little-endian bytes of the stream ID, modulo the count. */
  function PartitionOf(stream: Id, count: nat): (p: nat)
    requires count > 0
    ensures p < count
  {
    FromBytes(stream[..8]) % count
  }

  /** Binary search in a list of stream IDs. */
  predicate Probed(ids: seq<Id>, stream: Id)
    decreases |ids|
  {
    ids != [] &&
    var mid := |ids| / 2;
    if ids[mid] == stream then true
    else if Lexicographic.Less(ids[mid], stream) then Probed(ids[mid + 1..], stream)
    else Probed(ids[..mid], stream)
  }

  ghost predicate SortedIds(ids: seq<Id>) {
    forall i, j :: 0 <= i < j < |ids| ==> Lexicographic.Less(ids[i], ids[j])
  }

  /** What the search finds is in the list; in a sorted list it finds whatever is there. */
  lemma {:induction false} ProbedIsMember(ids: seq<Id>, stream: Id)
    ensures Probed(ids, stream) ==> stream in ids
    ensures SortedIds(ids) ==> (Probed(ids, stream) <==> stream in ids)
    decreases |ids|
  {
    hide Lexicographic.Less;
    if ids != [] {
      var mid := |ids| / 2;
      ProbedIsMember(ids[mid + 1..], stream);
      ProbedIsMember(ids[..mid], stream);
      assert ids == ids[..mid] + [ids[mid]] + ids[mid + 1..];
      if SortedIds(ids) && stream in ids && stream != ids[mid] {
        Lexicographic.Irreflexive(stream);
        if stream in ids[..mid] && Lexicographic.Less(ids[mid], stream) {
          Lexicographic.Transitive(stream, ids[mid], stream);
        }
      }
    }
  }

  datatype StreamSelector = All | Streams(ids: seq<Id>) | PartitionClass(count: nat, index: nat) {
    predicate Valid() {
      PartitionClass? ==> index < count
    }

    predicate Matches(stream: Id)
      requires Valid()
    {
      match this
      case All => true
      case Streams(ids) => Probed(ids, stream)
      case PartitionClass(count, index) => PartitionOf(stream, count) == index
    }
  }

  datatype FrameFilter = UserEvents | SystemOnly

  datatype Filter = Filter(
    from: nat,
    until: nat,
    selector: StreamSelector,
    scopes: Option<seq<(Id, nat)>>,
    time: Option<(int, int)>,
    kinds: FrameFilter,
    maxEvents: Option<nat>,
    digests: bool)

  function RawFilter(from: nat, until: nat, kinds: FrameFilter): Filter {
    Filter(from, until, All, None, None, kinds, None, false)
  }

  predicate InScopes(branch: Id, position: nat, scopes: seq<(Id, nat)>) {
    exists i :: 0 <= i < |scopes| && scopes[i].0 == branch && position < scopes[i].1
  }

  predicate Passes(f: Filter, r: Record)
    requires f.selector.Valid()
  {
    && (if f.kinds == UserEvents then r.kind == Event else r.kind == System)
    && (r.kind == Event ==> r.position >= f.from)
    && f.selector.Matches(r.envelope.streamId)
    && (f.scopes.None? || InScopes(r.envelope.branchId, r.position, f.scopes.value))
    && (f.time.None? || f.time.value.0 <= r.envelope.timestamp < f.time.value.1)
  }

  predicate PastEnd(f: Filter, r: Record) {
    r.kind == Event && r.position >= f.until
  }

  /** The reference reader: walk the frames in log order, stop at the first event at or
      past the end, keep what passes. */
  function Selected(f: Filter, rs: seq<Record>): seq<Record>
    requires f.selector.Valid()
  {
    if rs == [] || PastEnd(f, rs[0]) then []
    else (if Passes(f, rs[0]) then [rs[0]] else []) + Selected(f, rs[1..])
  }

  /** The plain filter of a flat event list by window, selector, scopes and time. */
  function Filtered(f: Filter, rs: seq<Record>): seq<Record>
    requires f.selector.Valid()
  {
    if rs == [] then []
    else (if Passes(f, rs[0]) && rs[0].position < f.until then [rs[0]] else []) + Filtered(f, rs[1..])
  }

  function Limited(rs: seq<Record>, max: Option<nat>, yielded: nat): seq<Record> {
    if max.None? then rs
    else rs[..Min(|rs|, Max(0, max.value - yielded))]
  }

  lemma {:induction false} SelectedConcat(f: Filter, a: seq<Record>, b: seq<Record>)
    requires f.selector.Valid() && forall r :: r in a ==> !PastEnd(f, r)
    ensures Selected(f, a + b) == Selected(f, a) + Selected(f, b)
    decreases |a|
  {
    hide Passes, PastEnd;
    if a == [] {
      assert a + b == b;
    } else {
      assert (a + b)[1..] == a[1..] + b;
      assert a[0] in a;
      SelectedConcat(f, a[1..], b);
    }
  }

  lemma {:induction false} NothingSelected(f: Filter, a: seq<Record>, b: seq<Record>)
    requires f.selector.Valid() && forall r :: r in a ==> !Passes(f, r)
    ensures (forall r :: r in a ==> !PastEnd(f, r)) ==> Selected(f, a + b) == Selected(f, b)
    ensures (exists r :: r in a && PastEnd(f, r)) ==> Selected(f, a + b) == []
    decreases |a|
  {
    hide Passes, PastEnd;
    if a == [] {
      assert a + b == b;
    } else {
      assert (a + b)[1..] == a[1..] + b;
      assert a[0] in a;
      assert a == [a[0]] + a[1..];
      NothingSelected(f, a[1..], b);
    }
  }

  lemma {:induction false} FilteredConcat(f: Filter, a: seq<Record>, b: seq<Record>)
    requires f.selector.Valid()
    ensures Filtered(f, a + b) == Filtered(f, a) + Filtered(f, b)
    decreases |a|
  {
    hide Passes;
    if a == [] {
      assert a + b == b;
    } else {
      assert (a + b)[1..] == a[1..] + b;
      FilteredConcat(f, a[1..], b);
    }
  }

  // ── planning ───────────────────────────────────────────────────────────

  /** How many leading elements of an ascending list lie below `bound`. */
  function PartitionPoint(bases: seq<nat>, bound: nat): (n: nat)
    ensures n <= |bases|
    ensures forall i :: 0 <= i < n ==> bases[i] < bound
    ensures n < |bases| ==> bases[n] >= bound
  {
    if bases == [] || bases[0] >= bound then 0 else 1 + PartitionPoint(bases[1..], bound)
  }

  /** The index range of segments that can intersect `[from, until)`. */
  function IntersectingRange(bases: seq<nat>, overallEnd: nat, from: nat, until: nat): (r: (nat, nat))
    ensures r.0 <= r.1 <= |bases|
  {
    if bases == [] || from >= Min(overallEnd, until) then (0, 0)
    else
      var start := Max(0, PartitionPoint(bases, from + 1) - 1);
      var stop := PartitionPoint(bases, until);
      (start, Max(stop, start))
  }

  /** Segment `i` holds the positions from its base up to the next one's, the last up to the end. */
  predicate Holds(bases: seq<nat>, overallEnd: nat, i: nat, position: nat) {
    i < |bases| && bases[i] <= position < if i + 1 < |bases| then bases[i + 1] else overallEnd
  }

  /** PRUNING: a segment that holds a position of the window is never pruned. */
  lemma PrunedHoldsNothing(bases: seq<nat>, overallEnd: nat, from: nat, until: nat, i: nat, position: nat)
    requires forall j, k :: 0 <= j < k < |bases| ==> bases[j] < bases[k]
    requires forall j :: 0 <= j < |bases| ==> bases[j] <= overallEnd
    requires from <= position < until && Holds(bases, overallEnd, i, position)
    ensures IntersectingRange(bases, overallEnd, from, until).0 <= i < IntersectingRange(bases, overallEnd, from, until).1
  {
    var start, stop := PartitionPoint(bases, from + 1), PartitionPoint(bases, until);
    assert position < overallEnd;
    assert stop < |bases| ==> bases[stop] >= until;
    assert start < |bases| ==> bases[start] > from;
  }
}
