/** What every step of the log keeps, what a crash can take, and what reclaim cannot. */
module LogLaws {
  import opened Base
  import opened Format
  import opened RecordWalk
  import opened RecordWalkLaws
  import opened LogMachine

  // ── chains of segments ─────────────────────────────────────────────────

  ghost predicate Chain(gs: seq<Seg>, floor: nat) {
    && (forall i :: 0 <= i < |gs| ==> ValidUnits(gs[i].units, gs[i].base))
    && (forall i :: 0 <= i < |gs| - 1 ==> Linked(gs[i], gs[i + 1], floor))
  }

  ghost predicate HasBase(gs: seq<Seg>, base: nat) {
    exists i :: 0 <= i < |gs| && gs[i].base == base
  }

  lemma ChainOf(s: LogState)
    requires LogInv(s)
    ensures Chain(Segs(s), s.floor) && HasBase(Segs(s), s.floor)
    ensures Segs(s)[|s.closed|] == s.active
  {
    hide ValidUnits;
    forall i | 0 <= i < |Segs(s)| - 1 ensures Linked(Segs(s)[i], Segs(s)[i + 1], s.floor) {
      assert Segs(s)[i] == s.closed[i];
    }
  }

  lemma TailOfChain(gs: seq<Seg>, floor: nat)
    requires Chain(gs, floor) && gs != []
    ensures Chain(gs[1..], floor)
  {
    hide ValidUnits;
    forall i | 0 <= i < |gs[1..]| - 1 ensures Linked(gs[1..][i], gs[1..][i + 1], floor) {
      assert Linked(gs[i + 1], gs[i + 2], floor);
    }
  }

  lemma {:induction false} BasesAscend(gs: seq<Seg>, floor: nat)
    requires Chain(gs, floor)
    ensures forall i, j :: 0 <= i < j < |gs| ==> gs[i].base < gs[j].base
    decreases |gs|
  {
    hide ValidUnits;
    if |gs| > 1 {
      TailOfChain(gs, floor);
      BasesAscend(gs[1..], floor);
      assert Linked(gs[0], gs[0 + 1], floor);
      forall i, j | 0 <= i < j < |gs| ensures gs[i].base < gs[j].base {
        assert gs[j] == gs[1..][j - 1];
        if i > 0 {
          assert gs[i] == gs[1..][i - 1];
        } else {
          assert gs[1] == gs[1..][0];
        }
      }
    }
  }

  lemma {:induction false} ReadableConcat(a: seq<Seg>, b: seq<Seg>, floor: nat)
    ensures ReadableFrom(a + b, floor) == ReadableFrom(a, floor) + ReadableFrom(b, floor)
    decreases |a|
  {
    hide Events;
    if a == [] {
      assert a + b == b;
    } else {
      assert (a + b)[1..] == a[1..] + b;
      ReadableConcat(a[1..], b, floor);
    }
  }

  lemma ReadableOfOne(g: Seg, floor: nat)
    ensures ReadableFrom([g], floor) == if g.base >= floor then Events(g.units) else []
  {
    hide Events;
    assert [g][1..] == [];
  }

  /** Where the readable events of a chain start. */
  function Start(gs: seq<Seg>, floor: nat): nat
    requires gs != []
  {
    Max(gs[0].base, floor)
  }

  lemma ChainHead(gs: seq<Seg>, floor: nat)
    requires gs != [] && Chain(gs, floor)
    ensures ValidUnits(gs[0].units, gs[0].base)
  {
  }

  lemma BaseInTail(gs: seq<Seg>, floor: nat)
    requires |gs| > 1 && Chain(gs, floor) && (gs[0].base >= floor || HasBase(gs, floor))
    ensures gs[1].base >= floor || HasBase(gs[1..], floor)
    ensures Start(gs[1..], floor) == if gs[0].base >= floor then End(gs[0]) else floor
  {
    hide ValidUnits, Events;
    BasesAscend(gs, floor);
    assert Linked(gs[0], gs[0 + 1], floor);
    if gs[0].base < floor {
      var k :| 0 <= k < |gs| && gs[k].base == floor;
      assert gs[1..][k - 1].base == floor;
    }
  }

  /** Events whose positions count up from `start`. */
  ghost predicate DenseFrom(rs: seq<Record>, start: nat) {
    forall i :: 0 <= i < |rs| ==> rs[i].position == start + i && rs[i].kind == Event
  }

  lemma SegmentIsDense(g: Seg)
    requires ValidUnits(g.units, g.base)
    ensures DenseFrom(Events(g.units), g.base) && forall n: nat :: DenseFrom([], n)
  {
    hide ValidUnits, Events;
    EventsAreDense(g.units, g.base);
  }

  lemma ReadableStep(gs: seq<Seg>, floor: nat)
    requires gs != []
    ensures ReadableFrom(gs, floor) == (if gs[0].base >= floor then Events(gs[0].units) else []) + ReadableFrom(gs[1..], floor)
  {
    hide Events;
  }

  lemma OnlyBase(gs: seq<Seg>, floor: nat)
    requires |gs| == 1 && (gs[0].base >= floor || HasBase(gs, floor))
    ensures gs[0].base >= floor
  {
  }

  lemma DenseConcat(a: seq<Record>, b: seq<Record>, start: nat)
    requires DenseFrom(a, start) && DenseFrom(b, start + |a|)
    ensures DenseFrom(a + b, start)
  {
    forall i | 0 <= i < |a + b| ensures (a + b)[i].position == start + i && (a + b)[i].kind == Event {
      if i >= |a| {
        assert (a + b)[i] == b[i - |a|];
      }
    }
  }

  lemma {:induction false} ReadableIsDense(gs: seq<Seg>, floor: nat)
    requires gs != [] && Chain(gs, floor) && (gs[0].base >= floor || HasBase(gs, floor))
    ensures var r := ReadableFrom(gs, floor);
      Start(gs, floor) + |r| == End(gs[|gs| - 1]) && DenseFrom(r, Start(gs, floor))
    decreases |gs|
  {
    hide ValidUnits, Events, Chain, DenseFrom, ReadableFrom, HasBase;
    ChainHead(gs, floor);
    SegmentIsDense(gs[0]);
    if |gs| == 1 {
      ReadableOfOne(gs[0], floor);
      OnlyBase(gs, floor);
      assert gs == [gs[0]];
    } else {
      ReadableStep(gs, floor);
      TailOfChain(gs, floor);
      BaseInTail(gs, floor);
      ReadableIsDense(gs[1..], floor);
      var head: seq<Record> := if gs[0].base >= floor then Events(gs[0].units) else [];
      DenseConcat(head, ReadableFrom(gs[1..], floor), Start(gs, floor));
    }
  }

  lemma ReadableShape(s: LogState)
    requires LogInv(s)
    ensures s.floor + |Readable(s)| == Head(s) && s.floor <= s.active.base
    ensures forall i :: 0 <= i < |Readable(s)| ==> Readable(s)[i].position == s.floor + i && Readable(s)[i].kind == Event
  {
    hide LogInv, Chain, ReadableFrom;
    ChainOf(s);
    BasesAscend(Segs(s), s.floor);
    var k :| 0 <= k < |Segs(s)| && Segs(s)[k].base == s.floor;
    ReadableIsDense(Segs(s), s.floor);
    if k < |s.closed| {
      assert Segs(s)[k].base < Segs(s)[|s.closed|].base;
    }
  }

  // ── all units of a log ─────────────────────────────────────────────────

  function UnitsOf(gs: seq<Seg>): seq<Unit> {
    if gs == [] then [] else gs[0].units + UnitsOf(gs[1..])
  }

  function AllUnits(s: LogState): seq<Unit> {
    UnitsOf(Segs(s))
  }

  lemma {:induction false} UnitsOfConcat(a: seq<Seg>, b: seq<Seg>)
    ensures UnitsOf(a + b) == UnitsOf(a) + UnitsOf(b)
    decreases |a|
  {
    if a == [] {
      assert a + b == b;
    } else {
      assert (a + b)[1..] == a[1..] + b;
      UnitsOfConcat(a[1..], b);
    }
  }

  lemma UnitsSplit(s: LogState)
    ensures AllUnits(s) == UnitsOf(s.closed) + s.active.units
  {
    UnitsOfConcat(s.closed, [s.active]);
    assert [s.active][1..] == [];
  }

  /** A switch to an empty segment changes no unit. */
  lemma UnitsOfSwitch(s: LogState)
    ensures AllUnits(Apply(s, RollSwitch)) == AllUnits(s)
  {
    UnitsOfConcat(Segs(s), [Apply(s, RollSwitch).active]);
    assert [Apply(s, RollSwitch).active][1..] == [];
    assert Segs(Apply(s, RollSwitch)) == Segs(s) + [Apply(s, RollSwitch).active];
  }

  lemma {:induction false} EverythingReadable(gs: seq<Seg>, floor: nat)
    requires forall i :: 0 <= i < |gs| ==> gs[i].base >= floor
    ensures ReadableFrom(gs, floor) == Events(UnitsOf(gs))
    decreases |gs|
  {
    if gs != [] {
      EverythingReadable(gs[1..], floor);
      ContentConcat(gs[0].units, UnitsOf(gs[1..]));
    }
  }

  // ── retention ──────────────────────────────────────────────────────────

  /** Raising the floor to a base drops a prefix of what was readable. */
  lemma {:induction false} RaiseFloor(gs: seq<Seg>, low: nat, high: nat) returns (dropped: seq<Record>)
    requires low <= high && forall i, j :: 0 <= i < j < |gs| ==> gs[i].base < gs[j].base
    ensures ReadableFrom(gs, low) == dropped + ReadableFrom(gs, high)
    decreases |gs|
  {
    hide Events;
    if gs == [] {
      dropped := [];
    } else {
      var more := RaiseFloor(gs[1..], low, high);
      if gs[0].base >= high {
        SameAboveFloor(gs, low, high);
        dropped := [];
      } else {
        dropped := (if gs[0].base >= low then Events(gs[0].units) else []) + more;
      }
    }
  }

  lemma {:induction false} SameAboveFloor(gs: seq<Seg>, low: nat, high: nat)
    requires low <= high && forall i :: 0 <= i < |gs| ==> gs[i].base >= high
    ensures ReadableFrom(gs, low) == ReadableFrom(gs, high)
    decreases |gs|
  {
    if gs != [] {
      SameAboveFloor(gs[1..], low, high);
    }
  }

  lemma {:induction false} GreatestBaseIsBase(bases: seq<nat>, requested: nat, best: nat)
    requires best <= requested
    ensures var r := GreatestBase(bases, requested, best);
      && best <= r <= requested && (r == best || r in bases)
      && forall b :: b in bases && b <= requested ==> b <= r
    decreases |bases|
  {
    if bases != [] {
      GreatestBaseIsBase(bases[1..], requested, if best <= bases[0] <= requested then bases[0] else best);
      assert bases == [bases[0]] + bases[1..];
    }
  }

  /** The planned floor is a segment base, never beyond the request and never backward,
      and no other base fits between it and the request. */
  lemma BoundaryIsBase(s: LogState, requested: nat)
    requires LogInv(s) && s.floor <= requested
    ensures var f := RetentionBoundary(s, requested);
      && s.floor <= f <= requested && HasBase(Segs(s), f)
      && forall i :: 0 <= i < |Segs(s)| && Segs(s)[i].base <= requested ==> Segs(s)[i].base <= f
  {
    hide LogInv, Chain;
    ChainOf(s);
    var bases := Bases(Segs(s));
    GreatestBaseIsBase(bases, requested, s.floor);
    forall i | 0 <= i < |Segs(s)| && Segs(s)[i].base <= requested ensures Segs(s)[i].base <= RetentionBoundary(s, requested) {
      assert bases[i] in bases;
    }
  }

  lemma {:induction false} ReclaimedSubset(closed: seq<Seg>, floor: nat, stuck: set<nat>)
    ensures forall g :: g in Reclaimed(closed, floor, stuck) ==> g in closed
    ensures forall g :: g in closed && g.base >= floor ==> g in Reclaimed(closed, floor, stuck)
    ensures forall g :: g in Reclaimed(closed, floor, {}) ==> g.base >= floor
    decreases |closed|
  {
    if closed != [] {
      ReclaimedSubset(closed[1..], floor, stuck);
      assert closed == [closed[0]] + closed[1..];
    }
  }

  lemma {:induction false} ReclaimedReadsSame(closed: seq<Seg>, floor: nat, stuck: set<nat>)
    ensures ReadableFrom(Reclaimed(closed, floor, stuck), floor) == ReadableFrom(closed, floor)
    decreases |closed|
  {
    hide Events;
    if closed != [] {
      var first := if closed[0].base >= floor || closed[0].base in stuck then [closed[0]] else [];
      ReclaimedReadsSame(closed[1..], floor, stuck);
      ReadableConcat(first, Reclaimed(closed[1..], floor, stuck), floor);
      ReadableOfOne(closed[0], floor);
    }
  }

  /** Reclaim drops nothing at or above the floor and leaves the rest in order. */
  lemma {:induction false} ReclaimedKeepsChain(closed: seq<Seg>, active: Seg, floor: nat, stuck: set<nat>)
    requires Chain(closed + [active], floor)
    ensures Chain(Reclaimed(closed, floor, stuck) + [active], floor)
    ensures var kept := Reclaimed(closed, floor, stuck) + [active];
      closed != [] ==> kept[0] == closed[0] || (closed[0].base < floor && End(closed[0]) <= kept[0].base && closed[0].base < kept[0].base)
    decreases |closed|
  {
    hide ValidUnits, Events;
    var gs := closed + [active];
    if closed != [] {
      assert gs[1..] == closed[1..] + [active];
      TailOfChain(gs, floor);
      ReclaimedKeepsChain(closed[1..], active, floor, stuck);
      assert Linked(gs[0], gs[0 + 1], floor);
      assert gs[1] == (closed[1..] + [active])[0];
      var rest := Reclaimed(closed[1..], floor, stuck) + [active];
      var kept := Reclaimed(closed, floor, stuck) + [active];
      if closed[0].base >= floor || closed[0].base in stuck {
        assert kept == [closed[0]] + rest;
        if closed[0].base >= floor && |closed| > 1 {
          assert rest[0] == closed[1];
        }
        forall i | 0 <= i < |kept| - 1 ensures Linked(kept[i], kept[i + 1], floor) {
          if i > 0 {
            assert Linked(rest[i - 1], rest[i - 1 + 1], floor);
          }
        }
      } else {
        assert kept == rest;
      }
    } else {
      assert Reclaimed(closed, floor, stuck) + [active] == gs;
    }
  }
}
