/** Shared vocabulary: machine-width integers, results and the error kinds
    that callers tell apart. */
module Base {

  /** Positions, revisions and lengths are 64-bit. */
  const POSITIONS := 0x1_0000_0000_0000_0000

  type byte = x: int | 0 <= x < 0x100
  type u16 = x: int | 0 <= x < 0x1_0000
  type u32 = x: int | 0 <= x < 0x1_0000_0000
  type u64 = x: int | 0 <= x < POSITIONS
  type i64 = x: int | -0x8000_0000_0000_0000 <= x < 0x8000_0000_0000_0000

  type Bytes = seq<byte>

  const ZERO_ID: Bytes := [0, 0, 0, 0, 0, 0, 0, 0, 0, 0, 0, 0, 0, 0, 0, 0]

  /** A 128-bit identifier (event, database, branch, stream, batch). */
  type Id = b: Bytes | |b| == 16 witness ZERO_ID

  datatype Option<+T> = None | Some(value: T)

  datatype Error =
    | InvalidFormat
    | ResourceLimit
    | Corrupt(offset: nat)
    | InvalidArgument
    | SegmentExists
    | BadManifest
    | OffsetBeyondHead(position: nat)
    | PositionUnavailable(requested: nat)
    | NotBatchBoundary(position: nat)
    | BranchNotFound
    | BranchExists
    | BranchArchived
    | InvalidBranchAncestry
    | RevisionConflict
    | IdempotencyConflict
    | EventIdConflict
    | BatchIdConflict
    | Cancelled

  datatype Result<+T> = Ok(value: T) | Err(error: Error) {
    predicate IsFailure() {
      Err?
    }

    function PropagateFailure<U>(): Result<U>
      requires Err?
    {
      Err(error)
    }

    function Extract(): T
      requires Ok?
    {
      value
    }
  }

  function Min(a: int, b: int): int {
    if a <= b then a else b
  }

  function Max(a: int, b: int): int {
    if a <= b then b else a
  }
}

/** Fixed-width little-endian integers, as every header field is stored. */
module LittleEndian {
  import opened Base

  function Pow256(n: nat): nat {
    if n == 0 then 1 else 0x100 * Pow256(n - 1)
  }

  lemma PowersOf256()
    ensures Pow256(2) == 0x1_0000
    ensures Pow256(4) == 0x1_0000_0000
    ensures Pow256(8) == POSITIONS
  {
    assert Pow256(2) == 0x1_0000;
    assert Pow256(4) == 0x1_0000_0000;
    assert Pow256(6) == 0x1_0000_0000_0000;
  }

  function ToBytes(value: nat, width: nat): (b: Bytes)
    ensures |b| == width
    decreases width, value
  {
    if width == 0 then [] else [value % 0x100] + ToBytes(value / 0x100, width - 1)
  }

  function FromBytes(b: Bytes): (value: nat)
    ensures value < Pow256(|b|)
  {
    if b == [] then 0 else b[0] + 0x100 * FromBytes(b[1..])
  }

  lemma {:induction false} FromToBytes(value: nat, width: nat)
    requires value < Pow256(width)
    ensures FromBytes(ToBytes(value, width)) == value
    decreases width
  {
    if width != 0 {
      FromToBytes(value / 0x100, width - 1);
      assert ToBytes(value, width)[1..] == ToBytes(value / 0x100, width - 1);
    }
  }

  lemma {:induction false} ToFromBytes(b: Bytes)
    ensures ToBytes(FromBytes(b), |b|) == b
    decreases |b|
  {
    if b != [] {
      ToFromBytes(b[1..]);
      assert FromBytes(b) % 0x100 == b[0] && FromBytes(b) / 0x100 == FromBytes(b[1..]);
    }
  }

  /** Two's complement for the one signed field, the timestamp. */
  function FromI64(value: i64): u64 {
    if value >= 0 then value else value + POSITIONS
  }

  function ToI64(value: u64): i64 {
    if value < 0x8000_0000_0000_0000 then value else value - POSITIONS
  }
}

/** Byte-string order, as `BTreeMap<String, _>` and the sorted ID lists use it. */
module Lexicographic {
  import opened Base

  predicate Less(a: Bytes, b: Bytes) {
    b != [] && (a == [] || a[0] < b[0] || (a[0] == b[0] && Less(a[1..], b[1..])))
  }

  lemma {:induction false} Irreflexive(a: Bytes)
    ensures !Less(a, a)
  {
    if a != [] {
      Irreflexive(a[1..]);
    }
  }

  lemma {:induction false} Transitive(a: Bytes, b: Bytes, c: Bytes)
    requires Less(a, b) && Less(b, c)
    ensures Less(a, c)
  {
    if a != [] && a[0] == b[0] && b[0] == c[0] {
      Transitive(a[1..], b[1..], c[1..]);
    }
  }

  lemma {:induction false} Trichotomy(a: Bytes, b: Bytes)
    ensures Less(a, b) || a == b || Less(b, a)
  {
    if a != [] && b != [] && a[0] == b[0] {
      Trichotomy(a[1..], b[1..]);
      assert a == [a[0]] + a[1..] && b == [b[0]] + b[1..];
    }
  }
}
