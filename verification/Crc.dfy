/** CRC32C (RFC 3720 section 12.1) as a left fold over bytes: reflected
    polynomial, all-ones preset, complemented result. */
module Crc {
  import opened Base

  const ALL_ONES: u32 := 0xFFFF_FFFF
  const POLYNOMIAL: u32 := 0x82F6_3B78

  function Pow2(n: nat): nat {
    if n == 0 then 1 else 2 * Pow2(n - 1)
  }

  lemma Pow2At32()
    ensures Pow2(32) == 0x1_0000_0000
  {
    assert Pow2(8) == 0x100;
    assert Pow2(16) == 0x1_0000;
    assert Pow2(24) == 0x100_0000;
  }

  /** Bitwise exclusive or. */
  function Xor(a: nat, b: nat): nat {
    if a == 0 && b == 0 then 0 else (a + b) % 2 + 2 * Xor(a / 2, b / 2)
  }

  lemma {:induction false} XorBound(a: nat, b: nat, n: nat)
    requires a < Pow2(n) && b < Pow2(n)
    ensures Xor(a, b) < Pow2(n)
  {
    if a != 0 || b != 0 {
      XorBound(a / 2, b / 2, n - 1);
    }
  }

  function Xor32(a: u32, b: u32): u32 {
    Pow2At32();
    XorBound(a, b, 32);
    Xor(a, b)
  }

  function ShiftBits(state: u32, bits: nat): u32
    decreases bits, state
  {
    if bits == 0 then state
    else ShiftBits(if state % 2 == 1 then Xor32(state / 2, POLYNOMIAL) else state / 2, bits - 1)
  }

  function Update(state: u32, data: Bytes): u32
    decreases |data|
  {
    if data == [] then state
    else Update(ShiftBits(Xor32(state, data[0]), 8), data[1..])
  }

  function Crc32cAppend(crc: u32, data: Bytes): u32 {
    ALL_ONES - Update(ALL_ONES - crc, data)
  }

  function Crc32c(data: Bytes): u32 {
    Crc32cAppend(0, data)
  }

  lemma {:induction false} UpdateConcat(state: u32, a: Bytes, b: Bytes)
    ensures Update(state, a + b) == Update(Update(state, a), b)
    decreases |a|
  {
    if a == [] {
      assert a + b == b;
    } else {
      assert (a + b)[1..] == a[1..] + b;
      UpdateConcat(ShiftBits(Xor32(state, a[0]), 8), a[1..], b);
    }
  }

  /** The law that lets a reader check a batch digest frame by frame. */
  lemma AppendConcat(crc: u32, a: Bytes, b: Bytes)
    ensures Crc32cAppend(crc, a + b) == Crc32cAppend(Crc32cAppend(crc, a), b)
  {
    UpdateConcat(ALL_ONES - crc, a, b);
  }

  // ── no single byte can change unnoticed ────────────────────────────────

  lemma {:induction false} XorCancels(a: nat, x: nat, y: nat)
    requires Xor(a, x) == Xor(a, y)
    ensures x == y
    decreases a + x + y
  {
    hide Xor;
    if a != 0 || x != 0 || y != 0 {
      LowBit(a, x);
      LowBit(a, y);
      XorCancels(a / 2, x / 2, y / 2);
      SameParity(a, x, y);
    }
  }

  lemma SameParity(a: nat, x: nat, y: nat)
    requires (a + x) % 2 == (a + y) % 2 && x / 2 == y / 2
    ensures x == y
  {
    Parity(a, x);
    Parity(a, y);
  }

  lemma Parity(a: nat, x: nat)
    ensures (a + x) % 2 == if a % 2 == x % 2 then 0 else 1
  {
  }

  lemma LowBit(a: nat, b: nat)
    ensures Xor(a, b) % 2 == (a + b) % 2 && Xor(a, b) / 2 == Xor(a / 2, b / 2)
  {
    hide Xor;
    XorStep(a, b);
    HalvesBack(Xor(a / 2, b / 2), (a + b) % 2);
  }

  lemma XorStep(a: nat, b: nat)
    ensures Xor(a, b) == Xor(a / 2, b / 2) * 2 + (a + b) % 2
  {
  }

  lemma {:induction false} XorCommutes(a: nat, b: nat)
    ensures Xor(a, b) == Xor(b, a)
    decreases a + b
  {
    if a != 0 || b != 0 {
      XorCommutes(a / 2, b / 2);
    }
  }

  lemma HalvesBack(q: nat, bit: nat)
    requires bit < 2
    ensures (q * 2 + bit) / 2 == q && (q * 2 + bit) % 2 == bit
  {
  }

  /** The polynomial's top bit survives: a shifted-out one can be told from a zero. */
  lemma {:induction false} XorKeepsTop(a: nat, b: nat, n: nat)
    requires a < Pow2(n) <= b
    ensures Xor(a, b) >= Pow2(n)
    decreases n
  {
    if n == 0 {
      SomeBit(b);
    } else {
      XorKeepsTop(a / 2, b / 2, n - 1);
    }
  }

  lemma {:induction false} SomeBit(b: nat)
    requires b > 0
    ensures Xor(0, b) > 0
    decreases b
  {
    if b > 1 {
      SomeBit(b / 2);
    }
  }

  function Shifted(state: u32): u32 {
    if state % 2 == 1 then Xor32(state / 2, POLYNOMIAL) else state / 2
  }

  lemma ShiftedBack(s: u32, t: u32)
    requires Shifted(s) == Shifted(t)
    ensures s == t
  {
    hide Xor, Pow2;
    Pow2At32();
    Pow2At31();
    if s % 2 == 1 && t % 2 == 1 {
      XorCommutes(s / 2, POLYNOMIAL);
      XorCommutes(t / 2, POLYNOMIAL);
      XorCancels(POLYNOMIAL, s / 2, t / 2);
    } else if s % 2 == 1 {
      XorKeepsTop(s / 2, POLYNOMIAL, 31);
    } else if t % 2 == 1 {
      XorKeepsTop(t / 2, POLYNOMIAL, 31);
    }
  }

  lemma Pow2At31()
    ensures Pow2(31) == 0x8000_0000
  {
    Pow2At32();
    assert Pow2(32) == 2 * Pow2(31);
  }

  lemma {:induction false} ShiftBack(s: u32, t: u32, bits: nat)
    requires ShiftBits(s, bits) == ShiftBits(t, bits)
    ensures s == t
    decreases bits
  {
    hide Xor32;
    if bits > 0 {
      ShiftBack(Shifted(s), Shifted(t), bits - 1);
      ShiftedBack(s, t);
    }
  }

  /** From different states the same bytes lead to different states. */
  lemma {:induction false} UpdateBack(s: u32, t: u32, data: Bytes)
    requires Update(s, data) == Update(t, data)
    ensures s == t
    decreases |data|
  {
    hide ShiftBits, Xor;
    if data != [] {
      UpdateBack(ShiftBits(Xor32(s, data[0]), 8), ShiftBits(Xor32(t, data[0]), 8), data[1..]);
      ShiftBack(Xor32(s, data[0]), Xor32(t, data[0]), 8);
      XorCommutes(s, data[0]);
      XorCommutes(t, data[0]);
      XorCancels(data[0], s, t);
    }
  }

  /** ONE BYTE: two strings that differ in exactly one byte have different checksums. */
  lemma OneByteTells(state: u32, a: Bytes, x: byte, y: byte, b: Bytes)
    requires Update(state, a + [x] + b) == Update(state, a + [y] + b)
    ensures x == y
  {
    hide ShiftBits, Xor;
    var s := Update(state, a);
    UpdateConcat(state, a + [x], b);
    UpdateConcat(state, a + [y], b);
    UpdateConcat(state, a, [x]);
    UpdateConcat(state, a, [y]);
    UpdateBack(Update(s, [x]), Update(s, [y]), b);
    OneStep(s, x);
    OneStep(s, y);
    ShiftBack(Xor32(s, x), Xor32(s, y), 8);
    XorCancels(s, x, y);
  }

  lemma OneStep(state: u32, x: byte)
    ensures Update(state, [x]) == ShiftBits(Xor32(state, x), 8)
  {
    hide ShiftBits, Xor32;
    assert [x][1..] == [];
  }
}
