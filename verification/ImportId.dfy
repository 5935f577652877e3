/** Event and batch IDs for imported records: the offset is folded into the source's
    identity and the sixteen bytes are stirred four times. No two offsets of one source
    collide, because every part of the stirring can be undone. */
module ImportIds {
  import opened Base
  import opened LittleEndian
  import Crc

  function Xor8(a: byte, b: byte): byte {
    assert Crc.Pow2(8) == 0x100;
    Crc.XorBound(a, b, 8);
    Crc.Xor(a, b)
  }

  /** 2 to the `k`, for the places a byte is rotated by and the places left over. */
  function Places(k: nat): (p: nat)
    requires 1 <= k <= 7
    ensures 2 <= p <= 128
  {
    if k == 1 then 2 else if k == 2 then 4 else if k == 3 then 8 else if k == 4 then 16
    else if k == 5 then 32 else if k == 6 then 64 else 128
  }

  /** The low `8 - k` bits go up by `k`, the high `k` bits come in below. */
  function RotateLeft(x: byte, k: nat): byte
    requires 1 <= k <= 7
  {
    RotatedIsByte(x, Places(8 - k), Places(k), k);
    (x % Places(8 - k)) * Places(k) + x / Places(8 - k)
  }

  function RotateRight(x: byte, k: nat): byte
    requires 1 <= k <= 7
  {
    RotatedIsByte(x, Places(k), Places(8 - k), 8 - k);
    (x % Places(k)) * Places(8 - k) + x / Places(k)
  }

  lemma RotatedIsByte(x: byte, low: nat, high: nat, k: nat)
    requires 1 <= k <= 7 && low == Places(8 - k) && high == Places(k)
    ensures (x % low) * high + x / low < 0x100
  {
    if k == 1 {} else if k == 2 {} else if k == 3 {} else if k == 4 {} else if k == 5 {} else if k == 6 {} else {}
  }

  lemma SplitBack(q: nat, r: nat, p: nat)
    requires r < p
    ensures (q * p + r) / p == q && (q * p + r) % p == r
  {
    var whole := q * p + r;
    assert whole == (whole / p) * p + whole % p;
    Scaled(whole / p, q, p);
    Scaled(q, whole / p, p);
  }

  lemma {:induction false} Scaled(a: nat, b: nat, p: nat)
    ensures a < b ==> a * p + p <= b * p
    decreases b
  {
    if a < b {
      assert b * p == (b - 1) * p + p;
      if a + 1 < b {
        Scaled(a, b - 1, p);
      }
    }
  }

  lemma RotateBackBy(x: nat, low: nat, high: nat, y: nat)
    requires low > 0 && x / low < high && y == (x % low) * high + x / low
    ensures (y % high) * low + y / high == x
  {
    SplitBack(x % low, x / low, high);
    Rejoined(x, low);
  }

  lemma RotateBack(x: byte, k: nat)
    requires 1 <= k <= 7
    ensures RotateRight(RotateLeft(x, k), k) == x
  {
    hide Places;
    HighBitsFit(x, k);
    RotateBackBy(x, Places(8 - k), Places(k), RotateLeft(x, k));
  }

  lemma Rejoined(x: nat, low: nat)
    requires low > 0
    ensures (x / low) * low + x % low == x
  {
  }

  lemma HighBitsFit(x: byte, k: nat)
    requires 1 <= k <= 7
    ensures x / Places(8 - k) < Places(k)
  {
    if k == 1 {} else if k == 2 {} else if k == 3 {} else if k == 4 {} else if k == 5 {} else if k == 6 {} else {}
  }

  function WrappingAdd(a: int, b: int): byte {
    (a + b) % 0x100
  }

  function WrappingSub(a: int, b: int): byte {
    (a - b) % 0x100
  }

  // ── one step of the stirring ───────────────────────────────────────────

  /** Step `n` works on byte `n % 16` in round `n / 16`. */
  function Turn(n: nat): (k: nat)
    ensures 1 <= k <= 7
  {
    (n / 16 + n % 16) % 7 + 1
  }

  function Stirred(s: Id, n: nat): Id {
    var i := n % 16;
    s[i := RotateLeft(WrappingAdd(s[i], s[(i + 1) % 16]), Turn(n))]
  }

  function Unstirred(s: Id, n: nat): Id {
    var i := n % 16;
    s[i := WrappingSub(RotateRight(s[i], Turn(n)), s[(i + 1) % 16])]
  }

  /** Every step can be undone. */
  lemma StirUndone(s: Id, n: nat)
    ensures Unstirred(Stirred(s, n), n) == s
  {
    hide RotateLeft, RotateRight, Turn;
    var i := n % 16;
    RotateBack(WrappingAdd(s[i], s[(i + 1) % 16]), Turn(n));
    assert Stirred(s, n)[(i + 1) % 16] == s[(i + 1) % 16];
  }

  function StirredTimes(s: Id, n: nat): Id {
    if n == 0 then s else Stirred(StirredTimes(s, n - 1), n - 1)
  }

  lemma {:induction false} StirringIsInjective(s: Id, t: Id, n: nat)
    requires StirredTimes(s, n) == StirredTimes(t, n)
    ensures s == t
    decreases n
  {
    hide Stirred;
    if n > 0 {
      StirUndone(StirredTimes(s, n - 1), n - 1);
      StirUndone(StirredTimes(t, n - 1), n - 1);
      StirringIsInjective(s, t, n - 1);
    }
  }

  // ── folding the offset in ──────────────────────────────────────────────

  /** The low half takes the offset's bytes as they are, the high half rotated by one. */
  function OffsetByte(offset: u64, i: nat): byte
    requires i < 16
  {
    if i < 8 then ToBytes(offset, 8)[i] else RotateLeft(ToBytes(offset, 8)[i - 8], 1)
  }

  function Folded(source: Id, offset: u64): Id {
    seq(16, i requires 0 <= i < 16 => Xor8(source[i], OffsetByte(offset, i)))
  }

  lemma FoldingIsInjective(source: Id, a: u64, b: u64)
    requires Folded(source, a) == Folded(source, b)
    ensures a == b
  {
    hide Xor8, ToBytes;
    forall i | 0 <= i < 8 ensures ToBytes(a, 8)[i] == ToBytes(b, 8)[i] {
      assert Folded(source, a)[i] == Folded(source, b)[i];
      SameByte(source[i], ToBytes(a, 8)[i], ToBytes(b, 8)[i]);
    }
    assert ToBytes(a, 8) == ToBytes(b, 8);
    PowersOf256();
    FromToBytes(a, 8);
    FromToBytes(b, 8);
  }

  lemma SameByte(s: byte, x: byte, y: byte)
    requires Xor8(s, x) == Xor8(s, y)
    ensures x == y
  {
    Crc.XorCancels(s, x, y);
  }

  function ImportId(source: Id, offset: u64): Id {
    StirredTimes(Folded(source, offset), 64)
  }

  /** NO COLLISIONS: within one source, different offsets get different IDs. */
  lemma ImportIdsNeverCollide(source: Id, a: u64, b: u64)
    ensures ImportId(source, a) == ImportId(source, b) <==> a == b
  {
    hide StirredTimes, Folded;
    if ImportId(source, a) == ImportId(source, b) {
      StirringIsInjective(Folded(source, a), Folded(source, b), 64);
      FoldingIsInjective(source, a, b);
    }
  }

  /** And one offset gets different IDs in different sources. */
  lemma SourcesNeverCollide(s: Id, t: Id, offset: u64)
    requires ImportId(s, offset) == ImportId(t, offset)
    ensures s == t
  {
    hide StirredTimes, Xor8, OffsetByte;
    StirringIsInjective(Folded(s, offset), Folded(t, offset), 64);
    forall i | 0 <= i < 16 ensures s[i] == t[i] {
      assert Folded(s, offset)[i] == Folded(t, offset)[i];
      SameSource(OffsetByte(offset, i), s[i], t[i]);
    }
  }

  lemma SameSource(x: byte, s: byte, t: byte)
    requires Xor8(s, x) == Xor8(t, x)
    ensures s == t
  {
    Crc.XorCommutes(s, x);
    Crc.XorCommutes(t, x);
    Crc.XorCancels(x, s, t);
  }

  /** The buffer is stirred in place. */
  method DeriveImportId(source: Id, offset: u64) returns (id: Id)
    ensures id == ImportId(source, offset)
  {
    hide Xor8, RotateLeft, ToBytes, Turn, WrappingAdd;
    var bytes := new byte[16](i requires 0 <= i < 16 => source[i]);
    var le := ToBytes(offset, 8);
    var index := 0;
    while index < 8
      invariant 0 <= index <= 8
      invariant forall i :: 0 <= i < 16 ==> bytes[i] == if i < index || 8 <= i < index + 8 then Folded(source, offset)[i] else source[i]
    {
      bytes[index] := Xor8(bytes[index], le[index]);
      bytes[index + 8] := Xor8(bytes[index + 8], RotateLeft(le[index], 1));
      index := index + 1;
    }
    assert bytes[..] == Folded(source, offset);
    var step := 0;
    while step < 64
      invariant 0 <= step <= 64
      invariant bytes[..] == StirredTimes(Folded(source, offset), step)
    {
      var i := step % 16;
      var before: Id := bytes[..];
      bytes[i] := RotateLeft(WrappingAdd(bytes[i], bytes[(i + 1) % 16]), Turn(step));
      assert bytes[..] == Stirred(before, step);
      step := step + 1;
    }
    return bytes[..];
  }
}
