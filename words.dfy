/** 32-bit register values as sequences of bits, the C# operators the
    drivers apply to them, and the Rockchip convention that the upper half
    of a register enables the writes of its lower half. */
module Words {

  /** A 32-bit value; `w[i]` is bit `i` (bit 0 is the least significant). */
  type Word = w: seq<bool> | |w| == 32 witness Small(0)

  /** Bit `i` (0 .. 2) of a value below 8. */
  predicate SmallBit(v: nat, i: int)
    requires v < 8
  {
    (i == 0 && v % 2 == 1) || (i == 1 && v / 2 % 2 == 1) || (i == 2 && v / 4 == 1)
  }

  /** The word holding `v`, for the small constants the drivers use. */
  function Small(v: nat): (w: seq<bool>)
    requires v < 8
    ensures |w| == 32
  {
    seq(32, i requires 0 <= i < 32 => SmallBit(v, i))
  }

  /** C# `a | b`. */
  function Or(a: Word, b: Word): Word
  {
    seq(32, i requires 0 <= i < 32 => a[i] || b[i])
  }

  /** C# `a & b`. */
  function And(a: Word, b: Word): Word
  {
    seq(32, i requires 0 <= i < 32 => a[i] && b[i])
  }

  /** C# `~a`. */
  function Not(a: Word): Word
  {
    seq(32, i requires 0 <= i < 32 => !a[i])
  }

  /** The count C# uses for a shift of a 32-bit operand by `s`: the low
      five bits of `s`, so a negative or too large count wraps around. */
  function ShiftCount(s: int): (c: int)
    ensures 0 <= c < 32
    ensures 0 <= s < 32 ==> c == s
    ensures c % 32 == s % 32
  {
    s % 32
  }

  /** C# `a << s`: bits move up, the ones past bit 31 are lost. */
  function Shl(a: Word, s: int): Word
  {
    seq(32, i requires 0 <= i < 32 => i >= ShiftCount(s) && a[i - ShiftCount(s)])
  }

  /** C# `a >> s` on an unsigned value: bits move down, zeros come in. */
  function Shr(a: Word, s: int): Word
  {
    seq(32, i requires 0 <= i < 32 => i + ShiftCount(s) < 32 && a[i + ShiftCount(s)])
  }

  /** C# `w | (1 << k)` when `b`, `w & ~(1 << k)` otherwise: bit `k`
      (the count wrapped as C# wraps it) becomes `b` and every other bit is
      kept. */
  function SetBit(w: Word, k: int, b: bool): (r: Word)
    ensures r == w[ShiftCount(k) := b]
  {
    var r := if b then Or(w, Shl(Small(1), k)) else And(w, Not(Shl(Small(1), k)));
    assert forall i :: 0 <= i < 32 ==> r[i] == w[ShiftCount(k) := b][i];
    r
  }

  /** C# `((w >> k) & 1) != 0` reads bit `k`. */
  function TestBit(w: Word, k: int): (r: bool)
    ensures r == w[ShiftCount(k)]
  {
    var v := And(Shr(w, k), Small(1));
    assert v[0] == w[ShiftCount(k)];
    assert v != Small(0) <==> v[0] by {
      if v[0] { assert v[0] != Small(0)[0]; }
      else { assert forall i :: 0 <= i < 32 ==> v[i] == Small(0)[i]; }
    }
    v != Small(0)
  }

  /** The number of bits of the field masks the drivers use: `0b11` and
      `0b111`. */
  function Width(mask: nat): nat
  {
    if mask == 3 then 2 else 3
  }

  /** The value of the `width`-bit field of `w` at bit `offset`. */
  function FieldValue(w: Word, offset: nat, width: nat): nat
    requires 1 <= width <= 3 && offset + width <= 32
  {
    (if w[offset] then 1 else 0)
    + (if width >= 2 && w[offset + 1] then 2 else 0)
    + (if width >= 3 && w[offset + 2] then 4 else 0)
  }

  /** The field of `width` bits at `offset` (in the lower half) takes
      `value`, the matching write-enable bits `16 + offset ..` are set so
      that the hardware accepts the write, and every other bit is kept. */
  function FieldWrite(w: Word, offset: nat, width: nat, value: nat): (r: Word)
    requires 1 <= width <= 3 && offset + width <= 16 && value < 8 && value < Pow2(width)
    ensures FieldValue(r, offset, width) == value
    ensures forall j :: 16 + offset <= j < 16 + offset + width ==> r[j]
    ensures forall j ::
              (0 <= j < 32 && !(offset <= j < offset + width) && !(16 + offset <= j < 16 + offset + width))
              ==> r[j] == w[j]
  {
    var r := seq(32, i requires 0 <= i < 32 =>
      if offset <= i < offset + width then SmallBit(value, i - offset)
      else if 16 + offset <= i < 16 + offset + width then true
      else w[i]);
    assert FieldValue(r, offset, width) == value by {
      SmallBits(value, width);
    }
    r
  }

  function Pow2(n: nat): nat
  {
    if n == 0 then 1 else 2 * Pow2(n - 1)
  }

  /** A value below `2^width` is the sum of its first `width` bits. */
  lemma SmallBits(value: nat, width: nat)
    requires 1 <= width <= 3 && value < 8 && value < Pow2(width)
    ensures value == (if SmallBit(value, 0) then 1 else 0)
                   + (if width >= 2 && SmallBit(value, 1) then 2 else 0)
                   + (if width >= 3 && SmallBit(value, 2) then 4 else 0)
  {
  }

  /** The drivers' read-modify-write of a field, as C# computes it:
      `((w | (mask << (16 + o))) & ~(mask << o)) | (value << o)`. Where
      the field and its write-enable bits fit in their halves it is a
      FieldWrite. */
  function FieldUpdate(w: Word, mask: nat, o: int, value: nat): (r: Word)
    requires mask == 3 || mask == 7
    requires value <= mask
    ensures 0 <= o && o + Width(mask) <= 16 ==> r == FieldWrite(w, o, Width(mask), value)
  {
    var r := Or(And(Or(w, Shl(Small(mask), 16 + o)), Not(Shl(Small(mask), o))), Shl(Small(value), o));
    if 0 <= o && o + Width(mask) <= 16 then
      FieldUpdateIsFieldWrite(w, mask, o, value);
      r
    else
      r
  }

  lemma FieldUpdateIsFieldWrite(w: Word, mask: nat, o: int, value: nat)
    requires mask == 3 || mask == 7
    requires value <= mask
    requires 0 <= o && o + Width(mask) <= 16
    ensures Or(And(Or(w, Shl(Small(mask), 16 + o)), Not(Shl(Small(mask), o))), Shl(Small(value), o))
         == FieldWrite(w, o, Width(mask), value)
  {
    var r := Or(And(Or(w, Shl(Small(mask), 16 + o)), Not(Shl(Small(mask), o))), Shl(Small(value), o));
    var f := FieldWrite(w, o, Width(mask), value);
    var wd := Width(mask);
    assert ShiftCount(o) == o && ShiftCount(16 + o) == 16 + o;
    forall i | 0 <= i < 32
      ensures r[i] == f[i]
    {
      MaskBits(mask, i - o);
      MaskBits(mask, i - 16 - o);
      ValueInMask(value, mask, i - o);
      var e := i >= 16 + o && SmallBit(mask, i - 16 - o);
      var m := i >= o && SmallBit(mask, i - o);
      var v := i >= o && SmallBit(value, i - o);
      assert r[i] == (((w[i] || e) && !m) || v);
      if o <= i < o + wd {
        assert f[i] == SmallBit(value, i - o);
      } else if 16 + o <= i < 16 + o + wd {
        assert f[i];
      } else {
        assert f[i] == w[i];
      }
    }
  }

  lemma MaskBits(mask: nat, j: int)
    requires mask == 3 || mask == 7
    ensures SmallBit(mask, j) <==> 0 <= j < Width(mask)
  {
  }

  lemma ValueInMask(value: nat, mask: nat, j: int)
    requires mask == 3 || mask == 7
    requires value <= mask
    ensures SmallBit(value, j) ==> SmallBit(mask, j)
  {
  }

  /** Updating the same field twice is updating it once with the second
      value, for every offset. */
  lemma FieldUpdateOverwrite(w: Word, mask: nat, o: int, v1: nat, v2: nat)
    requires mask == 3 || mask == 7
    requires v1 <= mask && v2 <= mask
    ensures FieldUpdate(FieldUpdate(w, mask, o, v1), mask, o, v2) == FieldUpdate(w, mask, o, v2)
  {
    var e := Shl(Small(mask), 16 + o);
    var m := Shl(Small(mask), o);
    var x := Or(And(Or(w, e), Not(m)), Shl(Small(v1), o));
    var l := Or(And(Or(x, e), Not(m)), Shl(Small(v2), o));
    assert FieldUpdate(w, mask, o, v1) == x;
    assert FieldUpdate(x, mask, o, v2) == l;
    var r := Or(And(Or(w, e), Not(m)), Shl(Small(v2), o));
    assert FieldUpdate(w, mask, o, v2) == r;
    forall i | 0 <= i < 32
      ensures l[i] == r[i]
    {
      var c := ShiftCount(o);
      assert x[i] == (((w[i] || e[i]) && !m[i]) || Shl(Small(v1), o)[i]);
      assert l[i] == (((x[i] || e[i]) && !m[i]) || Shl(Small(v2), o)[i]);
      assert r[i] == (((w[i] || e[i]) && !m[i]) || Shl(Small(v2), o)[i]);
      if i >= c {
        ValueInMask(v1, mask, i - c);
        assert Shl(Small(v1), o)[i] == SmallBit(v1, i - c);
        assert m[i] == SmallBit(mask, i - c);
      } else {
        assert !Shl(Small(v1), o)[i];
      }
    }
  }

  /** Bit `i` of a field update, spelled out. */
  lemma FieldUpdateAt(w: Word, mask: nat, o: int, value: nat, i: int)
    requires mask == 3 || mask == 7
    requires value <= mask
    requires 0 <= i < 32
    ensures var c, ce := ShiftCount(o), ShiftCount(16 + o);
            FieldUpdate(w, mask, o, value)[i]
            == (((w[i] || (i >= ce && SmallBit(mask, i - ce))) && !(i >= c && SmallBit(mask, i - c)))
                || (i >= c && SmallBit(value, i - c)))
  {
  }

  /** What a Rockchip register file holds after a store of `written` over
      `old`: a bit of the lower half takes the stored bit only when the
      matching write-enable bit of the upper half is set, and keeps its
      value otherwise; the upper half reads back as zero. */
  function Latch(before: Word, written: Word): Word
  {
    seq(32, i requires 0 <= i < 32 =>
      if i < 16 then (if written[16 + i] then written[i] else before[i]) else false)
  }

  /** A field store with its write-enable bits set takes effect whatever
      the register held. */
  lemma FieldWriteLatches(before: Word, w: Word, offset: nat, width: nat, value: nat)
    requires 1 <= width <= 3 && offset + width <= 16 && value < 8 && value < Pow2(width)
    ensures FieldValue(Latch(before, FieldWrite(w, offset, width, value)), offset, width) == value
  {
    var r := FieldWrite(w, offset, width, value);
    var l := Latch(before, r);
    assert r[16 + offset];
    assert l[offset] == r[offset];
    if width >= 2 {
      assert r[16 + offset + 1];
      assert l[offset + 1] == r[offset + 1];
    }
    if width >= 3 {
      assert r[16 + offset + 2];
      assert l[offset + 2] == r[offset + 2];
    }
  }
}
