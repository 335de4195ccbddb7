/** The memory-mapped register space the driver reads and writes, with
    the `mmap`ed windows replaced by a map from (window, 32-bit word index)
    to the word's value, and the GPIO bank registers shared by all
    Rockchip SoCs. */
module Registers {
  import opened Words
  import opened Gpio

  /** A mapped window: one per GPIO bank, the general register file (GRF)
      and the PMU general register file (PMUGRF). */
  datatype Window = Bank(index: nat) | Grf | PmuGrf

  /** A 32-bit register: a window and the index of a word in it (the byte
      offset divided by four). */
  datatype Addr = Addr(window: Window, word: int)

  /** One store of a 32-bit value through a register pointer. */
  datatype RegWrite = RegWrite(addr: Addr, value: Word)

  type Memory = map<Addr, Word>

  /** The value a load from `a` returns; a word the model holds no value
      for reads as zero. */
  function Peek(m: Memory, a: Addr): Word
  {
    if a in m then m[a] else Small(0)
  }

  /** The memory after the stores `ws`, performed in order. */
  function ApplyWrites(m: Memory, ws: seq<RegWrite>): Memory
    decreases |ws|
  {
    if ws == [] then m
    else ApplyWrites(m, ws[..|ws| - 1])[ws[|ws| - 1].addr := ws[|ws| - 1].value]
  }

  /** A register that none of the stores targets keeps its value. */
  lemma {:induction false} ApplyWritesUntouched(m: Memory, ws: seq<RegWrite>, a: Addr)
    requires forall k :: 0 <= k < |ws| ==> ws[k].addr != a
    ensures Peek(ApplyWrites(m, ws), a) == Peek(m, a)
    decreases |ws|
  {
    if ws != [] {
      ApplyWritesUntouched(m, ws[..|ws| - 1], a);
    }
  }

  /** A register holds the value of the last store that targets it. */
  lemma {:induction false} ApplyWritesLast(m: Memory, ws: seq<RegWrite>, k: nat)
    requires k < |ws|
    requires forall j :: k < j < |ws| ==> ws[j].addr != ws[k].addr
    ensures Peek(ApplyWrites(m, ws), ws[k].addr) == ws[k].value
    decreases |ws|
  {
    if k < |ws| - 1 {
      ApplyWritesLast(m, ws[..|ws| - 1], k);
    }
  }

  /** One more store on top of a list of stores. */
  lemma ApplyWritesSnoc(m: Memory, ws: seq<RegWrite>, w: RegWrite)
    ensures ApplyWrites(m, ws + [w]) == ApplyWrites(m, ws)[w.addr := w.value]
  {
    assert (ws + [w])[..|ws|] == ws;
  }

  lemma ApplyOne(m: Memory, a: RegWrite)
    ensures ApplyWrites(m, [a]) == m[a.addr := a.value]
  {
    ApplyWritesSnoc(m, [], a);
    assert [] + [a] == [a];
  }

  lemma ApplyTwo(m: Memory, a: RegWrite, b: RegWrite)
    ensures ApplyWrites(m, [a, b]) == m[a.addr := a.value][b.addr := b.value]
  {
    ApplyWritesSnoc(m, [a], b);
    ApplyWritesSnoc(m, [], a);
    assert [a] + [b] == [a, b];
    assert [] + [a] == [a];
  }

  lemma ApplyThree(m: Memory, a: RegWrite, b: RegWrite, c: RegWrite)
    ensures ApplyWrites(m, [a, b, c]) == m[a.addr := a.value][b.addr := b.value][c.addr := c.value]
  {
    ApplyTwo(m, a, b);
    ApplyWritesSnoc(m, [a, b], c);
    assert [a, b] + [c] == [a, b, c];
  }

  /** Three stores to distinct registers: each holds its own value. */
  lemma PeekThree(m: Memory, a: Addr, b: Addr, c: Addr, x: Word, y: Word, z: Word)
    requires a != b && a != c && b != c
    ensures var m1 := m[a := x][b := y][c := z];
            Peek(m1, a) == x && Peek(m1, b) == y && Peek(m1, c) == z
  {
  }

  /** Storing again to the same three registers, in the same order,
      hides the first three stores. */
  lemma RestoreThree(m: Memory, a: Addr, b: Addr, c: Addr, x: Word, y: Word, z: Word, x2: Word, y2: Word, z2: Word)
    ensures m[a := x][b := y][c := z][a := x2][b := y2][c := z2] == m[a := x2][b := y2][c := z2]
  {
    var l := m[a := x][b := y][c := z][a := x2][b := y2][c := z2];
    var r := m[a := x2][b := y2][c := z2];
    assert l.Keys == r.Keys;
    forall k | k in l
      ensures l[k] == r[k]
    {
    }
  }

  /** Performing two lists of stores one after the other is performing
      their concatenation. */
  lemma {:induction false} ApplyWritesAppend(m: Memory, ws: seq<RegWrite>, vs: seq<RegWrite>)
    ensures ApplyWrites(m, ws + vs) == ApplyWrites(ApplyWrites(m, ws), vs)
    decreases |vs|
  {
    if vs == [] {
      assert ws + vs == ws;
    } else {
      assert (ws + vs)[..|ws + vs| - 1] == ws + vs[..|vs| - 1];
      ApplyWritesAppend(m, ws, vs[..|vs| - 1]);
    }
  }

  /** The data register GPIO_SWPORTA_DR sits at offset 0x0000 of a bank. */
  function DataRegister(bank: nat): Addr
  {
    Addr(Bank(bank), 0x0000 / 4)
  }

  /** The direction register GPIO_SWPORT_DDR sits at offset 0x0004 of a bank. */
  function DirectionRegister(bank: nat): Addr
  {
    Addr(Bank(bank), 0x0004 / 4)
  }

  /** The direction word after a mode change of the pin at bit `k`, as
      the drivers' `switch` computes it: the three input modes clear the
      bit (input), Output sets it, and a mode outside the enumeration
      leaves the word alone. */
  function DirectionUpdate(w: Word, k: int, mode: PinMode): (r: Word)
    ensures mode.Undefined? ==> r == w
    ensures !mode.Undefined? ==> r == w[ShiftCount(k) := mode == Output]
  {
    match mode
    case Input | InputPullDown | InputPullUp => SetBit(w, k, false)
    case Output => SetBit(w, k, true)
    case Undefined(_) => w
  }

  /** A later mode change to a supported mode decides the direction bit
      alone. */
  lemma DirectionUpdateOverwrite(w: Word, k: int, first: PinMode, second: PinMode)
    requires !second.Undefined?
    ensures DirectionUpdate(DirectionUpdate(w, k, first), k, second) == DirectionUpdate(w, k, second)
  {
    var i := ShiftCount(k);
    if !first.Undefined? {
      assert w[i := first == Output][i := second == Output] == w[i := second == Output];
    }
  }
}
