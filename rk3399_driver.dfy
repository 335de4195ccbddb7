/** The RK3399 driver: five GPIO banks, with the pull-up/pull-down
    settings of GPIO0 and GPIO1 in the PMU general register file (PMUGRF)
    and those of GPIO2 .. GPIO4 in the general register file (GRF). */
module Rk3399Driver {
  import opened CSharpIntegers
  import opened Gpio
  import opened PinCodec
  import opened Registers
  import opened Words

  /** Physical base addresses of the register banks of GPIO0 .. GPIO4. */
  const GpioRegisterAddresses: seq<int> :=
    [0xFF72_0000, 0xFF73_0000, 0xFF78_0000, 0xFF78_8000, 0xFF79_0000]

  /** Byte offset of the pull register of each port, four per bank, in
      the PMUGRF for GPIO0 and GPIO1 and in the GRF for the others. Ports
      C and D of GPIO0 have no entry and hold -1. */
  const GrfOffsets: seq<int> := [
    0x00040, 0x00044, -1, -1,
    0x00050, 0x00054, 0x00058, 0x0005C,
    0x0E040, 0x0E044, 0x0E048, 0x0E04C,
    0x0E050, 0x0E054, 0x0E058, 0x0E05C,
    0x0E060, 0x0E064, 0x0E068, 0x0E06C
  ]

  /** The table has a row of four ports per bank; the only missing
      entries are GPIO0 C and D, and every other offset is word aligned. */
  lemma GrfOffsetsShape()
    ensures |GrfOffsets| == 4 * |GpioRegisterAddresses|
    ensures forall i :: 0 <= i < |GrfOffsets| ==> (GrfOffsets[i] == -1 <==> i == 2 || i == 3)
    ensures forall i :: 0 <= i < |GrfOffsets| && GrfOffsets[i] != -1 ==> GrfOffsets[i] % 4 == 0
  {
  }

  /** The pull register of port `port` of bank `gpio`: the word at the
      table's byte offset, divided by four as C# divides. */
  function PullRegister(gpio: int, port: int): Addr
    requires 0 <= gpio < |GpioRegisterAddresses| && 0 <= 4 * gpio + port < |GrfOffsets|
  {
    Addr(if gpio <= 1 then PmuGrf else Grf, TruncDiv(GrfOffsets[4 * gpio + port], 4))
  }

  /** The 2-bit pull code of a resistor. In the PMUGRF pull-up is 0b11
      and pull-down 0b01; in the GRF pull-up is 0b01 and pull-down 0b10;
      every other mode writes 0b00. */
  function PullCode(gpio: int, r: Resistor): (c: nat)
    ensures c <= 3
    ensures r == NoPull <==> c == 0
  {
    match r
    case NoPull => 0
    case PullDown => if gpio <= 1 then 1 else 2
    case PullUp => if gpio <= 1 then 3 else 1
  }

  /** How the register files read a 2-bit pull code: in the PMUGRF 0b00
      and 0b10 mean no pull, 0b01 pull-down and 0b11 pull-up; in the GRF
      0b00 and 0b11 mean no pull, 0b01 pull-up and 0b10 pull-down. */
  function PullOfCode(gpio: int, c: nat): Resistor
  {
    if gpio <= 1 then
      (if c == 3 then PullUp else if c == 1 then PullDown else NoPull)
    else
      (if c == 1 then PullUp else if c == 2 then PullDown else NoPull)
  }

  /** The code the driver writes reads back as the resistor it meant. */
  lemma PullCodeRoundTrip(gpio: int, r: Resistor)
    ensures PullOfCode(gpio, PullCode(gpio, r)) == r
  {
  }

  /** The stores of a mode change of bit `portNumber` of port `port` of
      bank `gpio`, in the order the driver performs them: the pin's 2-bit
      field of the pull register (write-enable bits set, field cleared,
      pull code or-ed in), then the pin's bit of the bank's direction
      register. Both words are read before either store. */
  function ModeStores(m: Memory, gpio: int, port: int, portNumber: int, mode: PinMode): seq<RegWrite>
    requires 0 <= gpio < |GpioRegisterAddresses| && 0 <= 4 * gpio + port < |GrfOffsets|
  {
    var pull := PullRegister(gpio, port);
    var dir := DirectionRegister(gpio);
    [ RegWrite(pull, FieldUpdate(Peek(m, pull), 3, 2 * portNumber, PullCode(gpio, ResistorOf(mode)))),
      RegWrite(dir, DirectionUpdate(Peek(m, dir), 8 * port + portNumber, mode)) ]
  }

  /** `SetPinMode(pinNumber, mode)` on memory `m`: the stores it performs,
      or the exception it raises first. A bank index outside the address
      table, or a pull table index below zero (pins -31 .. -8), raises
      IndexOutOfRange before any store. */
  function PinModeWrites(m: Memory, pinNumber: int, mode: PinMode): (r: Result<seq<RegWrite>>)
    ensures r.Ok? <==> -8 < pinNumber < 32 * |GpioRegisterAddresses|
    ensures r.Err? ==> r.error == IndexOutOfRange
  {
    UnmapInRange(pinNumber, |GpioRegisterAddresses|);
    var u := UnmapPinNumber(pinNumber);
    if !(0 <= u.gpioNumber < |GpioRegisterAddresses|) then Err(IndexOutOfRange)
    else if !(0 <= 4 * u.gpioNumber + u.port < |GrfOffsets|) then Err(IndexOutOfRange)
    else Ok(ModeStores(m, u.gpioNumber, u.port, u.portNumber, mode))
  }

  /** The first store writes the pin's 2-bit field of its port's pull
      register with the code of the mode's resistor, sets the field's
      write-enable bits and keeps every other bit; the field then reads
      back as that resistor. */
  lemma ModeStoresPull(m: Memory, gpio: int, port: int, portNumber: int, mode: PinMode)
    requires 0 <= gpio < |GpioRegisterAddresses| && 0 <= port < 4 && 0 <= portNumber < 8
    ensures var w := ModeStores(m, gpio, port, portNumber, mode)[0];
            && w.addr == PullRegister(gpio, port)
            && w.value == FieldWrite(Peek(m, w.addr), 2 * portNumber, 2, PullCode(gpio, ResistorOf(mode)))
            && PullOfCode(gpio, FieldValue(w.value, 2 * portNumber, 2)) == ResistorOf(mode)
  {
    PullCodeRoundTrip(gpio, ResistorOf(mode));
    assert Width(3) == 2;
  }

  /** The same, for a pin number of the SoC. */
  lemma PinModeWritesPull(m: Memory, pinNumber: int, mode: PinMode)
    requires 0 <= pinNumber < 32 * |GpioRegisterAddresses|
    ensures var w := PinModeWrites(m, pinNumber, mode).value[0];
            && w.addr == PullRegister(pinNumber / 32, pinNumber % 32 / 8)
            && w.value == FieldWrite(Peek(m, w.addr), 2 * (pinNumber % 8), 2,
                                     PullCode(pinNumber / 32, ResistorOf(mode)))
            && PullOfCode(pinNumber / 32, FieldValue(w.value, 2 * (pinNumber % 8), 2))
               == ResistorOf(mode)
  {
    ModeStoresPull(m, pinNumber / 32, pinNumber % 32 / 8, pinNumber % 8, mode);
  }

  /** For a pin of the SoC, the second store writes the direction
      register of the pin's bank: bit `pinNumber % 32` becomes 1 for
      Output and 0 for the three input modes, and a mode outside the
      enumeration stores the word unchanged. */
  lemma PinModeWritesDirection(m: Memory, pinNumber: int, mode: PinMode)
    requires 0 <= pinNumber < 32 * |GpioRegisterAddresses|
    ensures var w := PinModeWrites(m, pinNumber, mode).value[1];
            && w.addr == DirectionRegister(pinNumber / 32)
            && w.value == (if mode.Undefined? then Peek(m, w.addr)
                           else Peek(m, w.addr)[pinNumber % 32 := mode == Output])
  {
    var u := UnmapPinNumber(pinNumber);
    assert 8 * u.port + u.portNumber == pinNumber % 32;
  }

  /** The only bank register a mode change stores to is the direction
      register; the data register is never written. The pull register is
      in a register file, not in a bank. */
  lemma PinModeWritesKeepData(m: Memory, pinNumber: int, mode: PinMode)
    requires PinModeWrites(m, pinNumber, mode).Ok?
    ensures var ws := PinModeWrites(m, pinNumber, mode).value;
            && |ws| == 2
            && !ws[0].addr.window.Bank?
            && ws[1].addr == DirectionRegister(ws[1].addr.window.index)
  {
  }

  /** The bank registers after a mode change: the bank's direction
      register takes the updated word, and every other direction register
      and every data register keeps its value. */
  lemma ModeStoresBankRegisters(m: Memory, gpio: int, port: int, portNumber: int, mode: PinMode, bank: nat)
    requires 0 <= gpio < |GpioRegisterAddresses| && 0 <= 4 * gpio + port < |GrfOffsets|
    ensures var m1 := ApplyWrites(m, ModeStores(m, gpio, port, portNumber, mode));
            && Peek(m1, DirectionRegister(bank))
               == (if bank == gpio then DirectionUpdate(Peek(m, DirectionRegister(bank)), 8 * port + portNumber, mode)
                   else Peek(m, DirectionRegister(bank)))
            && Peek(m1, DataRegister(bank)) == Peek(m, DataRegister(bank))
  {
    var ws := ModeStores(m, gpio, port, portNumber, mode);
    ApplyTwo(m, ws[0], ws[1]);
  }

  /** The same, for a pin of the SoC. */
  lemma PinModeWritesBankRegisters(m: Memory, pinNumber: int, mode: PinMode, bank: nat)
    requires 0 <= pinNumber < 32 * |GpioRegisterAddresses|
    ensures var m1 := ApplyWrites(m, PinModeWrites(m, pinNumber, mode).value);
            && Peek(m1, DirectionRegister(bank))
               == (if bank == pinNumber / 32 && !mode.Undefined?
                   then Peek(m, DirectionRegister(bank))[pinNumber % 32 := mode == Output]
                   else Peek(m, DirectionRegister(bank)))
            && Peek(m1, DataRegister(bank)) == Peek(m, DataRegister(bank))
  {
    var u := UnmapPinNumber(pinNumber);
    ModeStoresBankRegisters(m, u.gpioNumber, u.port, u.portNumber, mode, bank);
    assert 8 * u.port + u.portNumber == pinNumber % 32;
  }

  /** GPIO0 C and D (pins 16 .. 31) have no entry in the pull table: it
      holds -1 for them, and C# `-1 / 4` is 0, so the driver stores to
      word 0 of the PMUGRF. */
  lemma GpioZeroPortsCDPullAtWordZero(m: Memory, pinNumber: int, mode: PinMode)
    requires 16 <= pinNumber < 32
    ensures PinModeWrites(m, pinNumber, mode).value[0].addr == Addr(PmuGrf, 0)
  {
    var u := UnmapPinNumber(pinNumber);
    assert u.gpioNumber == 0 && (u.port == 2 || u.port == 3);
    assert GrfOffsets[4 * u.gpioNumber + u.port] == -1;
    assert TruncDiv(-1, 4) == 0;
  }

  /** Pin -1 (bank 0, port A, bit -1): the pull field's bit offset
      `2 * -1` is negative, so C#'s shift-count mask puts the write-enable
      mask at bits 14 and 15, in the lower half, and bits 16 .. 29 of the
      upper half keep what the register held. */
  lemma NegativePinEnableMask(m: Memory, mode: PinMode)
    ensures var w := PinModeWrites(m, -1, mode).value[0];
            && w.value[14] && w.value[15]
            && forall i :: 16 <= i < 30 ==> w.value[i] == Peek(m, w.addr)[i]
  {
    var u := UnmapPinNumber(-1);
    assert u == Unmapped(0, 0, -1);
    var w := PinModeWrites(m, -1, mode).value[0];
    var before := Peek(m, w.addr);
    var code := PullCode(0, ResistorOf(mode));
    assert ShiftCount(-2) == 30 && ShiftCount(14) == 14;
    FieldUpdateAt(before, 3, -2, code, 14);
    FieldUpdateAt(before, 3, -2, code, 15);
    forall i | 16 <= i < 30
      ensures w.value[i] == before[i]
    {
      FieldUpdateAt(before, 3, -2, code, i);
    }
  }

  /** A mode change stores, for each of its registers, a value that a
      later change to a supported mode overwrites completely. */
  lemma ModeStoresOverwrite(m: Memory, gpio: int, port: int, portNumber: int, first: PinMode, second: PinMode)
    requires 0 <= gpio < |GpioRegisterAddresses| && 0 <= 4 * gpio + port < |GrfOffsets|
    requires !second.Undefined?
    ensures var ws1 := ModeStores(m, gpio, port, portNumber, first);
            var m1 := m[ws1[0].addr := ws1[0].value][ws1[1].addr := ws1[1].value];
            ModeStores(m1, gpio, port, portNumber, second) == ModeStores(m, gpio, port, portNumber, second)
  {
    var ws1 := ModeStores(m, gpio, port, portNumber, first);
    var m1 := m[ws1[0].addr := ws1[0].value][ws1[1].addr := ws1[1].value];
    assert Peek(m1, ws1[0].addr) == ws1[0].value;
    assert Peek(m1, ws1[1].addr) == ws1[1].value;
    FieldUpdateOverwrite(Peek(m, ws1[0].addr), 3, 2 * portNumber,
      PullCode(gpio, ResistorOf(first)), PullCode(gpio, ResistorOf(second)));
    DirectionUpdateOverwrite(Peek(m, ws1[1].addr), 8 * port + portNumber, first, second);
  }

  /** Setting a supported mode after any mode leaves the registers as if
      only the second mode had been set. */
  lemma ModeStoresLastWins(m: Memory, gpio: int, port: int, portNumber: int, first: PinMode, second: PinMode)
    requires 0 <= gpio < |GpioRegisterAddresses| && 0 <= 4 * gpio + port < |GrfOffsets|
    requires !second.Undefined?
    ensures var m1 := ApplyWrites(m, ModeStores(m, gpio, port, portNumber, first));
            ApplyWrites(m1, ModeStores(m1, gpio, port, portNumber, second))
            == ApplyWrites(m, ModeStores(m, gpio, port, portNumber, second))
  {
    var ws1 := ModeStores(m, gpio, port, portNumber, first);
    var m1 := ApplyWrites(m, ws1);
    var ws := ModeStores(m, gpio, port, portNumber, second);
    ApplyTwo(m, ws1[0], ws1[1]);
    ModeStoresOverwrite(m, gpio, port, portNumber, first, second);
    ApplyTwo(m1, ws[0], ws[1]);
    ApplyTwo(m, ws[0], ws[1]);
  }

  /** The same, for a pin number the driver accepts. */
  lemma LastModeWins(m: Memory, pinNumber: int, first: PinMode, second: PinMode)
    requires -8 < pinNumber < 32 * |GpioRegisterAddresses|
    requires !second.Undefined?
    ensures var m1 := ApplyWrites(m, PinModeWrites(m, pinNumber, first).value);
            ApplyWrites(m1, PinModeWrites(m1, pinNumber, second).value)
            == ApplyWrites(m, PinModeWrites(m, pinNumber, second).value)
  {
    UnmapInRange(pinNumber, |GpioRegisterAddresses|);
    var u := UnmapPinNumber(pinNumber);
    ModeStoresLastWins(m, u.gpioNumber, u.port, u.portNumber, first, second);
  }
}
