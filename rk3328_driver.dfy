/** The RK3328 driver: four GPIO banks, with the pin multiplexing
    (iomux) and the pull-up/pull-down settings of every bank in the
    general register file (GRF). */
module Rk3328Driver {
  import opened Gpio
  import opened PinCodec
  import opened Registers
  import opened Words

  /** Physical base addresses of the register banks of GPIO0 .. GPIO3. */
  const GpioRegisterAddresses: seq<int> := [0xFF21_0000, 0xFF22_0000, 0xFF23_0000, 0xFF24_8000]

  /** Byte offset in the GRF of the pull register of each port, four per
      bank. */
  const GrfOffsets: seq<int> := [
    0x0100, 0x0104, 0x0108, 0x010C,
    0x0110, 0x0114, 0x0118, 0x011C,
    0x0120, 0x0124, 0x0128, 0x012C,
    0x0130, 0x0134, 0x0138, 0x013C
  ]

  /** Byte offsets in the GRF of the iomux registers, two entries per
      port. A port whose pins have 2-bit fields has one register and -1
      in its second entry; a port whose pins have 3-bit fields has a low
      register (pins 0 .. 4) and a high register (pins 5 .. 7). */
  const IomuxOffsets: seq<int> := [
    0x0000, -1, 0x0004, -1, 0x0008, -1, 0x000C, -1,
    0x0010, -1, 0x0014, -1, 0x0018, -1, 0x001C, -1,
    0x0020, -1, 0x0024, 0x0028, 0x002C, 0x0030, 0x0034, -1,
    0x0038, 0x003C, 0x0040, 0x0044, 0x0048, -1, 0x004C, -1
  ]

  /** Port `port` of bank `gpio` has split 3-bit iomux registers. */
  predicate SplitIomux(gpio: int, port: int)
    requires 0 <= gpio < |GpioRegisterAddresses| && 0 <= port < 4
  {
    IomuxOffsets[8 * gpio + 2 * port + 1] != -1
  }

  /** The split ports are GPIO2 B and C and GPIO3 A and B. */
  lemma SplitPorts()
    ensures forall g, p :: 0 <= g < 4 && 0 <= p < 4 ==>
              (SplitIomux(g, p) <==> (g == 2 && (p == 1 || p == 2)) || (g == 3 && (p == 0 || p == 1)))
  {
    forall g, p | 0 <= g < 4 && 0 <= p < 4
      ensures SplitIomux(g, p) <==> (g == 2 && (p == 1 || p == 2)) || (g == 3 && (p == 0 || p == 1))
    {
      assert 8 * g + 2 * p + 1 < 32;
    }
  }

  /** The tables have a row per bank; every offset is word aligned; every
      port has a (low) iomux register; the iomux registers lie below 0x100
      and the pull registers from 0x100 on. */
  lemma TablesShape()
    ensures |GrfOffsets| == 4 * |GpioRegisterAddresses|
    ensures |IomuxOffsets| == 8 * |GpioRegisterAddresses|
    ensures forall i :: 0 <= i < |IomuxOffsets| && IomuxOffsets[i] != -1 ==>
              0 <= IomuxOffsets[i] < 0x100 && IomuxOffsets[i] % 4 == 0
    ensures forall i :: 0 <= i < |IomuxOffsets| && i % 2 == 0 ==> IomuxOffsets[i] != -1
    ensures forall i :: 0 <= i < |GrfOffsets| ==> 0x100 <= GrfOffsets[i] && GrfOffsets[i] % 4 == 0
  {
  }

  /** No register is both an iomux register and a pull register. */
  lemma IomuxBelowPull(gpio: int, port: int, portNumber: int)
    requires 0 <= gpio < |GpioRegisterAddresses| && 0 <= port < 4
    ensures IomuxRegister(gpio, port, portNumber).window == Grf
    ensures 0 <= IomuxRegister(gpio, port, portNumber).word < 0x40
    ensures PullRegister(gpio, port).window == Grf && PullRegister(gpio, port).word >= 0x40
  {
    TablesShape();
    var i := 8 * gpio + 2 * port;
    assert 0 <= IomuxOffsets[i] < 0x100;
    assert SplitIomux(gpio, port) ==> 0 <= IomuxOffsets[i + 1] < 0x100;
    assert GrfOffsets[4 * gpio + port] >= 0x100;
  }

  /** Where the 3-bit iomux field of bit `portNumber` of a split port
      starts: pins 0 .. 4 fill the low register from bit 0, pins 5 .. 7
      the high register from bit 0. */
  function IomuxBitOffset(portNumber: int): int
  {
    if portNumber <= 4 then 3 * portNumber else 3 * (portNumber - 5)
  }

  /** The offset the driver as written uses for a split port: `3 *
      portNumber` in both registers. */
  function IomuxBitOffsetAsWritten(portNumber: int): int
  {
    3 * portNumber
  }

  /** The iomux register of a pin: the port's only register, or for a
      split port the low register for pins 0 .. 4 and the high one for
      pins 5 .. 7. */
  function IomuxRegister(gpio: int, port: int, portNumber: int): Addr
    requires 0 <= gpio < |GpioRegisterAddresses| && 0 <= port < 4
  {
    var i := 8 * gpio + 2 * port;
    if !SplitIomux(gpio, port) || portNumber <= 4 then Addr(Grf, IomuxOffsets[i] / 4)
    else Addr(Grf, IomuxOffsets[i + 1] / 4)
  }

  /** The iomux word that selects the GPIO function (field 0) for a pin:
      write-enable bits set and the pin's 2-bit field, or 3-bit field of a
      split port, cleared. */
  function IomuxValue(w: Word, gpio: int, port: int, portNumber: int): Word
    requires 0 <= gpio < |GpioRegisterAddresses| && 0 <= port < 4
  {
    if !SplitIomux(gpio, port) then FieldUpdate(w, 3, 2 * portNumber, 0)
    else FieldUpdate(w, 7, IomuxBitOffset(portNumber), 0)
  }

  /** The iomux word as the driver computes it, with the 3-bit field of
      a split port at `3 * portNumber`. */
  function IomuxValueAsWritten(w: Word, gpio: int, port: int, portNumber: int): Word
    requires 0 <= gpio < |GpioRegisterAddresses| && 0 <= port < 4
  {
    if !SplitIomux(gpio, port) then FieldUpdate(w, 3, 2 * portNumber, 0)
    else FieldUpdate(w, 7, IomuxBitOffsetAsWritten(portNumber), 0)
  }

  /** For pins 5 .. 7 of a split port the driver as written clears the
      first write-enable bit of the pin's field in the high register, so
      the hardware ignores the write of the field's lowest bit; for pins
      0 .. 4 it computes the intended word. */
  lemma IomuxAsWrittenMissesHighPins(w: Word, portNumber: int)
    requires 0 <= portNumber < 8
    ensures 5 <= portNumber ==> !FieldUpdate(w, 7, IomuxBitOffsetAsWritten(portNumber), 0)[16 + 3 * (portNumber - 5)]
    ensures 5 <= portNumber ==> FieldUpdate(w, 7, IomuxBitOffsetAsWritten(portNumber), 0)
                                != FieldUpdate(w, 7, IomuxBitOffset(portNumber), 0)
    ensures portNumber <= 4 ==> IomuxBitOffsetAsWritten(portNumber) == IomuxBitOffset(portNumber)
  {
    if 5 <= portNumber {
      var j := 16 + 3 * (portNumber - 5);
      var o := IomuxBitOffsetAsWritten(portNumber);
      FieldUpdateAt(w, 7, o, 0, j);
      assert SmallBit(7, j - ShiftCount(o));
      var c := IomuxBitOffset(portNumber);
      assert 0 <= c && c + Width(7) <= 16;
      assert FieldUpdate(w, 7, c, 0)[j];
    }
  }

  /** GPIO2_B5 (pin 77), its iomux field holding function 1: the store as
      written leaves write-enable bits 16 .. 18 clear, so under the
      write-enable convention the field keeps function 1; the intended
      store switches it to GPIO. */
  lemma IomuxAsWrittenExample()
    ensures var before := Small(1);
            var u := UnmapPinNumber(77);
            && u == Unmapped(2, 1, 5)
            && SplitIomux(2, 1)
            && IomuxRegister(2, 1, 5) == Addr(Grf, 0x0028 / 4)
            && FieldValue(Latch(before, IomuxValueAsWritten(before, 2, 1, 5)), 0, 3) == 1
            && FieldValue(Latch(before, IomuxValue(before, 2, 1, 5)), 0, 3) == 0
  {
    var before := Small(1);
    var asWritten := IomuxValueAsWritten(before, 2, 1, 5);
    FieldUpdateAt(before, 7, 15, 0, 15);
    FieldUpdateAt(before, 7, 15, 0, 16);
    FieldUpdateAt(before, 7, 15, 0, 17);
    FieldUpdateAt(before, 7, 15, 0, 18);
    assert !asWritten[16] && !asWritten[17] && !asWritten[18];
    assert Latch(before, asWritten)[0] && !Latch(before, asWritten)[1] && !Latch(before, asWritten)[2];
    FieldWriteLatches(before, before, 0, 3, 0);
  }

  /** The corrected iomux offset differs from the one as written for
      exactly twelve pins, bits 5 .. 7 of GPIO2 B, C and GPIO3 A, B; for
      every other accepted pin the two iomux words agree. */
  lemma IomuxCorrectedPins(w: Word, pinNumber: int)
    requires -8 < pinNumber < 32 * |GpioRegisterAddresses|
    ensures var u := UnmapPinNumber(pinNumber);
            && 0 <= u.gpioNumber < |GpioRegisterAddresses| && 0 <= u.port < 4
            && ((SplitIomux(u.gpioNumber, u.port) && 5 <= u.portNumber)
                <==> pinNumber in {77, 78, 79, 85, 86, 87, 101, 102, 103, 109, 110, 111})
            && (pinNumber !in {77, 78, 79, 85, 86, 87, 101, 102, 103, 109, 110, 111} ==>
                  IomuxValueAsWritten(w, u.gpioNumber, u.port, u.portNumber)
                  == IomuxValue(w, u.gpioNumber, u.port, u.portNumber))
  {
    UnmapInRange(pinNumber, |GpioRegisterAddresses|);
    var u := UnmapPinNumber(pinNumber);
    SplitPorts();
    if 0 <= pinNumber {
      MapUnmapRoundTrip(pinNumber);
      assert pinNumber == 32 * u.gpioNumber + 8 * u.port + u.portNumber;
    }
  }

  /** The pull register of port `port` of bank `gpio`. */
  function PullRegister(gpio: int, port: int): Addr
    requires 0 <= gpio < |GpioRegisterAddresses| && 0 <= port < 4
  {
    Addr(Grf, GrfOffsets[4 * gpio + port] / 4)
  }

  /** The 2-bit pull code of a resistor: pull-up is 0b01, pull-down 0b10,
      no pull 0b00. */
  function PullCode(r: Resistor): (c: nat)
    ensures c <= 3
    ensures r == NoPull <==> c == 0
  {
    match r
    case NoPull => 0
    case PullUp => 1
    case PullDown => 2
  }

  /** How the GRF reads a 2-bit pull code. */
  function PullOfCode(c: nat): Resistor
  {
    if c == 1 then PullUp else if c == 2 then PullDown else NoPull
  }

  lemma PullCodeRoundTrip(r: Resistor)
    ensures PullOfCode(PullCode(r)) == r
  {
  }

  /** The stores of a mode change of bit `portNumber` of port `port` of
      bank `gpio`, in the order the driver performs them: the iomux
      register (select GPIO), the pull register, then the direction
      register. All three words are read before the first store. */
  function ModeStores(m: Memory, gpio: int, port: int, portNumber: int, mode: PinMode): seq<RegWrite>
    requires 0 <= gpio < |GpioRegisterAddresses| && 0 <= port < 4
  {
    var iomux := IomuxRegister(gpio, port, portNumber);
    var pull := PullRegister(gpio, port);
    var dir := DirectionRegister(gpio);
    [ RegWrite(iomux, IomuxValue(Peek(m, iomux), gpio, port, portNumber)),
      RegWrite(pull, FieldUpdate(Peek(m, pull), 3, 2 * portNumber, PullCode(ResistorOf(mode)))),
      RegWrite(dir, DirectionUpdate(Peek(m, dir), 8 * port + portNumber, mode)) ]
  }

  /** `SetPinMode(pinNumber, mode)` on memory `m`: the stores it performs,
      or the exception it raises first. A bank index outside the list of
      mapped banks raises ArgumentOutOfRange; an iomux table index below
      zero (pins -31 .. -8) raises IndexOutOfRange; both before any
      store. */
  function PinModeWrites(m: Memory, pinNumber: int, mode: PinMode): (r: Result<seq<RegWrite>>)
    ensures r.Ok? <==> -8 < pinNumber < 32 * |GpioRegisterAddresses|
    ensures r.Err? ==> r.error == (if -32 < pinNumber < 32 * |GpioRegisterAddresses| then IndexOutOfRange else ArgumentOutOfRange)
  {
    UnmapInRange(pinNumber, |GpioRegisterAddresses|);
    var u := UnmapPinNumber(pinNumber);
    if !(0 <= u.gpioNumber < |GpioRegisterAddresses|) then Err(ArgumentOutOfRange)
    else if !(0 <= 8 * u.gpioNumber + 2 * u.port + 1 < |IomuxOffsets|) then Err(IndexOutOfRange)
    else Ok(ModeStores(m, u.gpioNumber, u.port, u.portNumber, mode))
  }

  /** The first store selects the GPIO function for the pin: its field
      of the iomux register becomes 0 with its write-enable bits set, and
      every other bit is kept. */
  lemma ModeStoresIomux(m: Memory, gpio: int, port: int, portNumber: int, mode: PinMode)
    requires 0 <= gpio < |GpioRegisterAddresses| && 0 <= port < 4 && 0 <= portNumber < 8
    ensures var w := ModeStores(m, gpio, port, portNumber, mode)[0];
            && w.addr == IomuxRegister(gpio, port, portNumber)
            && w.value == (if SplitIomux(gpio, port)
                           then FieldWrite(Peek(m, w.addr), IomuxBitOffset(portNumber), 3, 0)
                           else FieldWrite(Peek(m, w.addr), 2 * portNumber, 2, 0))
  {
    assert Width(3) == 2 && Width(7) == 3;
  }

  /** The second store writes the pin's 2-bit field of its port's pull
      register with the code of the mode's resistor; the field then reads
      back as that resistor. */
  lemma ModeStoresPull(m: Memory, gpio: int, port: int, portNumber: int, mode: PinMode)
    requires 0 <= gpio < |GpioRegisterAddresses| && 0 <= port < 4 && 0 <= portNumber < 8
    ensures var w := ModeStores(m, gpio, port, portNumber, mode)[1];
            && w.addr == PullRegister(gpio, port)
            && w.value == FieldWrite(Peek(m, w.addr), 2 * portNumber, 2, PullCode(ResistorOf(mode)))
            && PullOfCode(FieldValue(w.value, 2 * portNumber, 2)) == ResistorOf(mode)
  {
    PullCodeRoundTrip(ResistorOf(mode));
    assert Width(3) == 2;
  }

  /** For a pin of the SoC, the first store selects the GPIO function in
      the pin's iomux register: its field reads 0 afterwards. */
  lemma PinModeWritesIomux(m: Memory, pinNumber: int, mode: PinMode)
    requires 0 <= pinNumber < 32 * |GpioRegisterAddresses|
    ensures var w := PinModeWrites(m, pinNumber, mode).value[0];
            var gpio, port, bit := pinNumber / 32, pinNumber % 32 / 8, pinNumber % 8;
            && w.addr == IomuxRegister(gpio, port, bit)
            && (SplitIomux(gpio, port) ==> FieldValue(w.value, IomuxBitOffset(bit), 3) == 0)
            && (!SplitIomux(gpio, port) ==> FieldValue(w.value, 2 * bit, 2) == 0)
  {
    ModeStoresIomux(m, pinNumber / 32, pinNumber % 32 / 8, pinNumber % 8, mode);
  }

  /** For a pin of the SoC, the second store writes the pin's field of its
      port's pull register, which then reads back as the mode's
      resistor. */
  lemma PinModeWritesPull(m: Memory, pinNumber: int, mode: PinMode)
    requires 0 <= pinNumber < 32 * |GpioRegisterAddresses|
    ensures var w := PinModeWrites(m, pinNumber, mode).value[1];
            && w.addr == PullRegister(pinNumber / 32, pinNumber % 32 / 8)
            && w.value == FieldWrite(Peek(m, w.addr), 2 * (pinNumber % 8), 2, PullCode(ResistorOf(mode)))
            && PullOfCode(FieldValue(w.value, 2 * (pinNumber % 8), 2)) == ResistorOf(mode)
  {
    ModeStoresPull(m, pinNumber / 32, pinNumber % 32 / 8, pinNumber % 8, mode);
  }

  /** For a pin of the SoC, the third store writes the direction register
      of the pin's bank: bit `pinNumber % 32` becomes 1 for Output and 0
      for the three input modes, and a mode outside the enumeration
      stores the word unchanged. */
  lemma PinModeWritesDirection(m: Memory, pinNumber: int, mode: PinMode)
    requires 0 <= pinNumber < 32 * |GpioRegisterAddresses|
    ensures var w := PinModeWrites(m, pinNumber, mode).value[2];
            && w.addr == DirectionRegister(pinNumber / 32)
            && w.value == (if mode.Undefined? then Peek(m, w.addr)
                           else Peek(m, w.addr)[pinNumber % 32 := mode == Output])
  {
    var u := UnmapPinNumber(pinNumber);
    assert 8 * u.port + u.portNumber == pinNumber % 32;
  }

  /** The three registers of a mode change are distinct: the iomux and
      pull registers lie in separate parts of the GRF and the direction
      register in the bank. */
  lemma ModeStoresDistinct(m: Memory, gpio: int, port: int, portNumber: int, mode: PinMode)
    requires 0 <= gpio < |GpioRegisterAddresses| && 0 <= port < 4
    ensures var ws := ModeStores(m, gpio, port, portNumber, mode);
            ws[0].addr != ws[1].addr && ws[0].addr != ws[2].addr && ws[1].addr != ws[2].addr
  {
    IomuxBelowPull(gpio, port, portNumber);
  }

  /** The bank registers after a mode change: the bank's direction
      register takes the updated word, and every other direction register
      and every data register keeps its value. */
  lemma ModeStoresBankRegisters(m: Memory, gpio: int, port: int, portNumber: int, mode: PinMode, bank: nat)
    requires 0 <= gpio < |GpioRegisterAddresses| && 0 <= port < 4
    ensures var m1 := ApplyWrites(m, ModeStores(m, gpio, port, portNumber, mode));
            && Peek(m1, DirectionRegister(bank))
               == (if bank == gpio then DirectionUpdate(Peek(m, DirectionRegister(bank)), 8 * port + portNumber, mode)
                   else Peek(m, DirectionRegister(bank)))
            && Peek(m1, DataRegister(bank)) == Peek(m, DataRegister(bank))
  {
    var ws := ModeStores(m, gpio, port, portNumber, mode);
    IomuxBelowPull(gpio, port, portNumber);
    ApplyThree(m, ws[0], ws[1], ws[2]);
  }

  /** The same, for a pin of the SoC. */
  lemma PinModeWritesBankRegisters(m: Memory, pinNumber: int, mode: PinMode, bank: nat)
    requires 0 <= pinNumber < 32 * |GpioRegisterAddresses|
    ensures var m1 := ApplyWrites(m, PinModeWrites(m, pinNumber, mode).value);
            && Peek(m1, DirectionRegister(bank))
               == (if bank == pinNumber / 32 && !mode.Undefined?
                   then Peek(m, DirectionRegister(bank))[pinNumber % 32 := mode == Output]
                   else Peek(m, DirectionRegister(bank)))
            && Peek(m1, DataRegister(bank)) == Peek(m, DataRegister(bank))
  {
    var u := UnmapPinNumber(pinNumber);
    ModeStoresBankRegisters(m, u.gpioNumber, u.port, u.portNumber, mode, bank);
    assert 8 * u.port + u.portNumber == pinNumber % 32;
  }

  /** The only bank register a mode change stores to is the direction
      register; the data register is never written. */
  lemma PinModeWritesKeepData(m: Memory, pinNumber: int, mode: PinMode)
    requires PinModeWrites(m, pinNumber, mode).Ok?
    ensures var ws := PinModeWrites(m, pinNumber, mode).value;
            && |ws| == 3
            && !ws[0].addr.window.Bank? && !ws[1].addr.window.Bank?
            && ws[2].addr == DirectionRegister(ws[2].addr.window.index)
  {
  }

  /** A mode change stores, for each of its registers, a value that a
      later change to a supported mode overwrites completely. */
  lemma ModeStoresOverwrite(m: Memory, gpio: int, port: int, portNumber: int, first: PinMode, second: PinMode)
    requires 0 <= gpio < |GpioRegisterAddresses| && 0 <= port < 4
    requires !second.Undefined?
    ensures var ws1 := ModeStores(m, gpio, port, portNumber, first);
            var m1 := m[ws1[0].addr := ws1[0].value][ws1[1].addr := ws1[1].value][ws1[2].addr := ws1[2].value];
            ModeStores(m1, gpio, port, portNumber, second) == ModeStores(m, gpio, port, portNumber, second)
  {
    var ws1 := ModeStores(m, gpio, port, portNumber, first);
    ModeStoresDistinct(m, gpio, port, portNumber, first);
    PeekThree(m, ws1[0].addr, ws1[1].addr, ws1[2].addr, ws1[0].value, ws1[1].value, ws1[2].value);
    IomuxValueOverwrite(Peek(m, ws1[0].addr), gpio, port, portNumber);
    FieldUpdateOverwrite(Peek(m, ws1[1].addr), 3, 2 * portNumber,
      PullCode(ResistorOf(first)), PullCode(ResistorOf(second)));
    DirectionUpdateOverwrite(Peek(m, ws1[2].addr), 8 * port + portNumber, first, second);
  }

  /** Selecting the GPIO function twice is selecting it once. */
  lemma IomuxValueOverwrite(w: Word, gpio: int, port: int, portNumber: int)
    requires 0 <= gpio < |GpioRegisterAddresses| && 0 <= port < 4
    ensures IomuxValue(IomuxValue(w, gpio, port, portNumber), gpio, port, portNumber)
         == IomuxValue(w, gpio, port, portNumber)
  {
    if SplitIomux(gpio, port) {
      FieldUpdateOverwrite(w, 7, IomuxBitOffset(portNumber), 0, 0);
    } else {
      FieldUpdateOverwrite(w, 3, 2 * portNumber, 0, 0);
    }
  }

  /** Setting a supported mode after any mode leaves the registers as if
      only the second mode had been set. */
  lemma ModeStoresLastWins(m: Memory, gpio: int, port: int, portNumber: int, first: PinMode, second: PinMode)
    requires 0 <= gpio < |GpioRegisterAddresses| && 0 <= port < 4
    requires !second.Undefined?
    ensures var m1 := ApplyWrites(m, ModeStores(m, gpio, port, portNumber, first));
            ApplyWrites(m1, ModeStores(m1, gpio, port, portNumber, second))
            == ApplyWrites(m, ModeStores(m, gpio, port, portNumber, second))
  {
    var ws1 := ModeStores(m, gpio, port, portNumber, first);
    var m1 := ApplyWrites(m, ws1);
    var ws := ModeStores(m, gpio, port, portNumber, second);
    ApplyThree(m, ws1[0], ws1[1], ws1[2]);
    ModeStoresOverwrite(m, gpio, port, portNumber, first, second);
    ApplyThree(m1, ws[0], ws[1], ws[2]);
    ApplyThree(m, ws[0], ws[1], ws[2]);
    assert ws[0].addr == ws1[0].addr && ws[1].addr == ws1[1].addr && ws[2].addr == ws1[2].addr;
    RestoreThree(m, ws[0].addr, ws[1].addr, ws[2].addr, ws1[0].value, ws1[1].value, ws1[2].value,
      ws[0].value, ws[1].value, ws[2].value);
  }

  /** The same, for a pin number the driver accepts. */
  lemma LastModeWins(m: Memory, pinNumber: int, first: PinMode, second: PinMode)
    requires -8 < pinNumber < 32 * |GpioRegisterAddresses|
    requires !second.Undefined?
    ensures var m1 := ApplyWrites(m, PinModeWrites(m, pinNumber, first).value);
            ApplyWrites(m1, PinModeWrites(m1, pinNumber, second).value)
            == ApplyWrites(m, PinModeWrites(m, pinNumber, second).value)
  {
    UnmapInRange(pinNumber, |GpioRegisterAddresses|);
    var u := UnmapPinNumber(pinNumber);
    ModeStoresLastWins(m, u.gpioNumber, u.port, u.portNumber, first, second);
  }
}
