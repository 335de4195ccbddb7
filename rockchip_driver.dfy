/** The generic Rockchip GPIO driver: reading and writing pin values
    through the banks' data registers, and the table of open pins with
    their modes, shared by the RK3399 and RK3328 drivers. */
module Rockchip {
  import opened Words
  import opened Gpio
  import opened PinCodec
  import opened Registers
  import Rk3399Driver
  import Rk3328Driver

  /** The SoC a driver object was built for; it decides the bank table
      and how a mode change is performed. */
  datatype Soc = RK3399 | RK3328

  function BankCount(soc: Soc): (n: nat)
    ensures n >= 1
  {
    match soc
    case RK3399 => |Rk3399Driver.GpioRegisterAddresses|
    case RK3328 => |Rk3328Driver.GpioRegisterAddresses|
  }

  /** What the driver remembers about an open pin. */
  datatype PinState = PinState(currentPinMode: PinMode, inUseByInterruptDriver: bool)

  /** The pin-state table after a successful mode change: an open pin
      keeps its interrupt flag and takes the new mode; a pin not yet in
      the table enters it with the flag clear. */
  function RecordMode(modes: map<int, PinState>, pinNumber: int, mode: PinMode): (r: map<int, PinState>)
    ensures r.Keys == modes.Keys + {pinNumber}
    ensures r[pinNumber] == PinState(mode, pinNumber in modes && modes[pinNumber].inUseByInterruptDriver)
    ensures forall q :: q in modes && q != pinNumber ==> r[q] == modes[q]
  {
    if pinNumber in modes then modes[pinNumber := modes[pinNumber].(currentPinMode := mode)]
    else modes[pinNumber := PinState(mode, false)]
  }

  /** Recording the mode of a pin inside a range keeps every recorded pin
      inside it. */
  lemma RecordModeInRange(modes: map<int, PinState>, pinNumber: int, mode: PinMode, lo: int, hi: int)
    requires forall pin :: pin in modes ==> lo < pin < hi
    requires lo < pinNumber < hi
    ensures forall pin :: pin in RecordMode(modes, pinNumber, mode) ==> lo < pin < hi
  {
  }

  /** `IsPinModeSupported`: exactly the four modes of the enumeration, on
      every pin. */
  function IsPinModeSupported(pinNumber: int, mode: PinMode): (r: bool)
    ensures r <==> !mode.Undefined?
  {
    match mode
    case Input | InputPullDown | InputPullUp | Output => true
    case Undefined(_) => false
  }

  /** `Write(pinNumber, value)` on memory `m`: one read-modify-write of the
      bank's data register, setting bit `8 * port + portNumber` (shift
      count taken modulo 32, as C# does) for High and clearing it for Low;
      a bank index outside the address table raises IndexOutOfRange. */
  function WriteStores(soc: Soc, m: Memory, pinNumber: int, value: PinValue): (r: Result<seq<RegWrite>>)
    ensures r.Ok? <==> -32 < pinNumber < 32 * BankCount(soc)
    ensures r.Err? ==> r.error == IndexOutOfRange
    ensures r.Ok? ==> |r.value| == 1 && r.value[0].addr == DataRegister(UnmapPinNumber(pinNumber).gpioNumber)
  {
    UnmapInRange(pinNumber, BankCount(soc));
    var u := UnmapPinNumber(pinNumber);
    if !(0 <= u.gpioNumber < BankCount(soc)) then Err(IndexOutOfRange)
    else
      var data := DataRegister(u.gpioNumber);
      Ok([RegWrite(data, SetBit(Peek(m, data), 8 * u.port + u.portNumber, value == High))])
  }

  /** `Read(pinNumber)` on memory `m`: bit `8 * port + portNumber` of the
      bank's data register. */
  function ReadValue(soc: Soc, m: Memory, pinNumber: int): (r: Result<PinValue>)
    ensures r.Ok? <==> -32 < pinNumber < 32 * BankCount(soc)
    ensures r.Err? ==> r.error == IndexOutOfRange
  {
    UnmapInRange(pinNumber, BankCount(soc));
    var u := UnmapPinNumber(pinNumber);
    if !(0 <= u.gpioNumber < BankCount(soc)) then Err(IndexOutOfRange)
    else if TestBit(Peek(m, DataRegister(u.gpioNumber)), 8 * u.port + u.portNumber) then Ok(High)
    else Ok(Low)
  }

  /** `SetPinMode(pinNumber, mode)` of the SoC's driver on memory `m`. */
  function ModeWrites(soc: Soc, m: Memory, pinNumber: int, mode: PinMode): (r: Result<seq<RegWrite>>)
    ensures r.Ok? <==> -8 < pinNumber < 32 * BankCount(soc)
  {
    match soc
    case RK3399 => Rk3399Driver.PinModeWrites(m, pinNumber, mode)
    case RK3328 => Rk3328Driver.PinModeWrites(m, pinNumber, mode)
  }

  /** For a pin of the SoC, a write stores the bank's data word with bit
      `pinNumber % 32` set for High or cleared for Low and the other 31
      bits as read. */
  lemma WriteSetsOneBit(soc: Soc, m: Memory, pinNumber: int, value: PinValue)
    requires 0 <= pinNumber < 32 * BankCount(soc)
    ensures var data := DataRegister(pinNumber / 32);
            WriteStores(soc, m, pinNumber, value)
            == Ok([RegWrite(data, Peek(m, data)[pinNumber % 32 := value == High])])
  {
    var u := UnmapPinNumber(pinNumber);
    assert 8 * u.port + u.portNumber == pinNumber % 32;
  }

  /** For a pin of the SoC, a read is High exactly when bit
      `pinNumber % 32` of the bank's data word is set. */
  lemma ReadTestsOneBit(soc: Soc, m: Memory, pinNumber: int)
    requires 0 <= pinNumber < 32 * BankCount(soc)
    ensures ReadValue(soc, m, pinNumber)
         == Ok(if Peek(m, DataRegister(pinNumber / 32))[pinNumber % 32] then High else Low)
  {
    var u := UnmapPinNumber(pinNumber);
    assert 8 * u.port + u.portNumber == pinNumber % 32;
  }

  /** A read after a write of the same pin returns the written value. */
  lemma ReadAfterWrite(soc: Soc, m: Memory, pinNumber: int, value: PinValue)
    requires -32 < pinNumber < 32 * BankCount(soc)
    ensures ReadValue(soc, ApplyWrites(m, WriteStores(soc, m, pinNumber, value).value), pinNumber) == Ok(value)
  {
    var ws := WriteStores(soc, m, pinNumber, value).value;
    ApplyWritesLast(m, ws, 0);
  }

  /** For pins >= 0, a write of one pin leaves the value every other
      pin >= 0 reads unchanged (a negative pin aliases pin `32 + pinNumber`,
      see NegativePinAliases). */
  lemma WriteKeepsOtherPins(soc: Soc, m: Memory, pinNumber: int, other: int, value: PinValue)
    requires 0 <= pinNumber < 32 * BankCount(soc) && 0 <= other < 32 * BankCount(soc)
    requires pinNumber != other
    ensures ReadValue(soc, ApplyWrites(m, WriteStores(soc, m, pinNumber, value).value), other)
         == ReadValue(soc, m, other)
  {
    var data := DataRegister(pinNumber / 32);
    var w := RegWrite(data, Peek(m, data)[pinNumber % 32 := value == High]);
    WriteSetsOneBit(soc, m, pinNumber, value);
    ApplyOne(m, w);
    var m1 := m[data := w.value];
    ReadTestsOneBit(soc, m, other);
    ReadTestsOneBit(soc, m1, other);
    if other / 32 == pinNumber / 32 {
      assert other % 32 != pinNumber % 32;
    }
  }

  /** A negative pin -31 .. -1 writes and reads the same bit as pin
      `32 + pinNumber`: it lands in bank 0 and its shift count
      `pinNumber` is taken modulo 32. */
  lemma NegativePinAliases(soc: Soc, m: Memory, pinNumber: int, value: PinValue)
    requires -32 < pinNumber < 0
    ensures WriteStores(soc, m, pinNumber, value) == WriteStores(soc, m, 32 + pinNumber, value)
    ensures ReadValue(soc, m, pinNumber) == ReadValue(soc, m, 32 + pinNumber)
  {
    var u := UnmapPinNumber(pinNumber);
    assert u.gpioNumber == 0 && 8 * u.port + u.portNumber == pinNumber;
    assert ShiftCount(pinNumber) == 32 + pinNumber;
  }

  /** The direction registers after a mode change of a pin of the SoC:
      the pin's bit of its bank's register follows the mode (1 for
      Output, 0 for the input modes, untouched for a mode outside the
      enumeration), every other bank's register is untouched, and no data
      register changes. */
  lemma ModeWritesRegisters(soc: Soc, m: Memory, pinNumber: int, mode: PinMode, bank: nat)
    requires 0 <= pinNumber < 32 * BankCount(soc)
    ensures var m1 := ApplyWrites(m, ModeWrites(soc, m, pinNumber, mode).value);
            && Peek(m1, DirectionRegister(bank))
               == (if bank == pinNumber / 32 && !mode.Undefined?
                   then Peek(m, DirectionRegister(bank))[pinNumber % 32 := mode == Output]
                   else Peek(m, DirectionRegister(bank)))
            && Peek(m1, DataRegister(bank)) == Peek(m, DataRegister(bank))
  {
    match soc
    case RK3399 => Rk3399Driver.PinModeWritesBankRegisters(m, pinNumber, mode, bank);
    case RK3328 => Rk3328Driver.PinModeWritesBankRegisters(m, pinNumber, mode, bank);
  }

  /** A mode change of any accepted pin, negative ones included, stores to
      no data register. */
  lemma ModeWritesKeepData(soc: Soc, m: Memory, pinNumber: int, mode: PinMode, bank: nat)
    requires -8 < pinNumber < 32 * BankCount(soc)
    ensures Peek(ApplyWrites(m, ModeWrites(soc, m, pinNumber, mode).value), DataRegister(bank))
         == Peek(m, DataRegister(bank))
  {
    var ws := ModeWrites(soc, m, pinNumber, mode).value;
    var d := DataRegister(bank);
    match soc {
      case RK3399 => Rk3399Driver.PinModeWritesKeepData(m, pinNumber, mode);
      case RK3328 => Rk3328Driver.PinModeWritesKeepData(m, pinNumber, mode);
    }
    ApplyWritesUntouched(m, ws, d);
  }

  /** A mode change of any accepted pin, negative ones included, never
      alters the value a pin reads. */
  lemma ModeKeepsValues(soc: Soc, m: Memory, pinNumber: int, mode: PinMode, other: int)
    requires -8 < pinNumber < 32 * BankCount(soc)
    ensures ReadValue(soc, ApplyWrites(m, ModeWrites(soc, m, pinNumber, mode).value), other)
         == ReadValue(soc, m, other)
  {
    var o := UnmapPinNumber(other);
    if 0 <= o.gpioNumber < BankCount(soc) {
      ModeWritesKeepData(soc, m, pinNumber, mode, o.gpioNumber);
    }
  }

  /** The direction bit of every open pin of the SoC agrees with the mode
      the table records for it (modes outside the enumeration store
      nothing and are skipped). */
  predicate ModesMatchDirections(soc: Soc, m: Memory, modes: map<int, PinState>)
  {
    forall pin :: pin in modes && 0 <= pin < 32 * BankCount(soc) && !modes[pin].currentPinMode.Undefined? ==>
      Peek(m, DirectionRegister(pin / 32))[pin % 32] == (modes[pin].currentPinMode == Output)
  }

  /** A successful mode change of a pin of the SoC, recorded in the table,
      keeps the table and the direction bits in agreement. */
  lemma ModeChangeKeepsDirections(soc: Soc, m: Memory, modes: map<int, PinState>, pinNumber: int, mode: PinMode)
    requires 0 <= pinNumber < 32 * BankCount(soc)
    requires ModesMatchDirections(soc, m, modes)
    ensures ModesMatchDirections(soc, ApplyWrites(m, ModeWrites(soc, m, pinNumber, mode).value),
                                 RecordMode(modes, pinNumber, mode))
  {
    var m1 := ApplyWrites(m, ModeWrites(soc, m, pinNumber, mode).value);
    var modes1 := RecordMode(modes, pinNumber, mode);
    forall pin | pin in modes1 && 0 <= pin < 32 * BankCount(soc) && !modes1[pin].currentPinMode.Undefined?
      ensures Peek(m1, DirectionRegister(pin / 32))[pin % 32] == (modes1[pin].currentPinMode == Output)
    {
      ModeChangeKeepsPin(soc, m, modes, pinNumber, mode, pin);
    }
  }

  lemma ModeChangeKeepsPin(soc: Soc, m: Memory, modes: map<int, PinState>, pinNumber: int, mode: PinMode, pin: int)
    requires 0 <= pinNumber < 32 * BankCount(soc)
    requires pin in modes || pin == pinNumber
    requires 0 <= pin < 32 * BankCount(soc)
    requires pin != pinNumber && !modes[pin].currentPinMode.Undefined? ==>
               Peek(m, DirectionRegister(pin / 32))[pin % 32] == (modes[pin].currentPinMode == Output)
    ensures var modes1 := RecordMode(modes, pinNumber, mode);
            !modes1[pin].currentPinMode.Undefined? ==>
              Peek(ApplyWrites(m, ModeWrites(soc, m, pinNumber, mode).value), DirectionRegister(pin / 32))[pin % 32]
              == (modes1[pin].currentPinMode == Output)
  {
    ModeWritesRegisters(soc, m, pinNumber, mode, pin / 32);
    if pin != pinNumber && pin / 32 == pinNumber / 32 {
      assert pin % 32 != pinNumber % 32;
    }
  }

  /** A write of a data register keeps the table and the direction bits in
      agreement. */
  lemma WriteKeepsDirections(soc: Soc, m: Memory, modes: map<int, PinState>, pinNumber: int, value: PinValue)
    requires -32 < pinNumber < 32 * BankCount(soc)
    requires ModesMatchDirections(soc, m, modes)
    ensures ModesMatchDirections(soc, ApplyWrites(m, WriteStores(soc, m, pinNumber, value).value), modes)
  {
    var ws := WriteStores(soc, m, pinNumber, value).value;
    ApplyOne(m, ws[0]);
    assert ws == [ws[0]];
  }

  /** Closing a pin keeps the rest of the table in agreement. */
  lemma RemoveKeepsDirections(soc: Soc, m: Memory, modes: map<int, PinState>, pinNumber: int)
    requires ModesMatchDirections(soc, m, modes)
    ensures ModesMatchDirections(soc, m, modes - {pinNumber})
  {
  }

  /** A driver object for one SoC: the register memory it reaches through
      its mapped windows and the table of open pins. */
  class RockchipDriver {
    const soc: Soc
    var regs: Memory
    var pinModes: map<int, PinState>

    /** Only pins whose mode change succeeded are in the table. */
    predicate Valid()
      reads this
    {
      forall pin :: pin in pinModes ==> -8 < pin < 32 * BankCount(soc)
    }

    /** The direction bit of every open pin of the SoC agrees with its
        recorded mode. */
    predicate DirectionsAgree()
      reads this
    {
      ModesMatchDirections(soc, regs, pinModes)
    }

    constructor(soc: Soc, regs: Memory)
      ensures this.soc == soc && this.regs == regs && pinModes == map[]
      ensures Valid() && DirectionsAgree()
    {
      this.soc := soc;
      this.regs := regs;
      pinModes := map[];
    }

    /** `Write(pinNumber, value)`. */
    method Write(pinNumber: int, value: PinValue) returns (r: Outcome)
      requires Valid()
      modifies this
      ensures Valid() && pinModes == old(pinModes)
      ensures match WriteStores(soc, old(regs), pinNumber, value)
              case Ok(ws) => r == Pass && regs == ApplyWrites(old(regs), ws)
              case Err(e) => r == Fail(e) && regs == old(regs)
      ensures old(DirectionsAgree()) ==> DirectionsAgree()
    {
      UnmapInRange(pinNumber, BankCount(soc));
      var u := UnmapPinNumber(pinNumber);
      if !(0 <= u.gpioNumber < BankCount(soc)) {
        return Fail(IndexOutOfRange);
      }
      var data := DataRegister(u.gpioNumber);
      var dataValue := Peek(regs, data);
      if value == High {
        dataValue := Or(dataValue, Shl(Small(1), 8 * u.port + u.portNumber));
      } else {
        dataValue := And(dataValue, Not(Shl(Small(1), 8 * u.port + u.portNumber)));
      }
      ghost var before := regs;
      regs := regs[data := dataValue];
      r := Pass;
      ApplyOne(before, RegWrite(data, dataValue));
      if ModesMatchDirections(soc, before, pinModes) {
        WriteKeepsDirections(soc, before, pinModes, pinNumber, value);
      }
    }

    /** `Read(pinNumber)`. */
    method Read(pinNumber: int) returns (r: Result<PinValue>)
      ensures r == ReadValue(soc, regs, pinNumber)
    {
      UnmapInRange(pinNumber, BankCount(soc));
      var u := UnmapPinNumber(pinNumber);
      if !(0 <= u.gpioNumber < BankCount(soc)) {
        return Err(IndexOutOfRange);
      }
      var dataValue := Peek(regs, DataRegister(u.gpioNumber));
      r := if And(Shr(dataValue, 8 * u.port + u.portNumber), Small(1)) != Small(0) then Ok(High) else Ok(Low);
    }

    /** The register work of the RK3399 mode change of bit `portNumber` of
        port `port` of bank `gpio`: read the direction and pull words,
        update the pull field and the direction bit, then store the pull
        word and the direction word. */
    method StoreModeRk3399(gpio: int, port: int, portNumber: int, mode: PinMode)
      requires 0 <= gpio < |Rk3399Driver.GpioRegisterAddresses| && 0 <= 4 * gpio + port < |Rk3399Driver.GrfOffsets|
      modifies this
      ensures regs == ApplyWrites(old(regs), Rk3399Driver.ModeStores(old(regs), gpio, port, portNumber, mode))
      ensures pinModes == old(pinModes)
    {
      var dir := DirectionRegister(gpio);
      var dirValue := Peek(regs, dir);
      var pull := Rk3399Driver.PullRegister(gpio, port);
      var modeValue := Peek(regs, pull);
      modeValue := FieldUpdate(modeValue, 3, 2 * portNumber, Rk3399Driver.PullCode(gpio, ResistorOf(mode)));
      dirValue := DirectionUpdate(dirValue, 8 * port + portNumber, mode);
      ghost var before := regs;
      regs := regs[pull := modeValue];
      regs := regs[dir := dirValue];
      ApplyTwo(before, RegWrite(pull, modeValue), RegWrite(dir, dirValue));
    }

    /** `SetPinMode(pinNumber, mode)` of the RK3399 driver: the bank and
        pull table lookups, the register work, then the mode recorded. */
    method SetPinModeRk3399(pinNumber: int, mode: PinMode) returns (r: Outcome)
      requires soc == RK3399 && Valid()
      modifies this
      ensures Valid()
      ensures match Rk3399Driver.PinModeWrites(old(regs), pinNumber, mode)
              case Ok(ws) => r == Pass && regs == ApplyWrites(old(regs), ws)
                             && pinModes == RecordMode(old(pinModes), pinNumber, mode)
              case Err(e) => r == Fail(e) && regs == old(regs) && pinModes == old(pinModes)
    {
      UnmapInRange(pinNumber, BankCount(soc));
      var u := UnmapPinNumber(pinNumber);
      if !(0 <= u.gpioNumber < |Rk3399Driver.GpioRegisterAddresses|) {
        return Fail(IndexOutOfRange);
      }
      if !(0 <= 4 * u.gpioNumber + u.port < |Rk3399Driver.GrfOffsets|) {
        return Fail(IndexOutOfRange);
      }
      assert -8 < pinNumber < 32 * BankCount(soc);
      assert Rk3399Driver.PinModeWrites(regs, pinNumber, mode)
          == Ok(Rk3399Driver.ModeStores(regs, u.gpioNumber, u.port, u.portNumber, mode));
      StoreModeRk3399(u.gpioNumber, u.port, u.portNumber, mode);
      RecordModeInRange(pinModes, pinNumber, mode, -8, 32 * BankCount(soc));
      pinModes := RecordMode(pinModes, pinNumber, mode);
      r := Pass;
    }

    /** The register work of the RK3328 mode change of bit `portNumber` of
        port `port` of bank `gpio`: read the direction, iomux and pull
        words, update the direction bit, select the GPIO function and
        update the pull field, then store the iomux, pull and direction
        words in that order. */
    method StoreModeRk3328(gpio: int, port: int, portNumber: int, mode: PinMode)
      requires 0 <= gpio < |Rk3328Driver.GpioRegisterAddresses| && 0 <= port < 4
      modifies this
      ensures regs == ApplyWrites(old(regs), Rk3328Driver.ModeStores(old(regs), gpio, port, portNumber, mode))
      ensures pinModes == old(pinModes)
    {
      var dir := DirectionRegister(gpio);
      var dirValue := Peek(regs, dir);
      dirValue := DirectionUpdate(dirValue, 8 * port + portNumber, mode);
      var iomux := Rk3328Driver.IomuxRegister(gpio, port, portNumber);
      var iomuxValue := Rk3328Driver.IomuxValue(Peek(regs, iomux), gpio, port, portNumber);
      var pull := Rk3328Driver.PullRegister(gpio, port);
      var modeValue := Peek(regs, pull);
      modeValue := FieldUpdate(modeValue, 3, 2 * portNumber, Rk3328Driver.PullCode(ResistorOf(mode)));
      ghost var before := regs;
      regs := regs[iomux := iomuxValue];
      regs := regs[pull := modeValue];
      regs := regs[dir := dirValue];
      ApplyThree(before, RegWrite(iomux, iomuxValue), RegWrite(pull, modeValue), RegWrite(dir, dirValue));
    }

    /** `SetPinMode(pinNumber, mode)` of the RK3328 driver: the bank list
        and iomux table lookups, the register work, then the mode
        recorded. */
    method SetPinModeRk3328(pinNumber: int, mode: PinMode) returns (r: Outcome)
      requires soc == RK3328 && Valid()
      modifies this
      ensures Valid()
      ensures match Rk3328Driver.PinModeWrites(old(regs), pinNumber, mode)
              case Ok(ws) => r == Pass && regs == ApplyWrites(old(regs), ws)
                             && pinModes == RecordMode(old(pinModes), pinNumber, mode)
              case Err(e) => r == Fail(e) && regs == old(regs) && pinModes == old(pinModes)
    {
      UnmapInRange(pinNumber, BankCount(soc));
      var u := UnmapPinNumber(pinNumber);
      if !(0 <= u.gpioNumber < |Rk3328Driver.GpioRegisterAddresses|) {
        return Fail(ArgumentOutOfRange);
      }
      if !(0 <= 8 * u.gpioNumber + 2 * u.port + 1 < |Rk3328Driver.IomuxOffsets|) {
        return Fail(IndexOutOfRange);
      }
      assert -8 < pinNumber < 32 * BankCount(soc);
      assert Rk3328Driver.PinModeWrites(regs, pinNumber, mode)
          == Ok(Rk3328Driver.ModeStores(regs, u.gpioNumber, u.port, u.portNumber, mode));
      StoreModeRk3328(u.gpioNumber, u.port, u.portNumber, mode);
      RecordModeInRange(pinModes, pinNumber, mode, -8, 32 * BankCount(soc));
      pinModes := RecordMode(pinModes, pinNumber, mode);
      r := Pass;
    }

    /** `SetPinMode(pinNumber, mode)`: the SoC's mode change. For a pin of
        the SoC it keeps the recorded modes in agreement with the
        direction bits. */
    method SetPinMode(pinNumber: int, mode: PinMode) returns (r: Outcome)
      requires Valid()
      modifies this
      ensures Valid()
      ensures match ModeWrites(soc, old(regs), pinNumber, mode)
              case Ok(ws) => r == Pass && regs == ApplyWrites(old(regs), ws)
                             && pinModes == RecordMode(old(pinModes), pinNumber, mode)
              case Err(e) => r == Fail(e) && regs == old(regs) && pinModes == old(pinModes)
      ensures old(DirectionsAgree()) && pinNumber >= 0 ==> DirectionsAgree()
    {
      if soc == RK3399 {
        r := SetPinModeRk3399(pinNumber, mode);
      } else {
        r := SetPinModeRk3328(pinNumber, mode);
      }
      if r == Pass && pinNumber >= 0 && old(DirectionsAgree()) {
        ModeChangeKeepsDirections(soc, old(regs), old(pinModes), pinNumber, mode);
      }
    }

    /** `OpenPin(pinNumber)`: set the pin to Input, which enters it in the
        table. */
    method OpenPin(pinNumber: int) returns (r: Outcome)
      requires Valid()
      modifies this
      ensures Valid()
      ensures match ModeWrites(soc, old(regs), pinNumber, Input)
              case Ok(ws) => r == Pass && regs == ApplyWrites(old(regs), ws)
                             && pinModes == RecordMode(old(pinModes), pinNumber, Input)
              case Err(e) => r == Fail(e) && regs == old(regs) && pinModes == old(pinModes)
      ensures old(DirectionsAgree()) && pinNumber >= 0 ==> DirectionsAgree()
    {
      r := SetPinMode(pinNumber, Input);
    }

    /** `GetPinMode(pinNumber)`: the recorded mode of an open pin;
        InvalidOperation for a pin that is not open. */
    method GetPinMode(pinNumber: int) returns (r: Result<PinMode>)
      ensures pinNumber in pinModes ==> r == Ok(pinModes[pinNumber].currentPinMode)
      ensures pinNumber !in pinModes ==> r == Err(InvalidOperation)
    {
      if pinNumber !in pinModes {
        return Err(InvalidOperation);
      }
      r := Ok(pinModes[pinNumber].currentPinMode);
    }

    /** The first statement of the event methods (adding or removing a
        callback, waiting for an event): flag the pin as used by the
        interrupt driver. A pin that is not open raises KeyNotFound. */
    method MarkInUseByInterruptDriver(pinNumber: int) returns (r: Outcome)
      requires Valid()
      modifies this
      ensures Valid() && regs == old(regs)
      ensures pinNumber in old(pinModes) ==>
                r == Pass && pinModes == old(pinModes)[pinNumber := old(pinModes)[pinNumber].(inUseByInterruptDriver := true)]
      ensures pinNumber !in old(pinModes) ==> r == Fail(KeyNotFound) && pinModes == old(pinModes)
      ensures old(DirectionsAgree()) ==> DirectionsAgree()
    {
      if pinNumber !in pinModes {
        return Fail(KeyNotFound);
      }
      pinModes := pinModes[pinNumber := pinModes[pinNumber].(inUseByInterruptDriver := true)];
      r := Pass;
    }

    /** `ClosePin(pinNumber)`: an open Output pin is driven Low and set back
        to Input; then the pin leaves the table. A pin that is not open is
        ignored. */
    method ClosePin(pinNumber: int)
      requires Valid()
      modifies this
      ensures Valid()
      ensures pinModes == old(pinModes) - {pinNumber}
      ensures pinNumber in old(pinModes) && old(pinModes)[pinNumber].currentPinMode == Output ==>
                var m1 := ApplyWrites(old(regs), WriteStores(soc, old(regs), pinNumber, Low).value);
                regs == ApplyWrites(m1, ModeWrites(soc, m1, pinNumber, Input).value)
      ensures !(pinNumber in old(pinModes) && old(pinModes)[pinNumber].currentPinMode == Output) ==>
                regs == old(regs)
      ensures old(DirectionsAgree()) && pinNumber >= 0 ==> DirectionsAgree()
    {
      if pinNumber in pinModes {
        if pinModes[pinNumber].currentPinMode == Output {
          var w := Write(pinNumber, Low);
          var s := SetPinMode(pinNumber, Input);
        }
        ghost var modes := pinModes;
        pinModes := pinModes - {pinNumber};
        if ModesMatchDirections(soc, regs, modes) {
          RemoveKeepsDirections(soc, regs, modes, pinNumber);
        }
      }
    }
  }

  /** Closing an open Output pin >= 0 leaves it reading Low and its
      direction bit at input. */
  lemma CloseLeavesLowInput(soc: Soc, m: Memory, pinNumber: int)
    requires 0 <= pinNumber < 32 * BankCount(soc)
    ensures var m1 := ApplyWrites(m, WriteStores(soc, m, pinNumber, Low).value);
            var m2 := ApplyWrites(m1, ModeWrites(soc, m1, pinNumber, Input).value);
            && ReadValue(soc, m2, pinNumber) == Ok(Low)
            && !Peek(m2, DirectionRegister(pinNumber / 32))[pinNumber % 32]
  {
    var m1 := ApplyWrites(m, WriteStores(soc, m, pinNumber, Low).value);
    ReadAfterWrite(soc, m, pinNumber, Low);
    ModeKeepsValues(soc, m1, pinNumber, Input, pinNumber);
    ModeWritesRegisters(soc, m1, pinNumber, Input, pinNumber / 32);
  }
}
