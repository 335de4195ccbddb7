/** The NanoPi R2S board, an RK3328 board: the table from header
    positions to the driver's logical pin numbers. */
module NanoPiR2S {
  import opened Gpio
  import opened PinCodec
  import opened Registers
  import Rk3328Driver

  /** The logical pin number at each header position, -1 where the
      position is not a GPIO. */
  const PinNumberConverter: seq<int> := [
    -1, -1, -1, MapPinNumber(2, 'D', 1).value, -1, MapPinNumber(2, 'D', 0).value, -1,
    MapPinNumber(2, 'A', 2).value, MapPinNumber(3, 'A', 4).value, -1, MapPinNumber(3, 'A', 6).value
  ]

  /** The table has eleven positions; GPIO2_D1, GPIO2_D0, GPIO2_A2,
      GPIO3_A4 and GPIO3_A6 sit at positions 3, 5, 7, 8 and 10. */
  lemma ConverterEntries()
    ensures PinNumberConverter == [-1, -1, -1, 89, -1, 88, -1, 66, 100, -1, 102]
  {
  }

  /** The header positions of `s` that hold a GPIO. */
  function GpioPositions(s: seq<int>): set<int>
  {
    set i | 0 <= i < |s| && s[i] != -1
  }

  /** The number of entries of `s` other than -1, counted entry by
      entry. */
  function CountGpio(s: seq<int>): nat
    decreases |s|
  {
    if s == [] then 0
    else CountGpio(s[..|s| - 1]) + (if s[|s| - 1] != -1 then 1 else 0)
  }

  /** Counting the entries other than -1 gives the number of GPIO
      positions. */
  lemma {:induction false} CountGpioIsSize(s: seq<int>)
    ensures CountGpio(s) == |GpioPositions(s)|
    decreases |s|
  {
    if s != [] {
      var t := s[..|s| - 1];
      var k := |s| - 1;
      CountGpioIsSize(t);
      assert k !in GpioPositions(t);
      if s[k] != -1 {
        assert GpioPositions(s) == GpioPositions(t) + {k};
      } else {
        assert GpioPositions(s) == GpioPositions(t);
      }
    }
  }

  /** `PinCount`: the number of header positions that are GPIOs. */
  function PinCount(): (n: nat)
    ensures n == |GpioPositions(PinNumberConverter)|
  {
    CountGpioIsSize(PinNumberConverter);
    CountGpio(PinNumberConverter)
  }

  /** The board has five GPIOs on its header. */
  lemma PinCountIsFive()
    ensures PinCount() == 5
  {
    ConverterEntries();
    assert GpioPositions(PinNumberConverter) == {3, 5, 7, 8, 10};
  }

  /** `ConvertPinNumberToLogicalNumberingScheme(pinNumber)`: the logical
      number of a header position. A position outside the table raises
      IndexOutOfRange; a position that is not a GPIO raises an argument
      exception, so the -1 sentinel is never returned. */
  function Convert(pinNumber: int): (r: Result<int>)
    ensures r.Ok? <==> pinNumber in GpioPositions(PinNumberConverter)
    ensures r.Ok? ==> r.value == PinNumberConverter[pinNumber] && r.value != -1
    ensures !(0 <= pinNumber < |PinNumberConverter|) ==> r == Err(IndexOutOfRange)
    ensures 0 <= pinNumber < |PinNumberConverter| && !r.Ok? ==> r == Err(InvalidArgument)
  {
    if !(0 <= pinNumber < |PinNumberConverter|) then Err(IndexOutOfRange)
    else
      var num := PinNumberConverter[pinNumber];
      if num != -1 then Ok(num) else Err(InvalidArgument)
  }

  /** Two header positions never convert to the same logical pin. */
  lemma ConvertInjective(a: int, b: int)
    requires Convert(a).Ok? && Convert(b).Ok?
    requires a != b
    ensures Convert(a).value != Convert(b).value
  {
    ConverterEntries();
  }

  /** Every header GPIO is a pin of bank 2 or 3 of the RK3328 with a port
      in 'A' .. 'D', so the RK3328 driver accepts a mode change of it. */
  lemma ConvertedPinsOnRk3328(pinNumber: int, m: Memory, mode: PinMode)
    requires Convert(pinNumber).Ok?
    ensures var pin := Convert(pinNumber).value;
            var u := UnmapPinNumber(pin);
            && (u.gpioNumber == 2 || u.gpioNumber == 3)
            && 0 <= u.port < 4 && 0 <= u.portNumber < 8
            && Rk3328Driver.PinModeWrites(m, pin, mode).Ok?
  {
    ConverterEntries();
    var pin := Convert(pinNumber).value;
    assert 66 <= pin <= 102;
  }
}
