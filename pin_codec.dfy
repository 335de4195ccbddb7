/** The logical pin numbering of the Rockchip driver: pin
    `32 * bank + 8 * port + bit` for port letters 'A' .. 'D' and bits
    0 .. 7, and its inverse. */
module PinCodec {
  import opened CSharpIntegers
  import opened Gpio

  /** A pin number split into its GPIO bank, port (0 for 'A' .. 3 for 'D')
      and bit within the port. */
  datatype Unmapped = Unmapped(gpioNumber: int, port: int, portNumber: int)

  /** `MapPinNumber(gpioNumber, port, portNumber)`: the logical number of
      pin GPIO{gpioNumber}_{port}{portNumber}. A port letter outside
      'A' .. 'D' raises an exception. */
  function MapPinNumber(gpioNumber: int, port: char, portNumber: int): (r: Result<int>)
    ensures r.Ok? <==> 'A' <= port <= 'D'
    ensures !r.Ok? ==> r.error == UnnamedException
  {
    if 'A' <= port <= 'D' then
      Ok(32 * gpioNumber + 8 * (port as int - 'A' as int) + portNumber)
    else
      Err(UnnamedException)
  }

  /** `UnmapPinNumber(pinNumber)`, with C#'s truncating `%` and `/`. For
      every pin the three parts recombine to the pin; for a non-negative
      pin they are its quotient and remainders by 32 and 8. */
  function UnmapPinNumber(pinNumber: int): (u: Unmapped)
    ensures 32 * u.gpioNumber + 8 * u.port + u.portNumber == pinNumber
    ensures pinNumber >= 0 ==>
      && u.gpioNumber == pinNumber / 32
      && u.port == pinNumber % 32 / 8
      && u.portNumber == pinNumber % 8
    ensures pinNumber < 0 ==> -3 <= u.port <= 0 && -7 <= u.portNumber <= 0 && u.gpioNumber <= 0
  {
    var portNumber := TruncRem(pinNumber, 8);
    var port := TruncDiv(TruncRem(pinNumber - portNumber, 32), 8);
    var gpioNumber := TruncDiv(pinNumber - portNumber, 32);
    UnmapFacts(pinNumber);
    Unmapped(gpioNumber, port, portNumber)
  }

  lemma UnmapFacts(pin: int)
    ensures var n := TruncRem(pin, 8);
            var p := TruncDiv(TruncRem(pin - n, 32), 8);
            var g := TruncDiv(pin - n, 32);
            && 32 * g + 8 * p + n == pin
            && (pin >= 0 ==> g == pin / 32 && p == pin % 32 / 8 && n == pin % 8)
            && (pin < 0 ==> -3 <= p <= 0 && -7 <= n <= 0 && g <= 0)
  {
    var n := TruncRem(pin, 8);
    var rest := pin - n;
    // `rest` is a multiple of 8 with the sign of `pin`
    assert rest == 8 * TruncDiv(pin, 8);
    var r32 := TruncRem(rest, 32);
    var g := TruncDiv(rest, 32);
    assert rest == 32 * g + r32;
    if pin >= 0 {
      assert rest >= 0 && r32 >= 0;
      assert r32 == rest - 32 * g;
      MultipleOfEight(TruncDiv(pin, 8), g);
      assert r32 % 8 == 0;
      assert TruncDiv(r32, 8) * 8 == r32;
      DivMod32(pin, n, g, r32);
    } else {
      assert rest <= 0 && r32 <= 0;
      MultipleOfEight(TruncDiv(pin, 8), g);
      assert (-r32) % 8 == 0;
      assert TruncDiv(r32, 8) * 8 == r32;
    }
  }

  /** `8q - 32g` is a multiple of 8. */
  lemma MultipleOfEight(q: int, g: int)
    ensures (8 * q - 32 * g) % 8 == 0
    ensures (32 * g - 8 * q) % 8 == 0
  {
    assert 8 * q - 32 * g == 8 * (q - 4 * g);
    assert 32 * g - 8 * q == 8 * (4 * g - q);
  }

  lemma DivMod32(pin: int, n: int, g: int, r32: int)
    requires pin >= 0 && 0 <= n < 8 && n == pin % 8
    requires 0 <= r32 < 32 && r32 % 8 == 0
    requires pin - n == 32 * g + r32
    ensures g == pin / 32 && r32 / 8 == pin % 32 / 8
  {
    assert pin == 32 * g + (r32 + n);
    assert 0 <= r32 + n < 32;
  }

  /** GPIO4_D5 is pin 157 and GPIO4_C6 is pin 150. */
  lemma MapPinNumberExamples()
    ensures MapPinNumber(4, 'D', 5) == Ok(157)
    ensures MapPinNumber(4, 'C', 6) == Ok(150)
    ensures MapPinNumber(4, 'E', 0).Err?
  {
  }

  /** Unmapping a mapped pin gives back its bank, port index and bit. */
  lemma UnmapMapRoundTrip(gpioNumber: int, port: char, portNumber: int)
    requires gpioNumber >= 0 && 'A' <= port <= 'D' && 0 <= portNumber < 8
    ensures MapPinNumber(gpioNumber, port, portNumber).Ok?
    ensures UnmapPinNumber(MapPinNumber(gpioNumber, port, portNumber).value)
         == Unmapped(gpioNumber, port as int - 'A' as int, portNumber)
  {
    var p := port as int - 'A' as int;
    var pin := 32 * gpioNumber + 8 * p + portNumber;
    assert 0 <= 8 * p + portNumber < 32;
    assert pin / 32 == gpioNumber && pin % 32 == 8 * p + portNumber;
    assert pin % 8 == portNumber;
  }

  /** Every non-negative pin unmaps to a port in 0 .. 3 and a bit in
      0 .. 7, and mapping those back gives the pin. */
  lemma MapUnmapRoundTrip(pinNumber: int)
    requires pinNumber >= 0
    ensures var u := UnmapPinNumber(pinNumber);
            && u.gpioNumber >= 0 && 0 <= u.port < 4 && 0 <= u.portNumber < 8
            && MapPinNumber(u.gpioNumber, ('A' as int + u.port) as char, u.portNumber) == Ok(pinNumber)
  {
    var u := UnmapPinNumber(pinNumber);
    assert 0 <= u.port < 4;
  }

  /** Which pins reach a bank of a SoC with `banks` banks: a bank index in
      range needs `-32 < pin < 32 * banks`, and a non-negative port as well
      needs `-8 < pin`. */
  lemma UnmapInRange(pinNumber: int, banks: nat)
    requires banks >= 1
    ensures var u := UnmapPinNumber(pinNumber);
            && (0 <= u.gpioNumber < banks <==> -32 < pinNumber < 32 * banks)
            && (0 <= u.gpioNumber < banks && 0 <= u.port <==> -8 < pinNumber < 32 * banks)
  {
    var u := UnmapPinNumber(pinNumber);
    if pinNumber >= 0 {
      assert 0 <= pinNumber - 32 * u.gpioNumber < 32;
    } else {
      if u.gpioNumber == 0 {
        assert pinNumber == 8 * u.port + u.portNumber;
      } else {
        assert pinNumber <= -32;
      }
    }
  }
}
