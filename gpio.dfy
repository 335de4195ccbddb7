/** The pin-level vocabulary the driver exchanges with its callers: pin
    modes and values, and the exceptions it raises, as values. */
module Gpio {

  /** A pin mode. `Undefined` stands for any value of the mode enumeration
      outside the four named ones (a cast integer), which the drivers'
      `switch` statements send to their `default` branches; `raw` is
      meant to lie outside 0 .. 3, the values of the named modes. */
  datatype PinMode = Input | Output | InputPullDown | InputPullUp | Undefined(raw: int)

  datatype PinValue = Low | High

  /** The exceptions the modelled code raises. */
  datatype Error =
    | IndexOutOfRange      // an array indexed outside its bounds
    | ArgumentOutOfRange   // a list indexed outside its bounds
    | KeyNotFound          // a dictionary indexed with an absent key
    | InvalidOperation     // the pin is not open
    | InvalidArgument      // a header position that is not a GPIO
    | UnnamedException     // a bare `new Exception()`

  datatype Result<T> = Ok(value: T) | Err(error: Error)

  datatype Outcome = Pass | Fail(error: Error)

  /** The pad resistor a mode asks for. */
  datatype Resistor = NoPull | PullUp | PullDown

  function ResistorOf(mode: PinMode): Resistor
  {
    match mode
    case InputPullUp => PullUp
    case InputPullDown => PullDown
    case _ => NoPull
  }
}
