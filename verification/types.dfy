/** Machine integer widths, the optional-value wrapper and the board constants
    shared by every part of the joystick firmware model. */
module Types {

  /** C's fixed-width unsigned and signed integers, as ranges of `int`. */
  type u8 = x: int | 0 <= x < 0x100
  type u16 = x: int | 0 <= x < 0x1_0000
  type u32 = x: int | 0 <= x < 0x1_0000_0000
  type i16 = x: int | -0x8000 <= x < 0x8000

  const U32_MODULUS: int := 0x1_0000_0000

  datatype Option<T> = None | Some(value: T)

  /** BUTTON_COUNT: eight push buttons. */
  const BUTTON_COUNT: nat := 8

  /** The four analog channels sampled per conversion. */
  const CHANNEL_COUNT: nat := 4

  /** `button_pins`: the GPIO pin mask of each button, in button order.
      The HAL defines GPIO_PIN_n as the single-bit mask 1 << n, so the buttons
      sit on pins 0, 1, 3, 4, 5, 6, 7 and 8 (pin 2 is skipped). */
  const BUTTON_PINS: seq<u16> := [0x0001, 0x0002, 0x0008, 0x0010, 0x0020, 0x0040, 0x0080, 0x0100]

  /** A flag or state byte that holds only 0 or 1. */
  predicate IsBit(x: int) {
    x == 0 || x == 1
  }

  function Abs(x: int): (r: nat)
    ensures r == x || r == -x
  {
    if x < 0 then -x else x
  }
}
