/** Pin assignments and tuning constants of the two-digit counter board
    (the default board layout; the breadboard layout is not modelled). */
module Pins {

  // Segment anodes: SEG_A and SEG_G sit on port B, the others on port C.
  const SEG_A: bv8 := 0x02  // PB1
  const SEG_B: bv8 := 0x01  // PC0
  const SEG_C: bv8 := 0x02  // PC1
  const SEG_D: bv8 := 0x10  // PC4
  const SEG_E: bv8 := 0x20  // PC5
  const SEG_F: bv8 := 0x04  // PC2
  const SEG_G: bv8 := 0x01  // PB0
  const DP: bv8 := 0x08     // PC3, the decimal point (never lit)

  // Digit cathodes, one per digit and colour, all on port D.
  const UNITS_RED: bv8 := 0x80  // PD7
  const TENS_RED: bv8 := 0x40   // PD6
  const TENS_GRN: bv8 := 0x20   // PD5
  const UNITS_GRN: bv8 := 0x10  // PD4

  // Push-button inputs on port D, active low with pull-ups.
  const COUNT_UP: bv8 := 0x08  // PD3
  const COUNT_DN: bv8 := 0x04  // PD2
  const COUNT_MASK: bv8 := 0x0C

  /** The port D bits that are not cathodes (the inputs and their pull-ups). */
  const COLOR_MASK: bv8 := 0x0F

  /** The port C bits enableDigit keeps (PC6); PORTB keeps everything but PB0/PB1. */
  const KEPT_C: bv8 := 0x40
  const KEPT_B: bv8 := 0xFC

  const DEBOUNCE_COUNT: int := 200

  // Loop iterations without a counted press before dimming and switching off.
  const DIM_TIMEOUT: int := 100000
  const SHUTOFF_TIMEOUT: int := 300000

  // Delays in microseconds: a digit's on-time and the extra off-time when dimmed.
  const ON_TIME: nat := 50
  const DIM_OFF_TIME: nat := 200

  /** The activity counter is a uint32_t. */
  const UINT32_LIMIT: int := 0x1_0000_0000
}
