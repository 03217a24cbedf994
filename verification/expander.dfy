/**
 The wiring of the PCF8574-style port expander between the bus and the
 controller's 4-bit interface. These values come from the library's header,
 which is not part of this model; they are the conventional ones for this
 library family and are ASSUMED here:

   P0 = RS (register select), P1 = R/W (held low), P2 = E (enable),
   P3 = backlight transistor, P4..P7 = controller data lines DB4..DB7.

 The frame lemmas only rely on Rs, Rw, En and the backlight bit being
 distinct single bits that together make up the low nibble.
 */
module Expander {

  const Rs: bv8 := 0x01
  const Rw: bv8 := 0x02
  const En: bv8 := 0x04
  const BacklightOn: bv8 := 0x08   // LCD_BACKLIGHT
  const BacklightOff: bv8 := 0x00  // LCD_NOBACKLIGHT

  /** The expander bits that carry controller data. */
  const DataBits: bv8 := 0xF0

  /** The register-select bit for a command (false) or a data byte (true). */
  function ModeBit(data: bool): bv8 {
    if data then Rs else 0
  }

  /** The value `_backlightval` holds when the backlight is on or off. */
  function LevelOf(on: bool): bv8 {
    if on then BacklightOn else BacklightOff
  }
}
