/**
 The instruction set of the HD44780U character LCD controller (Hitachi
 datasheet, Table 6 "Instructions"). The command and flag values are the
 conventional ones of the LiquidCrystal family header, which this model
 assumes: the header itself is not part of this model.

 An instruction is recognised by its highest set bit; the bits below it are
 the instruction's parameters. `Decode` is the controller's reading of a
 command byte, written independently of the driver so that the driver's
 commands can be stated as the instructions the controller receives.
 */
module Hd44780 {

  // Instruction codes (assumed header values LCD_CLEARDISPLAY ... LCD_SETDDRAMADDR).
  const ClearDisplay: bv8 := 0x01
  const ReturnHome: bv8 := 0x02
  const EntryModeSet: bv8 := 0x04
  const DisplayControl: bv8 := 0x08
  const CursorShift: bv8 := 0x10
  const FunctionSet: bv8 := 0x20
  const SetCgramAddr: bv8 := 0x40
  const SetDdramAddr: bv8 := 0x80

  // Entry-mode flags.
  const EntryRight: bv8 := 0x00
  const EntryLeft: bv8 := 0x02
  const EntryShiftIncrement: bv8 := 0x01
  const EntryShiftDecrement: bv8 := 0x00

  // Display on/off control flags.
  const DisplayOn: bv8 := 0x04
  const DisplayOff: bv8 := 0x00
  const CursorOn: bv8 := 0x02
  const CursorOff: bv8 := 0x00
  const BlinkOn: bv8 := 0x01
  const BlinkOff: bv8 := 0x00

  // Cursor/display shift flags.
  const DisplayMove: bv8 := 0x08
  const CursorMove: bv8 := 0x00
  const MoveRight: bv8 := 0x04
  const MoveLeft: bv8 := 0x00

  // Function-set flags.
  const EightBitMode: bv8 := 0x10
  const FourBitMode: bv8 := 0x00
  const TwoLine: bv8 := 0x08
  const OneLine: bv8 := 0x00
  const FiveByTenDots: bv8 := 0x04
  const FiveByEightDots: bv8 := 0x00

  /** The instructions of Table 6, with their parameters as booleans. */
  datatype Instruction =
    | NoOp
    | ClearDisplayOp
    | ReturnHomeOp
    | EntryModeSetOp(increment: bool, shift: bool)
    | DisplayControlOp(display: bool, cursor: bool, blink: bool)
    | CursorShiftOp(displayShift: bool, right: bool)
    | FunctionSetOp(eightBit: bool, twoLines: bool, tallFont: bool)
    | SetCgramAddrOp(cgram: bv8)
    | SetDdramAddrOp(ddram: bv8)

  /** An instruction whose address parameter fits its field (6 bits of CGRAM, 7 of DDRAM). */
  predicate WellFormed(i: Instruction) {
    match i
    case SetCgramAddrOp(a) => a < 0x40
    case SetDdramAddrOp(a) => a < 0x80
    case _ => true
  }

  /** How the controller reads a command byte: the highest set bit selects the instruction. */
  function Decode(b: bv8): (i: Instruction)
    ensures WellFormed(i)
  {
    if b & SetDdramAddr != 0 then SetDdramAddrOp(b & 0x7F)
    else if b & SetCgramAddr != 0 then SetCgramAddrOp(b & 0x3F)
    else if b & FunctionSet != 0 then
      FunctionSetOp(b & EightBitMode != 0, b & TwoLine != 0, b & FiveByTenDots != 0)
    else if b & CursorShift != 0 then CursorShiftOp(b & DisplayMove != 0, b & MoveRight != 0)
    else if b & DisplayControl != 0 then
      DisplayControlOp(b & DisplayOn != 0, b & CursorOn != 0, b & BlinkOn != 0)
    else if b & EntryModeSet != 0 then EntryModeSetOp(b & EntryLeft != 0, b & EntryShiftIncrement != 0)
    else if b & ReturnHome != 0 then ReturnHomeOp
    else if b & ClearDisplay != 0 then ClearDisplayOp
    else NoOp
  }

  function Bit(on: bool, flag: bv8): bv8 {
    if on then flag else 0
  }

  /** The command byte for an instruction, with every don't-care bit zero. */
  function Encode(i: Instruction): bv8 {
    match i
    case NoOp => 0
    case ClearDisplayOp => ClearDisplay
    case ReturnHomeOp => ReturnHome
    case EntryModeSetOp(inc, s) => EntryModeSet | Bit(inc, EntryLeft) | Bit(s, EntryShiftIncrement)
    case DisplayControlOp(d, c, b) => DisplayControl | Bit(d, DisplayOn) | Bit(c, CursorOn) | Bit(b, BlinkOn)
    case CursorShiftOp(sc, r) => CursorShift | Bit(sc, DisplayMove) | Bit(r, MoveRight)
    case FunctionSetOp(dl, n, f) => FunctionSet | Bit(dl, EightBitMode) | Bit(n, TwoLine) | Bit(f, FiveByTenDots)
    case SetCgramAddrOp(a) => SetCgramAddr | a
    case SetDdramAddrOp(a) => SetDdramAddr | a
  }

  /** Every well-formed instruction survives encoding and decoding. */
  lemma DecodeEncode(i: Instruction)
    requires WellFormed(i)
    ensures Decode(Encode(i)) == i
  {
    match i
    case NoOp =>
    case ClearDisplayOp =>
    case ReturnHomeOp =>
    case EntryModeSetOp(inc, s) =>
    case DisplayControlOp(d, c, b) =>
    case CursorShiftOp(sc, r) =>
    case FunctionSetOp(dl, n, f) =>
    case SetCgramAddrOp(a) =>
    case SetDdramAddrOp(a) =>
  }
}
