/**
 The host-side mirror registers. The controller cannot be read back, so
 the driver keeps `_displaycontrol` and `_displaymode` in the handle; each
 mutator sets or clears one flag of its mirror and then re-sends the whole
 register, so that after every call the mirror equals the value last
 transmitted. The shift commands are momentary and touch no mirror.
 */
module Mirror {
  import opened Bus
  import opened Observe
  import opened Hd44780
  import opened LiquidCrystal

  function IsSet(register: bv8, flag: bv8): bool {
    register & flag != 0
  }

  /** The display-control instruction the mirror `c` stands for. */
  function ControlOf(c: bv8): Instruction {
    DisplayControlOp(IsSet(c, DisplayOn), IsSet(c, CursorOn), IsSet(c, BlinkOn))
  }

  /** The entry-mode instruction the mirror `m` stands for. */
  function ModeOf(m: bv8): Instruction {
    EntryModeSetOp(IsSet(m, EntryLeft), IsSet(m, EntryShiftIncrement))
  }

  /** `register` with `flag` set (`|= flag`) or cleared (`&= ~flag`). */
  function Assign(register: bv8, flag: bv8, on: bool): bv8 {
    if on then register | flag else register & !flag
  }

  lemma AssignBits(register: bv8, flag: bv8, on: bool, allowed: bv8)
    requires register & !allowed == 0 && flag & !allowed == 0
    ensures IsSet(Assign(register, flag, on), flag) == (on && flag != 0)
    ensures Assign(register, flag, on) & !flag == register & !flag
    ensures Assign(register, flag, on) & !allowed == 0
  {
  }

  /** The controller reads the re-sent display-control register as exactly the mirrored flags. */
  lemma ControlDecodes(c: bv8)
    requires c & !ControlFlags == 0
    ensures Decode(DisplayControl | c) == ControlOf(c)
  {
  }

  /** The controller reads the re-sent entry-mode register as exactly the mirrored flags. */
  lemma ModeDecodes(m: bv8)
    requires m & !ModeFlags == 0
    ensures Decode(EntryModeSet | m) == ModeOf(m)
  {
  }

  /** Sets (`on`) or clears one display-control flag, then re-sends the whole register. */
  function UpdateControl(lcd: Lcd, flag: bv8, on: bool): (r: Step)
    requires Valid(lcd)
    requires flag == DisplayOn || flag == CursorOn || flag == BlinkOn
    ensures Valid(r.lcd)
    ensures IsSet(r.lcd.displayControl, flag) == on
    ensures r.lcd.displayControl & !flag == lcd.displayControl & !flag
    ensures r.lcd == lcd.(displayControl := r.lcd.displayControl)
    ensures DeliversTo(lcd, r.trace, [Command(ControlOf(r.lcd.displayControl))])
    ensures r.trace == SendCommand(r.lcd, DisplayControl | r.lcd.displayControl)
  {
    var c := Assign(lcd.displayControl, flag, on);
    AssignBits(lcd.displayControl, flag, on, ControlFlags);
    ControlDecodes(c);
    var lcd' := lcd.(displayControl := c);
    Step(lcd', SendCommand(lcd', DisplayControl | c))
  }

  /** Sets (`on`) or clears one entry-mode flag, then re-sends the whole register. */
  function UpdateMode(lcd: Lcd, flag: bv8, on: bool): (r: Step)
    requires Valid(lcd)
    requires flag == EntryLeft || flag == EntryShiftIncrement
    ensures Valid(r.lcd)
    ensures IsSet(r.lcd.displayMode, flag) == on
    ensures r.lcd.displayMode & !flag == lcd.displayMode & !flag
    ensures r.lcd == lcd.(displayMode := r.lcd.displayMode)
    ensures DeliversTo(lcd, r.trace, [Command(ModeOf(r.lcd.displayMode))])
    ensures r.trace == SendCommand(r.lcd, EntryModeSet | r.lcd.displayMode)
  {
    var m := Assign(lcd.displayMode, flag, on);
    AssignBits(lcd.displayMode, flag, on, ModeFlags);
    ModeDecodes(m);
    var lcd' := lcd.(displayMode := m);
    Step(lcd', SendCommand(lcd', EntryModeSet | m))
  }

  /** Applying the same control mutator twice leaves the mirror as once and sends the same command again. */
  lemma ControlIdempotent(lcd: Lcd, flag: bv8, on: bool)
    requires Valid(lcd)
    requires flag == DisplayOn || flag == CursorOn || flag == BlinkOn
    ensures var once := UpdateControl(lcd, flag, on);
      && UpdateControl(once.lcd, flag, on).lcd == once.lcd
      && UpdateControl(once.lcd, flag, on).trace == once.trace
  {
  }

  /** Applying the same entry-mode mutator twice leaves the mirror as once and sends the same command again. */
  lemma ModeIdempotent(lcd: Lcd, flag: bv8, on: bool)
    requires Valid(lcd)
    requires flag == EntryLeft || flag == EntryShiftIncrement
    ensures var once := UpdateMode(lcd, flag, on);
      && UpdateMode(once.lcd, flag, on).lcd == once.lcd
      && UpdateMode(once.lcd, flag, on).trace == once.trace
  {
  }

  // display / noDisplay / cursor / noCursor / blink / noBlink

  function Display(lcd: Lcd): (r: Step)
    requires Valid(lcd)
    ensures r.lcd == lcd.(displayControl := lcd.displayControl | DisplayOn)
    ensures DeliversTo(lcd, r.trace,
      [Command(DisplayControlOp(true, IsSet(lcd.displayControl, CursorOn), IsSet(lcd.displayControl, BlinkOn)))])
  {
    UpdateControl(lcd, DisplayOn, true)
  }

  function NoDisplay(lcd: Lcd): (r: Step)
    requires Valid(lcd)
    ensures r.lcd == lcd.(displayControl := lcd.displayControl & !DisplayOn)
    ensures DeliversTo(lcd, r.trace,
      [Command(DisplayControlOp(false, IsSet(lcd.displayControl, CursorOn), IsSet(lcd.displayControl, BlinkOn)))])
  {
    UpdateControl(lcd, DisplayOn, false)
  }

  function Cursor(lcd: Lcd): (r: Step)
    requires Valid(lcd)
    ensures r.lcd == lcd.(displayControl := lcd.displayControl | CursorOn)
    ensures DeliversTo(lcd, r.trace,
      [Command(DisplayControlOp(IsSet(lcd.displayControl, DisplayOn), true, IsSet(lcd.displayControl, BlinkOn)))])
  {
    UpdateControl(lcd, CursorOn, true)
  }

  function NoCursor(lcd: Lcd): (r: Step)
    requires Valid(lcd)
    ensures r.lcd == lcd.(displayControl := lcd.displayControl & !CursorOn)
    ensures DeliversTo(lcd, r.trace,
      [Command(DisplayControlOp(IsSet(lcd.displayControl, DisplayOn), false, IsSet(lcd.displayControl, BlinkOn)))])
  {
    UpdateControl(lcd, CursorOn, false)
  }

  function Blink(lcd: Lcd): (r: Step)
    requires Valid(lcd)
    ensures r.lcd == lcd.(displayControl := lcd.displayControl | BlinkOn)
    ensures DeliversTo(lcd, r.trace,
      [Command(DisplayControlOp(IsSet(lcd.displayControl, DisplayOn), IsSet(lcd.displayControl, CursorOn), true))])
  {
    UpdateControl(lcd, BlinkOn, true)
  }

  function NoBlink(lcd: Lcd): (r: Step)
    requires Valid(lcd)
    ensures r.lcd == lcd.(displayControl := lcd.displayControl & !BlinkOn)
    ensures DeliversTo(lcd, r.trace,
      [Command(DisplayControlOp(IsSet(lcd.displayControl, DisplayOn), IsSet(lcd.displayControl, CursorOn), false))])
  {
    UpdateControl(lcd, BlinkOn, false)
  }

  // leftToRight / rightToLeft / autoscroll / noAutoscroll

  function LeftToRight(lcd: Lcd): (r: Step)
    requires Valid(lcd)
    ensures r.lcd == lcd.(displayMode := lcd.displayMode | EntryLeft)
    ensures DeliversTo(lcd, r.trace, [Command(EntryModeSetOp(true, IsSet(lcd.displayMode, EntryShiftIncrement)))])
  {
    UpdateMode(lcd, EntryLeft, true)
  }

  function RightToLeft(lcd: Lcd): (r: Step)
    requires Valid(lcd)
    ensures r.lcd == lcd.(displayMode := lcd.displayMode & !EntryLeft)
    ensures DeliversTo(lcd, r.trace, [Command(EntryModeSetOp(false, IsSet(lcd.displayMode, EntryShiftIncrement)))])
  {
    UpdateMode(lcd, EntryLeft, false)
  }

  function Autoscroll(lcd: Lcd): (r: Step)
    requires Valid(lcd)
    ensures r.lcd == lcd.(displayMode := lcd.displayMode | EntryShiftIncrement)
    ensures DeliversTo(lcd, r.trace, [Command(EntryModeSetOp(IsSet(lcd.displayMode, EntryLeft), true))])
  {
    UpdateMode(lcd, EntryShiftIncrement, true)
  }

  function NoAutoscroll(lcd: Lcd): (r: Step)
    requires Valid(lcd)
    ensures r.lcd == lcd.(displayMode := lcd.displayMode & !EntryShiftIncrement)
    ensures DeliversTo(lcd, r.trace, [Command(EntryModeSetOp(IsSet(lcd.displayMode, EntryLeft), false))])
  {
    UpdateMode(lcd, EntryShiftIncrement, false)
  }

  // scrollDisplayLeft / scrollDisplayRight / moveCursorLeft / moveCursorRight:
  // fixed shift commands; the handle is not an output, so no mirror changes.

  function ScrollDisplayLeft(lcd: Lcd): (t: Trace)
    requires Valid(lcd)
    ensures DeliversTo(lcd, t, [Command(CursorShiftOp(true, false))])
  {
    SendCommand(lcd, CursorShift | DisplayMove | MoveLeft)
  }

  function ScrollDisplayRight(lcd: Lcd): (t: Trace)
    requires Valid(lcd)
    ensures DeliversTo(lcd, t, [Command(CursorShiftOp(true, true))])
  {
    SendCommand(lcd, CursorShift | DisplayMove | MoveRight)
  }

  function MoveCursorLeft(lcd: Lcd): (t: Trace)
    requires Valid(lcd)
    ensures DeliversTo(lcd, t, [Command(CursorShiftOp(false, false))])
  {
    SendCommand(lcd, CursorShift | CursorMove | MoveLeft)
  }

  function MoveCursorRight(lcd: Lcd): (t: Trace)
    requires Valid(lcd)
    ensures DeliversTo(lcd, t, [Command(CursorShiftOp(false, true))])
  {
    SendCommand(lcd, CursorShift | CursorMove | MoveRight)
  }
}
