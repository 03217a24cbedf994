/**
 The driver's handle (the LiquidCrystal_I2C object) and its low-level
 transmission path: send, command, write, commandInit and the backlight
 switches. Every operation is a pure function from a handle to the bus
 trace it produces (and, for mutators, the updated handle).

 `Valid` is the handle's invariant: the backlight mirror holds one of its
 two levels and each mirror register holds only its own flag bits. The
 zero-initialised handle satisfies it and every operation keeps it.
 */
module LiquidCrystal {
  import opened Wrappers
  import opened Bus
  import opened Frame
  import opened Expander
  import opened Observe
  import opened Hd44780

  /**
   The handle's fields: bus address and geometry as given to init, the
   `_oled` variant flag, the backlight level, and the three host-side mirrors
   of the controller's write-only registers (function set, display control,
   entry mode). All of them are uint8_t in the driver.
   */
  datatype Lcd = Lcd(
    addr: bv8,
    cols: bv8,
    rows: bv8,
    dotsize: bv8,
    oled: bool,
    backlightVal: bv8,
    displayFunction: bv8,
    displayControl: bv8,
    displayMode: bv8)

  /** The handle after an operation and the bus events the operation produced. */
  datatype Step = Step(lcd: Lcd, trace: Trace)

  const FunctionFlags: bv8 := EightBitMode | TwoLine | FiveByTenDots
  const ControlFlags: bv8 := DisplayOn | CursorOn | BlinkOn
  const ModeFlags: bv8 := EntryLeft | EntryShiftIncrement

  predicate Valid(lcd: Lcd) {
    && (lcd.backlightVal == BacklightOn || lcd.backlightVal == BacklightOff)
    && lcd.displayFunction & !FunctionFlags == 0
    && lcd.displayControl & !ControlFlags == 0
    && lcd.displayMode & !ModeFlags == 0
  }

  /** A handle before any call: static storage is zero-initialised. */
  const Zeroed: Lcd := Lcd(0, 0, 0, 0, false, 0, 0, 0, 0)

  /** The zero-initialised handle meets the invariant every operation requires. */
  lemma ZeroedValid()
    ensures Valid(Zeroed)
  {
  }

  function Backlit(lcd: Lcd): bool {
    lcd.backlightVal == BacklightOn
  }

  /** `t` hands the display at `lcd`'s address the effects `es`, each with `lcd`'s backlight level. */
  predicate DeliversTo(lcd: Lcd, t: Trace, es: seq<Effect>) {
    Delivers(lcd.addr, Backlit(lcd), t, es)
  }

  /** pulseEnable: the two bus writes of Frame.Pulse. */
  function PulseEnable(d: bv8): Trace {
    Writes(Pulse(d))
  }

  /** send: one transaction carrying the upper then the lower nibble of `value`, each pulsed. */
  function Send(lcd: Lcd, value: bv8, mode: bv8): (t: Trace)
    requires Valid(lcd)
    ensures Parse(t) == Some([Txn(lcd.addr, ByteFrames(value, mode, lcd.backlightVal), true)])
    ensures mode == 0 || mode == Rs ==>
      View(t) == Some([Transfer(lcd.addr, Full([Item(value, mode == Rs, Backlit(lcd))]), true)])
  {
    SendIsOneTxn(lcd, value, mode);
    [Begin(lcd.addr)]
      + PulseEnable(UpperFrame(value, mode, lcd.backlightVal))
      + PulseEnable(LowerFrame(value, mode, lcd.backlightVal))
      + [End(true)]
  }

  lemma SendIsOneTxn(lcd: Lcd, value: bv8, mode: bv8)
    requires Valid(lcd)
    ensures var t := [Begin(lcd.addr)]
                    + PulseEnable(UpperFrame(value, mode, lcd.backlightVal))
                    + PulseEnable(LowerFrame(value, mode, lcd.backlightVal))
                    + [End(true)];
      && Parse(t) == Some([Txn(lcd.addr, ByteFrames(value, mode, lcd.backlightVal), true)])
      && (mode == 0 || mode == Rs ==>
           View(t) == Some([Transfer(lcd.addr, Full([Item(value, mode == Rs, Backlit(lcd))]), true)]))
  {
    var bl := lcd.backlightVal;
    var bytes := ByteFrames(value, mode, bl);
    var txn := Txn(lcd.addr, bytes, true);
    WritesAppend(Pulse(UpperFrame(value, mode, bl)), Pulse(LowerFrame(value, mode, bl)));
    assert Serialize([txn]) == [Begin(lcd.addr)] + PulseEnable(UpperFrame(value, mode, bl))
                                 + PulseEnable(LowerFrame(value, mode, bl)) + [End(true)];
    ParseSerialize([txn]);
    if mode == 0 || mode == Rs {
      var it := Item(value, mode == Rs, Backlit(lcd));
      assert ModeBit(it.data) == mode && LevelOf(it.backlit) == bl;
      assert EncodeItems([it]) == bytes;
      assert Emit(Transfer(lcd.addr, Full([it]), true)) == Serialize([txn]);
      ViewEmit(Transfer(lcd.addr, Full([it]), true));
    }
  }

  /** command: `value` goes to the instruction register (RS low). */
  function SendCommand(lcd: Lcd, value: bv8): (t: Trace)
    requires Valid(lcd)
    ensures View(t) == Some([Transfer(lcd.addr, Full([Item(value, false, Backlit(lcd))]), true)])
    ensures DeliversTo(lcd, t, [Command(Decode(value))])
  {
    Send(lcd, value, 0)
  }

  /** write: `value` goes to the data register (RS high); the driver reports one byte written. */
  function WriteChar(lcd: Lcd, value: bv8): (r: (Trace, nat))
    requires Valid(lcd)
    ensures View(r.0) == Some([Transfer(lcd.addr, Full([Item(value, true, Backlit(lcd))]), true)])
    ensures DeliversTo(lcd, r.0, [Data(value)])
    ensures r.1 == 1
  {
    (Send(lcd, value, Rs), 1)
  }

  /** commandInit: only the upper nibble of `value`, in one pulse, in its own transaction. */
  function CommandInit(lcd: Lcd, value: bv8): (t: Trace)
    requires Valid(lcd)
    ensures Parse(t) == Some([Txn(lcd.addr, Pulse((value & DataBits) | lcd.backlightVal), true)])
    ensures View(t) == Some([Transfer(lcd.addr, Half(value & DataBits, false, Backlit(lcd)), true)])
    ensures DeliversTo(lcd, t, [Nibble(Decode(value & DataBits))])
  {
    var x := Transfer(lcd.addr, Half(value & DataBits, false, Backlit(lcd)), true);
    assert Emit(x) == [Begin(lcd.addr)] + PulseEnable((value & DataBits) | lcd.backlightVal) + [End(true)];
    ParseSerialize([Txn(lcd.addr, Pulse((value & DataBits) | lcd.backlightVal), true)]);
    ViewEmit(x);
    [Begin(lcd.addr)] + PulseEnable((value & DataBits) | lcd.backlightVal) + [End(true)]
  }

  /** The bare one-byte transaction that sets the backlight driver to `level`. */
  function SetLevel(lcd: Lcd, level: bv8): (r: Step)
    requires Valid(lcd)
    requires level == BacklightOn || level == BacklightOff
    ensures Valid(r.lcd)
    ensures r.lcd == lcd.(backlightVal := level)
    ensures DeliversTo(r.lcd, r.trace, [Light(level == BacklightOn)])
  {
    BareByteView(lcd.addr, 0x00 | level);
    Step(lcd.(backlightVal := level), [Begin(lcd.addr), Write(0x00 | level), End(true)])
  }

  lemma BareByteView(addr: bv8, b: bv8)
    ensures View([Begin(addr), Write(b), End(true)]) == Some([Transfer(addr, Bare(b), true)])
  {
    var x := Transfer(addr, Bare(b), true);
    SerializeOne(Txn(addr, [b], true));
    assert Writes([b]) == [Write(b)];
    ViewEmit(x);
  }

  /** noBacklight: the backlight mirror is cleared and the expander's backlight line switched off. */
  function NoBacklight(lcd: Lcd): (r: Step)
    requires Valid(lcd)
    ensures Valid(r.lcd) && !Backlit(r.lcd) && r.lcd.backlightVal == BacklightOff
    ensures r.lcd == lcd.(backlightVal := r.lcd.backlightVal)
    ensures DeliversTo(r.lcd, r.trace, [Light(false)])
  {
    SetLevel(lcd, BacklightOff)
  }

  /** backlight: the backlight mirror is set and the expander's backlight line switched on. */
  function Backlight(lcd: Lcd): (r: Step)
    requires Valid(lcd)
    ensures Valid(r.lcd) && Backlit(r.lcd) && r.lcd.backlightVal == BacklightOn
    ensures r.lcd == lcd.(backlightVal := r.lcd.backlightVal)
    ensures DeliversTo(r.lcd, r.trace, [Light(true)])
  {
    SetLevel(lcd, BacklightOn)
  }

  /** setBacklight: any non-zero argument turns the backlight on, zero turns it off. */
  function SetBacklight(lcd: Lcd, newVal: bv8): (r: Step)
    requires Valid(lcd)
    ensures Valid(r.lcd)
    ensures Backlit(r.lcd) <==> newVal != 0
    ensures r.lcd == lcd.(backlightVal := r.lcd.backlightVal)
    ensures DeliversTo(r.lcd, r.trace, [Light(newVal != 0)])
  {
    if newVal != 0 then Backlight(lcd) else NoBacklight(lcd)
  }

  /** After a backlight change, every later byte transfer carries the new level. */
  lemma {:induction false} BacklightCarriesForward(lcd: Lcd, newVal: bv8, value: bv8, data: bool)
    requires Valid(lcd)
    ensures var after := SetBacklight(lcd, newVal).lcd;
      View(Send(after, value, ModeBit(data))).value[0].packet.items[0].backlit == (newVal != 0)
  {
    var after := SetBacklight(lcd, newVal).lcd;
    assert ModeBit(data) == 0 || ModeBit(data) == Rs;
    assert ModeBit(data) == Rs <==> data;
  }

  /**
   Switching the backlight off and then sending a command: the bare
   backlight byte and both nibble frames of the command all have the
   backlight bit clear.
   */
  lemma {:induction false} BacklightOffThenCommand(lcd: Lcd, value: bv8)
    requires Valid(lcd)
    ensures var r := SetBacklight(lcd, 0);
      && DeliversTo(r.lcd, r.trace + SendCommand(r.lcd, value), [Light(false), Command(Decode(value))])
      && !Backlit(r.lcd)
  {
    var r := SetBacklight(lcd, 0);
    DeliversAppend(r.lcd.addr, false, r.trace, SendCommand(r.lcd, value), [Light(false)], [Command(Decode(value))]);
  }
}
