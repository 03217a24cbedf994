/**
 The power-up handshake of begin(), and init()/oled_init() which set up a
 handle and run it. The sequence follows the HD44780U datasheet,
 "Initializing by Instruction", Figure 24 (4-bit interface): three
 upper-nibble "8-bit function set" writes bring the controller into a known
 state whatever its previous interface width, a fourth switches it to the
 4-bit interface, and from then on every instruction is a full byte sent as
 two nibbles. The waits between the steps are not modelled.
 */
module PowerUp {
  import opened Bus
  import opened Observe
  import opened Expander
  import opened Hd44780
  import opened LiquidCrystal
  import opened Mirror
  import opened Addressing

  /**
   The effects of begin(), in order: the expander reset nibble, three 8-bit
   function sets and one 4-bit function set as lone upper nibbles, then the
   byte-wide configuration.
   */
  function PowerUpSequence(functionSet: Instruction, oled: bool): seq<Effect> {
    HandshakeEffects() + ConfigureEffects(functionSet, oled)
  }

  /**
   The byte-wide part of begin(): the function set, display on (cursor and
   blink off), clear (and, on an OLED panel, DDRAM address 0), entry mode
   left-to-right without shift, and return home.
   */
  function ConfigureEffects(functionSet: Instruction, oled: bool): seq<Effect> {
    ([Command(functionSet)] + [Command(DisplayControlOp(true, false, false))])
      + (ClearEffects(oled) + [Command(EntryModeSetOp(true, false))] + [Command(ReturnHomeOp)])
  }

  /** The four nibble writes of Figure 24 that force the 4-bit interface, after the expander reset. */
  function HandshakeEffects(): seq<Effect> {
    [ Nibble(NoOp),
      Nibble(FunctionSetOp(true, false, false)),
      Nibble(FunctionSetOp(true, false, false)),
      Nibble(FunctionSetOp(true, false, false)),
      Nibble(FunctionSetOp(false, false, false)) ]
  }

  /** The effects of clear(). */
  function ClearEffects(oled: bool): seq<Effect> {
    [Command(ClearDisplayOp)] + (if oled then [Command(SetDdramAddrOp(0))] else [])
  }

  /** The function-set flags begin() adds: two lines for more than one row, the tall font only on one row. */
  function LineAndFontFlags(lcd: Lcd): (f: bv8)
    requires lcd.displayFunction & !FunctionFlags == 0
    ensures f & !FunctionFlags == 0
    ensures IsSet(f, TwoLine) <==> IsSet(lcd.displayFunction, TwoLine) || lcd.rows > 1
    ensures IsSet(f, FiveByTenDots) <==> IsSet(lcd.displayFunction, FiveByTenDots) || (lcd.dotsize != 0 && lcd.rows == 1)
    ensures IsSet(f, EightBitMode) == IsSet(lcd.displayFunction, EightBitMode)
  {
    var f1 := if lcd.rows > 1 then lcd.displayFunction | TwoLine else lcd.displayFunction;
    if lcd.dotsize != 0 && lcd.rows == 1 then f1 | FiveByTenDots else f1
  }

  /** The four upper-nibble writes that force the 4-bit interface. */
  function Handshake(lcd: Lcd): (t: Trace)
    requires Valid(lcd)
    ensures DeliversTo(lcd, t, HandshakeEffects())
  {
    var reset := CommandInit(lcd, 0x00 | lcd.backlightVal);
    var eight := CommandInit(lcd, FunctionSet | EightBitMode);
    var four := CommandInit(lcd, FunctionSet | FourBitMode);
    var bl := Backlit(lcd);
    assert Decode((0x00 | lcd.backlightVal) & DataBits) == NoOp;
    DeliversAppend(lcd.addr, bl, reset, eight, [Nibble(NoOp)], [Nibble(FunctionSetOp(true, false, false))]);
    DeliversAppend(lcd.addr, bl, reset + eight, eight,
      [Nibble(NoOp), Nibble(FunctionSetOp(true, false, false))], [Nibble(FunctionSetOp(true, false, false))]);
    DeliversAppend(lcd.addr, bl, reset + eight + eight, eight,
      [Nibble(NoOp), Nibble(FunctionSetOp(true, false, false)), Nibble(FunctionSetOp(true, false, false))],
      [Nibble(FunctionSetOp(true, false, false))]);
    DeliversAppend(lcd.addr, bl, reset + eight + eight + eight, four,
      [Nibble(NoOp), Nibble(FunctionSetOp(true, false, false)), Nibble(FunctionSetOp(true, false, false)),
       Nibble(FunctionSetOp(true, false, false))],
      [Nibble(FunctionSetOp(false, false, false))]);
    reset + eight + eight + eight + four
  }

  /** The function-set instruction the function mirror `f` stands for. */
  function FunctionOf(f: bv8): Instruction {
    FunctionSetOp(IsSet(f, EightBitMode), IsSet(f, TwoLine), IsSet(f, FiveByTenDots))
  }

  /**
   begin(): sets the line and font flags from the geometry, runs the 4-bit
   handshake, and leaves the display on, cleared, left-to-right and homed,
   with the mirrors equal to what was sent.
   */
  function Begin(lcd: Lcd): (r: Step)
    requires Valid(lcd)
    ensures Valid(r.lcd)
    ensures r.lcd == lcd.(displayFunction := r.lcd.displayFunction,
                          displayControl := r.lcd.displayControl,
                          displayMode := r.lcd.displayMode)
    ensures IsSet(r.lcd.displayFunction, TwoLine) <==> IsSet(lcd.displayFunction, TwoLine) || lcd.rows > 1
    ensures IsSet(r.lcd.displayFunction, FiveByTenDots)
        <==> IsSet(lcd.displayFunction, FiveByTenDots) || (lcd.dotsize != 0 && lcd.rows == 1)
    ensures IsSet(r.lcd.displayFunction, EightBitMode) == IsSet(lcd.displayFunction, EightBitMode)
    ensures ControlOf(r.lcd.displayControl) == DisplayControlOp(true, false, false)
    ensures ModeOf(r.lcd.displayMode) == EntryModeSetOp(true, false)
    ensures DeliversTo(lcd, r.trace, PowerUpSequence(FunctionOf(r.lcd.displayFunction), lcd.oled))
  {
    var withFunction := lcd.(displayFunction := LineAndFontFlags(lcd));
    var handshake := Handshake(withFunction);
    var configured := Configure(withFunction);
    DeliversAppend(lcd.addr, Backlit(lcd), handshake, configured.trace,
      HandshakeEffects(), ConfigureEffects(FunctionOf(withFunction.displayFunction), lcd.oled));
    Step(configured.lcd, handshake + configured.trace)
  }

  /**
   The byte-wide half of begin(), after the handshake: sends the function
   mirror, switches the display on with cursor and blink off, clears, sets
   left-to-right entry without shift and returns home.
   */
  function Configure(lcd: Lcd): (r: Step)
    requires Valid(lcd)
    ensures Valid(r.lcd)
    ensures r.lcd == lcd.(displayControl := DisplayOn, displayMode := EntryLeft)
    ensures ControlOf(r.lcd.displayControl) == DisplayControlOp(true, false, false)
    ensures ModeOf(r.lcd.displayMode) == EntryModeSetOp(true, false)
    ensures DeliversTo(lcd, r.trace, ConfigureEffects(FunctionOf(lcd.displayFunction), lcd.oled))
  {
    var on := FunctionAndDisplay(lcd);
    var ready := ClearEntryHome(on.lcd);
    DeliversAppend(lcd.addr, Backlit(lcd), on.trace, ready.trace,
      [Command(FunctionOf(lcd.displayFunction))] + [Command(DisplayControlOp(true, false, false))],
      ClearEffects(lcd.oled) + [Command(EntryModeSetOp(true, false))] + [Command(ReturnHomeOp)]);
    Step(ready.lcd, on.trace + ready.trace)
  }

  /** The function set, then display() on a control mirror of display on, cursor off, blink off. */
  function FunctionAndDisplay(lcd: Lcd): (r: Step)
    requires Valid(lcd)
    ensures r.lcd == lcd.(displayControl := DisplayOn)
    ensures DeliversTo(lcd, r.trace,
      [Command(FunctionOf(lcd.displayFunction))] + [Command(DisplayControlOp(true, false, false))])
  {
    var functionSet := SendCommand(lcd, FunctionSet | lcd.displayFunction);
    FunctionDecodes(lcd.displayFunction);
    var on := Display(lcd.(displayControl := DisplayOn | CursorOff | BlinkOff));
    DeliversAppend(lcd.addr, Backlit(lcd), functionSet, on.trace,
      [Command(Decode(FunctionSet | lcd.displayFunction))], [Command(DisplayControlOp(true, false, false))]);
    Step(on.lcd, functionSet + on.trace)
  }

  /** clear(), then the entry mode left-to-right without shift, then home(). */
  function ClearEntryHome(lcd: Lcd): (r: Step)
    requires Valid(lcd)
    ensures r.lcd == lcd.(displayMode := EntryLeft)
    ensures DeliversTo(lcd, r.trace,
      ClearEffects(lcd.oled) + [Command(EntryModeSetOp(true, false))] + [Command(ReturnHomeOp)])
  {
    var clear := Clear(lcd);
    var ready := lcd.(displayMode := EntryLeft | EntryShiftDecrement);
    var entry := SendCommand(ready, EntryModeSet | ready.displayMode);
    var home := Home(ready);
    assert Decode(EntryModeSet | EntryLeft) == EntryModeSetOp(true, false);
    DeliversAppend(lcd.addr, Backlit(lcd), clear, entry,
      ClearEffects(lcd.oled), [Command(EntryModeSetOp(true, false))]);
    DeliversAppend(lcd.addr, Backlit(lcd), clear + entry, home,
      ClearEffects(lcd.oled) + [Command(EntryModeSetOp(true, false))], [Command(ReturnHomeOp)]);
    Step(ready, clear + entry + home)
  }

  /** The controller reads the sent function-set register as exactly the mirrored flags. */
  lemma FunctionDecodes(f: bv8)
    requires f & !FunctionFlags == 0
    ensures Decode(FunctionSet | f) == FunctionOf(f)
  {
  }

  /**
   init(addr, cols, rows, dotsize): records the address and geometry, turns
   the backlight mirror off, starts from a 4-bit, one-line, 5x8 function set
   and runs begin(). The whole handshake runs with the backlight off.
   */
  function Init(lcd: Lcd, addr: bv8, cols: bv8, rows: bv8, dotsize: bv8): (r: Step)
    requires Valid(lcd)
    ensures Valid(r.lcd) && !Backlit(r.lcd)
    ensures r.lcd.addr == addr && r.lcd.cols == cols && r.lcd.rows == rows && r.lcd.dotsize == dotsize
    ensures r.lcd.oled == lcd.oled
    ensures FunctionOf(r.lcd.displayFunction) == FunctionSetOp(false, rows > 1, dotsize != 0 && rows == 1)
    ensures ControlOf(r.lcd.displayControl) == DisplayControlOp(true, false, false)
    ensures ModeOf(r.lcd.displayMode) == EntryModeSetOp(true, false)
    ensures DeliversTo(r.lcd, r.trace, PowerUpSequence(
      FunctionSetOp(false, rows > 1, dotsize != 0 && rows == 1), lcd.oled))
  {
    var start := lcd.(addr := addr, cols := cols, rows := rows, dotsize := dotsize,
                      backlightVal := BacklightOff,
                      displayFunction := FourBitMode | OneLine | FiveByEightDots);
    var r := Begin(start);
    assert FunctionOf(r.lcd.displayFunction) == FunctionSetOp(false, rows > 1, dotsize != 0 && rows == 1) by {
      assert start.displayFunction == 0;
    }
    assert r.lcd.addr == start.addr && Backlit(r.lcd) == Backlit(start);
    r
  }

  /** oled_init: as init, on a handle marked as an OLED panel (which adds the explicit home after clear). */
  function OledInit(lcd: Lcd, addr: bv8, cols: bv8, rows: bv8, dotsize: bv8): (r: Step)
    requires Valid(lcd)
    ensures Valid(r.lcd) && !Backlit(r.lcd) && r.lcd.oled
    ensures r.lcd.addr == addr && r.lcd.cols == cols && r.lcd.rows == rows && r.lcd.dotsize == dotsize
    ensures FunctionOf(r.lcd.displayFunction) == FunctionSetOp(false, rows > 1, dotsize != 0 && rows == 1)
    ensures ControlOf(r.lcd.displayControl) == DisplayControlOp(true, false, false)
    ensures ModeOf(r.lcd.displayMode) == EntryModeSetOp(true, false)
    ensures DeliversTo(r.lcd, r.trace, PowerUpSequence(
      FunctionSetOp(false, rows > 1, dotsize != 0 && rows == 1), true))
  {
    Init(lcd.(oled := true), addr, cols, rows, dotsize)
  }
}
