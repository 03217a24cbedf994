/**
 Cursor addressing and custom characters: clear, home, setCursor (DDRAM
 addresses through the row-offset table) and both createChar overloads
 (CGRAM addresses of the eight pattern slots).

 All arithmetic is on bv8 because the driver's sum `col + row_offsets[row]`
 is truncated to uint8_t when it is passed to command().
 */
module Addressing {
  import opened Wrappers
  import opened Bus
  import opened Observe
  import opened Hd44780
  import opened LiquidCrystal

  /** The DDRAM address where each row starts: { 0x00, 0x40, _cols, 0x40 + _cols }. */
  function RowOffset(cols: bv8, row: bv8): bv8
    requires row < 4
  {
    if row == 0 then 0x00 else if row == 1 then 0x40 else if row == 2 then cols else 0x40 + cols
  }

  /** setCursor's clamp as written: only a row strictly beyond `_rows` is moved to `_rows - 1` (uint8_t arithmetic). */
  function EffectiveRow(row: bv8, rows: bv8): bv8 {
    if row > rows then rows - 1 else row
  }

  /**
   The clamp as written: for a display with at least one row, the row used
   never exceeds `rows`; it equals `rows` exactly when the caller asked for
   row `rows`, which slips through; every other row beyond the display goes
   to the last row.
   */
  lemma ClampAsWritten(row: bv8, rows: bv8)
    requires rows >= 1
    ensures EffectiveRow(row, rows) <= rows
    ensures EffectiveRow(row, rows) == rows <==> row == rows
    ensures row > rows ==> EffectiveRow(row, rows) == rows - 1
    ensures row < rows ==> EffectiveRow(row, rows) == row
  {
  }

  /** setCursor(col, row): one command setting the DDRAM address to the row's start plus the column (never clamped). */
  function SetCursor(lcd: Lcd, col: bv8, row: bv8): (t: Trace)
    requires Valid(lcd)
    requires EffectiveRow(row, lcd.rows) < 4
    ensures DeliversTo(lcd, t,
      [Command(SetDdramAddrOp((col + RowOffset(lcd.cols, EffectiveRow(row, lcd.rows))) & 0x7F))])
  {
    var r := EffectiveRow(row, lcd.rows);
    SendCommand(lcd, SetDdramAddr | (col + RowOffset(lcd.cols, r)))
  }

  /**
   For a display of at most four rows and at most 32 columns, the row table
   gives every on-screen position its own DDRAM address: two different
   positions are never sent to the same address.
   */
  lemma AddressesDistinct(cols: bv8, c1: bv8, r1: bv8, c2: bv8, r2: bv8)
    requires 1 <= cols <= 32
    requires c1 < cols && c2 < cols && r1 < 4 && r2 < 4
    requires c1 != c2 || r1 != r2
    ensures (c1 + RowOffset(cols, r1)) as int < 0x80
    ensures (c1 + RowOffset(cols, r1)) as int != (c2 + RowOffset(cols, r2)) as int
  {
  }

  /**
   The clamp the driver's comment ("we count rows starting w/0") intends:
   any row at or past `rows` goes to the last row.
   */
  function ClampedRow(row: bv8, rows: bv8): (r: bv8)
    requires rows >= 1
    ensures r < rows
    ensures row < rows ==> r == row
    ensures row >= rows ==> r == rows - 1
  {
    if row >= rows then rows - 1 else row
  }

  /** setCursor with the intended clamp: callable with any row on any display of one to four rows. */
  function SetCursorClamped(lcd: Lcd, col: bv8, row: bv8): (t: Trace)
    requires Valid(lcd)
    requires 1 <= lcd.rows <= 4
    ensures DeliversTo(lcd, t,
      [Command(SetDdramAddrOp((col + RowOffset(lcd.cols, ClampedRow(row, lcd.rows))) & 0x7F))])
  {
    SendCommand(lcd, SetDdramAddr | (col + RowOffset(lcd.cols, ClampedRow(row, lcd.rows))))
  }

  /** On rows that exist both clamps agree, so the correction changes nothing for in-range calls. */
  lemma ClampsAgreeOnScreen(lcd: Lcd, col: bv8, row: bv8)
    requires Valid(lcd)
    requires 1 <= lcd.rows <= 4 && row < lcd.rows
    ensures EffectiveRow(row, lcd.rows) < 4
    ensures SetCursorClamped(lcd, col, row) == SetCursor(lcd, col, row)
  {
  }

  /**
   The as-written clamp lets row == rows through. On a four-row display,
   setCursor(0, 4) indexes row_offsets[4], one past the table; on a two-row
   display, setCursor(0, 2) lands at DDRAM address `cols`, past the end of
   the first line instead of on the second row.
   */
  lemma {:induction false} ClampOverrun(cols: bv8)
    ensures EffectiveRow(4, 4) == 4
    ensures EffectiveRow(2, 2) == 2 && RowOffset(cols, EffectiveRow(2, 2)) == cols
    ensures ClampedRow(4, 4) == 3 && ClampedRow(2, 2) == 1
  {
  }

  /** clear: the clear-display command, then on an OLED panel an explicit move to DDRAM address 0. */
  function Clear(lcd: Lcd): (t: Trace)
    requires Valid(lcd)
    ensures DeliversTo(lcd, t,
      [Command(ClearDisplayOp)] + (if lcd.oled then [Command(SetDdramAddrOp(0))] else []))
  {
    var clear := SendCommand(lcd, ClearDisplay);
    if lcd.oled then
      var home := SetCursor(lcd, 0, 0);
      DeliversAppend(lcd.addr, Backlit(lcd), clear, home, [Command(ClearDisplayOp)], [Command(SetDdramAddrOp(0))]);
      clear + home
    else
      clear
  }

  /** home: the return-home command. */
  function Home(lcd: Lcd): (t: Trace)
    requires Valid(lcd)
    ensures DeliversTo(lcd, t, [Command(ReturnHomeOp)])
  {
    SendCommand(lcd, ReturnHome)
  }

  /** The data effects of writing `bytes` one by one. */
  function DataOf(bytes: seq<bv8>): (es: seq<Effect>)
    ensures |es| == |bytes|
    ensures forall i :: 0 <= i < |bytes| ==> es[i] == Data(bytes[i])
  {
    seq(|bytes|, i requires 0 <= i < |bytes| => Data(bytes[i]))
  }

  /** Successive write() calls, one transaction per byte. */
  function WriteAll(lcd: Lcd, bytes: seq<bv8>): (t: Trace)
    requires Valid(lcd)
    ensures DeliversTo(lcd, t, DataOf(bytes))
    decreases |bytes|
  {
    if |bytes| == 0 then
      assert View([]) == Some([]) by { assert Parse([]) == Some([]); }
      []
    else
      var front := WriteAll(lcd, bytes[..|bytes| - 1]);
      var last := WriteChar(lcd, bytes[|bytes| - 1]).0;
      DeliversAppend(lcd.addr, Backlit(lcd), front, last, DataOf(bytes[..|bytes| - 1]), [Data(bytes[|bytes| - 1])]);
      assert DataOf(bytes[..|bytes| - 1]) + [Data(bytes[|bytes| - 1])] == DataOf(bytes);
      front + last
  }

  /** The CGRAM address of pattern slot `location`, which is masked to 0..7. */
  function SlotAddress(location: bv8): bv8 {
    (location & 0x7) << 3
  }

  /**
   createChar(location, charmap): sets the CGRAM address of slot
   `location & 7`, then writes the eight pattern rows in order.
   */
  function CreateChar(lcd: Lcd, location: bv8, charmap: seq<bv8>): (t: Trace)
    requires Valid(lcd)
    requires |charmap| >= 8
    ensures DeliversTo(lcd, t, [Command(SetCgramAddrOp(8 * (location & 0x7)))] + DataOf(charmap[..8]))
  {
    var select := SendCommand(lcd, SetCgramAddr | SlotAddress(location));
    var rows := WriteAll(lcd, charmap[..8]);
    DeliversAppend(lcd.addr, Backlit(lcd), select, rows,
      [Command(Decode(SetCgramAddr | SlotAddress(location)))], DataOf(charmap[..8]));
    select + rows
  }

  /**
   The overload reading the pattern from program memory, byte by byte with
   a moving pointer; program memory is modelled as a plain byte sequence.
   It produces exactly the trace of the other overload.
   */
  method CreateCharFromProgram(lcd: Lcd, location: bv8, table: seq<bv8>) returns (t: Trace)
    requires Valid(lcd)
    requires |table| >= 8
    ensures t == CreateChar(lcd, location, table)
  {
    var select := SendCommand(lcd, SetCgramAddr | SlotAddress(location));
    var rows: Trace := [];
    WriteAllPrefix(lcd, table, 0);
    var i := 0;
    while i < 8
      invariant 0 <= i <= 8
      invariant rows == WriteAll(lcd, table[..i])
    {
      WriteAllPrefix(lcd, table, i + 1);
      rows := rows + WriteChar(lcd, table[i]).0;
      i := i + 1;
    }
    t := select + rows;
    CreateCharIs(lcd, location, table);
  }

  lemma WriteAllPrefix(lcd: Lcd, bytes: seq<bv8>, n: nat)
    requires Valid(lcd) && n <= |bytes|
    ensures n == 0 ==> WriteAll(lcd, bytes[..n]) == []
    ensures n > 0 ==> WriteAll(lcd, bytes[..n]) == WriteAll(lcd, bytes[..n - 1]) + WriteChar(lcd, bytes[n - 1]).0
  {
    if n > 0 {
      assert bytes[..n][..n - 1] == bytes[..n - 1];
    }
  }

  lemma CreateCharIs(lcd: Lcd, location: bv8, charmap: seq<bv8>)
    requires Valid(lcd) && |charmap| >= 8
    ensures CreateChar(lcd, location, charmap)
         == SendCommand(lcd, SetCgramAddr | SlotAddress(location)) + WriteAll(lcd, charmap[..8])
  {
  }
}
