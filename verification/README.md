# LiquidCrystal_I2C in Dafny

A model of the LiquidCrystal_I2C driver. The driver controls an HD44780-compatible character LCD behind a PCF8574-style I²C port expander. The controller runs in its 4-bit interface. Every byte goes over the bus as two nibbles, and each nibble is latched by an enable pulse. The register-select bit and the backlight bit sit in the same expander byte as the nibble.

Every driver operation is modelled as a pure function, or a method with a loop. Each takes a handle (`LiquidCrystal.Lcd`: address, geometry, OLED flag, backlight level, and the three host-side mirror registers) and returns the bus trace it produces. Mutators also return the updated handle. A trace is a sequence of events:
- `Begin(addr)` is `beginTransmission`.
- `Write(b)` is `write`.
- `End(stop)` is `endTransmission`, where `stop == false` keeps the bus for a repeated start.

The model gives these traces a meaning, layer by layer:

- `Bus` parses a trace into transactions. `Parse` and `Serialize` are inverse to each other.
- `Frame` covers the byte framing:
  - `Pulse` is pulseEnable. `ByteFrames` gives the four bytes of send. `Half` is the single pulse of commandInit.
  - Exact decoders invert the encoders and accept only what the encoders produce.
- `Observe` defines `View` of a trace: the transfers the controller receives. `Delivers(addr, backlit, t, es)` says that `t` hands the controller exactly the effects `es`, in order. An effect is a command, a data byte, an init nibble or a backlight switch. Each effect comes in its own stop-terminated transaction with the given backlight level.
- `Hd44780` reads command bytes the way the controller does (`Decode`: the highest set bit selects the instruction). The driver's commands can therefore be stated as the instructions the controller receives, not as the bytes the driver computes.

The operations are grouped as in the driver:
- `LiquidCrystal`: send, command, write, commandInit and the backlight calls.
- `Mirror`: the display-control and entry-mode mutators, and the shift commands.
- `Addressing`: clear, home, setCursor and both createChar overloads.
- `PowerUp`: begin, init and oled_init.
- `StringWriter`: writeString's batching of characters into transactions that fit the adapter's transmit buffer.

The header LiquidCrystal_I2C.h is not part of this model. Its constants take the conventional values of this library family and are assumed:
- Expander bits: `Rs = 0x01`, `Rw = 0x02`, `En = 0x04`, `LCD_BACKLIGHT = 0x08`, `LCD_NOBACKLIGHT = 0x00`.
- `BUFFER_LENGTH = 32`.
- The standard `LCD_*` command and flag values.

All `uint8_t` quantities are `bv8`, so the driver's truncations to 8 bits are explicit wrap-around.

Three behaviours of the driver that the model keeps exactly as written:
- writeString returns `countChar - 1`, which is `length - 1` (LiquidCrystal_I2C.cpp:143).
- writeString always opens `length / 8 + 1` transactions. The last one ends with a stop and is empty when 8 divides `length` (LiquidCrystal_I2C.cpp:131-142).
- oled_init differs from init only in setting `_oled`, which only clear reads (LiquidCrystal_I2C.cpp:149).

## Model

| member | source | states |
|---|---|---|
| Frame.Pulse | LiquidCrystal_I2C.cpp:296-303 | exactly two writes: the first has E set, the second has E clear, and both agree with `_data` on every other bit |
| Frame.ByteFrames | LiquidCrystal_I2C.cpp:289-294 | four bytes forming two enable pulses. The data lines carry `value & 0xF0`, then `(value << 4) & 0xF0`. The low bits are the mode and backlight bits (with E toggled). `value` is recovered from bytes 0 and 2 |
| Frame.ItemRoundTrip | LiquidCrystal_I2C.cpp:289-294 | decoding the four frames of send gives back the byte, whether it went to the data register, and the backlight level |
| Frame.ItemFramesExact | LiquidCrystal_I2C.cpp:289-294 | any four bytes the decoder accepts are exactly the frames send would produce for the decoded byte |
| Frame.ItemsRoundTrip | LiquidCrystal_I2C.cpp:131-135 | a run of characters framed back to back, as writeString packs them, decodes to the same characters in order |
| Frame.PacketRoundTrip | LiquidCrystal_I2C.cpp:282-294 | a single raw byte, a lone upper-nibble pulse (commandInit) and whole framed bytes (send) each decode back to what was encoded |
| Frame.PacketFramesExact | LiquidCrystal_I2C.cpp:282-294 | whatever a transaction decodes to, re-encoding it gives back exactly the transaction's bytes |
| Bus.ParseSerialize | LiquidCrystal_I2C.cpp:290-293 | a list of begin/write/end transactions, written out as events, parses back to the same transactions |
| Bus.SerializeParse | LiquidCrystal_I2C.cpp:290-293 | a trace that parses is exactly the events of its transactions, so statements about transactions are statements about the trace |
| LiquidCrystal.ZeroedValid | LiquidCrystal_I2C.cpp:25 | the handle as the empty constructor leaves it (static storage, all zero) meets the invariant every operation requires |
| LiquidCrystal.Send | LiquidCrystal_I2C.cpp:289-294 | one stop-terminated transaction to `_Addr` holding the four frames of `value`. For a command or data mode, the controller receives exactly that byte in that register, with the current backlight level |
| LiquidCrystal.SendCommand | LiquidCrystal_I2C.cpp:275-277 | command hands the controller the instruction `value` decodes to, in the instruction register (RS low) |
| LiquidCrystal.WriteChar | LiquidCrystal_I2C.cpp:116-119 | write hands the controller `value` as one data byte (RS high) and reports 1 |
| LiquidCrystal.CommandInit | LiquidCrystal_I2C.cpp:282-286 | only the upper nibble of `value` is sent, in one enable pulse in its own transaction, with RS low and the current backlight level |
| LiquidCrystal.SetLevel | LiquidCrystal_I2C.cpp:259-271 | the backlight mirror takes the new level, nothing else in the handle changes, and one transaction carries the bare level byte |
| LiquidCrystal.NoBacklight | LiquidCrystal_I2C.cpp:259-264 | the mirror becomes LCD_NOBACKLIGHT, the handle is otherwise unchanged, and the backlight-off byte is sent on its own |
| LiquidCrystal.Backlight | LiquidCrystal_I2C.cpp:266-271 | the mirror becomes LCD_BACKLIGHT, the handle is otherwise unchanged, and the backlight-on byte is sent on its own |
| LiquidCrystal.SetBacklight | LiquidCrystal_I2C.cpp:327-333 | the backlight ends up on if and only if the argument is non-zero, and the matching switch is sent |
| LiquidCrystal.BacklightCarriesForward | LiquidCrystal_I2C.cpp:291-292 | after setBacklight, every byte sent by send carries the new backlight level |
| LiquidCrystal.BacklightOffThenCommand | LiquidCrystal_I2C.cpp:259-264 | noBacklight followed by a command: the command reaches the controller with the backlight bit clear |
| Mirror.UpdateControl | LiquidCrystal_I2C.cpp:166-193 | a display-control mutator sets or clears exactly its flag, keeps every other bit and field, and re-sends the whole register. The controller reads it as exactly the mirrored flags |
| Mirror.UpdateMode | LiquidCrystal_I2C.cpp:204-237 | an entry-mode mutator sets or clears exactly its flag, keeps every other bit and field, and re-sends the whole register. The controller reads it as exactly the mirrored flags |
| Mirror.ControlIdempotent | LiquidCrystal_I2C.cpp:166-193 | applying a display-control mutator twice leaves the mirror as once and sends the identical command again |
| Mirror.ModeIdempotent | LiquidCrystal_I2C.cpp:204-237 | applying an entry-mode mutator twice leaves the mirror as once and sends the identical command again |
| Mirror.Display | LiquidCrystal_I2C.cpp:170-173 | only the display bit is set; the controller receives display on with cursor and blink as mirrored |
| Mirror.NoDisplay | LiquidCrystal_I2C.cpp:166-169 | only the display bit is cleared; the controller receives display off with cursor and blink as mirrored |
| Mirror.Cursor | LiquidCrystal_I2C.cpp:180-183 | only the cursor bit is set; the controller receives cursor on with display and blink as mirrored |
| Mirror.NoCursor | LiquidCrystal_I2C.cpp:176-179 | only the cursor bit is cleared; the controller receives cursor off with display and blink as mirrored |
| Mirror.Blink | LiquidCrystal_I2C.cpp:190-193 | only the blink bit is set; the controller receives blink on with display and cursor as mirrored |
| Mirror.NoBlink | LiquidCrystal_I2C.cpp:186-189 | only the blink bit is cleared; the controller receives blink off with display and cursor as mirrored |
| Mirror.LeftToRight | LiquidCrystal_I2C.cpp:204-207 | only the entry-left bit is set; the controller receives increment with the shift flag as mirrored |
| Mirror.RightToLeft | LiquidCrystal_I2C.cpp:210-213 | only the entry-left bit is cleared; the controller receives decrement with the shift flag as mirrored |
| Mirror.Autoscroll | LiquidCrystal_I2C.cpp:228-231 | only the shift bit is set; the controller receives shift on with the direction as mirrored |
| Mirror.NoAutoscroll | LiquidCrystal_I2C.cpp:234-237 | only the shift bit is cleared; the controller receives shift off with the direction as mirrored |
| Mirror.ScrollDisplayLeft | LiquidCrystal_I2C.cpp:196-198 | the controller receives a display shift to the left; no mirror is involved |
| Mirror.ScrollDisplayRight | LiquidCrystal_I2C.cpp:199-201 | the controller receives a display shift to the right; no mirror is involved |
| Mirror.MoveCursorLeft | LiquidCrystal_I2C.cpp:222-225 | the controller receives a cursor move to the left; no mirror is involved |
| Mirror.MoveCursorRight | LiquidCrystal_I2C.cpp:216-219 | the controller receives a cursor move to the right; no mirror is involved |
| Addressing.ClampAsWritten | LiquidCrystal_I2C.cpp:159-161 | for a display with at least one row, the row used never exceeds `_rows`. It equals `_rows` exactly when the caller asked for row `_rows`. Any larger row becomes `_rows - 1`, and a smaller row is kept |
| Addressing.SetCursor | LiquidCrystal_I2C.cpp:157-163 | one command setting the DDRAM address to the row table entry of the (as-written) clamped row plus the unclamped column, truncated to 8 bits |
| Addressing.AddressesDistinct | LiquidCrystal_I2C.cpp:158 | on up to four rows of up to 32 columns, the row table gives distinct on-screen positions distinct DDRAM addresses below 0x80 |
| Addressing.ClampedRow | LiquidCrystal_I2C.cpp:159-161 | the intended clamp: the row used is always on the display, rows on the display are kept, and every other row goes to the last one |
| Addressing.SetCursorClamped | LiquidCrystal_I2C.cpp:157-163 | setCursor with the intended clamp. It can be called with any row on displays of one to four rows and never indexes past the table |
| Addressing.ClampsAgreeOnScreen | LiquidCrystal_I2C.cpp:157-163 | for rows on the display, the corrected setCursor sends exactly the same trace as the driver's |
| Addressing.ClampOverrun | LiquidCrystal_I2C.cpp:158-162 | with 4 rows, row 4 passes the clamp and would index the fifth table entry. With 2 rows, row 2 passes and lands at address `_cols`. The intended clamp gives rows 3 and 1 |
| Addressing.Clear | LiquidCrystal_I2C.cpp:146-150 | the clear-display instruction, followed, only on an OLED handle, by setting DDRAM address 0 |
| Addressing.Home | LiquidCrystal_I2C.cpp:152-155 | the controller receives return-home |
| Addressing.WriteAll | LiquidCrystal_I2C.cpp:244-246 | successive write calls hand the controller each byte as data, in order, one transaction each |
| Addressing.CreateChar | LiquidCrystal_I2C.cpp:241-247 | the CGRAM address of slot `location & 7` (eight bytes per slot), then the first eight pattern bytes as data, in order |
| Addressing.CreateCharFromProgram | LiquidCrystal_I2C.cpp:250-256 | reading the pattern byte by byte from program memory produces exactly the trace of the other overload |
| PowerUp.LineAndFontFlags | LiquidCrystal_I2C.cpp:57-64 | the two-line flag is added if and only if there is more than one row. The 5x10 font flag is added if and only if dotsize is non-zero on a one-row display. The 8-bit flag is unchanged |
| PowerUp.Handshake | LiquidCrystal_I2C.cpp:73-92 | the expander reset nibble, three 8-bit function sets and one 4-bit function set, each as a lone upper nibble in its own transaction |
| PowerUp.FunctionAndDisplay | LiquidCrystal_I2C.cpp:95-99 | the function set carrying exactly the mirrored line and font flags, then display on with cursor and blink off. The control mirror holds what was sent |
| PowerUp.ClearEntryHome | LiquidCrystal_I2C.cpp:101-110 | clear (with the OLED move to address 0), left-to-right entry without shift, then return-home. The mode mirror holds what was sent |
| PowerUp.Configure | LiquidCrystal_I2C.cpp:94-110 | the byte-wide half of begin, in order, leaving display on, cursor and blink off and left-to-right entry in the mirrors |
| PowerUp.Begin | LiquidCrystal_I2C.cpp:55-111 | the whole Figure 24 power-up sequence with the line and font flags set from the geometry. The mirrors equal the values sent, and nothing else in the handle changes |
| PowerUp.FunctionDecodes | LiquidCrystal_I2C.cpp:95 | the controller reads the function-set command built from `_displayfunction` as exactly the mirrored mode, line and font flags |
| PowerUp.Init | LiquidCrystal_I2C.cpp:38-53 | records address and geometry, and keeps the backlight off throughout. Starting from a 4-bit, one-line, 5x8 function, the controller receives the power-up sequence with two lines if and only if `rows > 1` and the tall font if and only if `dotsize != 0` on one row. Afterwards the function mirror holds exactly those flags, the control mirror holds display on with cursor and blink off, and the mode mirror holds left-to-right without shift |
| PowerUp.OledInit | LiquidCrystal_I2C.cpp:27-36 | as init, including the final mirrors, on a handle marked OLED, so the sequence includes the move to address 0 after clear |
| StringWriter.DataFramesDecode | LiquidCrystal_I2C.cpp:131-133 | the frames writeString queues for a run of characters decode to exactly those characters, as data, with the current backlight level |
| StringWriter.DataFramesSnoc | LiquidCrystal_I2C.cpp:131-133 | each further character adds exactly the four frames send would emit for it with RS high |
| StringWriter.WriteString | LiquidCrystal_I2C.cpp:127-144 | the trace is exactly the batched transactions of the first `length` characters. The count returned is `length - 1` |
| StringWriter.SendCharacters | LiquidCrystal_I2C.cpp:128-141 | after the loop, every full batch has been flushed with a repeated start, and the open transaction holds the remaining fewer-than-8 characters |
| StringWriter.SendNext | LiquidCrystal_I2C.cpp:131-140 | one loop pass sends the next character and, once 8 are queued, flushes. The loop state is kept |
| StringWriter.AppendCharacter | LiquidCrystal_I2C.cpp:132-133 | the two pulses of one character extend the open transaction by exactly that character's frames |
| StringWriter.FlushBatch | LiquidCrystal_I2C.cpp:136-139 | ending with a repeated start and beginning again turns the open transaction into one more flushed batch |
| StringWriter.BatchesSplit | LiquidCrystal_I2C.cpp:131-142 | full batches followed by fewer than 8 characters are flushed transactions followed by one stop-terminated transaction |
| StringWriter.BatchesCount | LiquidCrystal_I2C.cpp:131-142 | a string of `n` characters takes `n / 8 + 1` transactions |
| StringWriter.BatchesShape | LiquidCrystal_I2C.cpp:131-142 | every transaction goes to `_Addr` and fits the 32-byte buffer. All but the last are full and end with a repeated start. Only the last ends with a stop, and it carries the remaining `n mod 8` characters, so it is empty when 8 divides `n` |
| StringWriter.BatchesPayload | LiquidCrystal_I2C.cpp:131-133 | the bytes of all transactions, in order, are the frames of every character, so none is dropped or duplicated |
| StringWriter.BatchesView | LiquidCrystal_I2C.cpp:127-144 | the controller receives exactly the characters of the string, in order, as data with the current backlight level |
| StringWriter.SameCharactersAsWrite | LiquidCrystal_I2C.cpp:127-144 | writeString hands the controller the same data items as one write call per character. Only the grouping into transactions differs |

## Left out

- The I²C transport itself. `Wire.begin` and the acknowledgement or error results of `endTransmission` are not modelled. A trace is only the sequence of calls made on the bus.
- `delay` and `delayMicroseconds`: the waits of the power-up sequence and after clear and home are not events of the trace.
- `pgm_read_byte_near` and PROGMEM: program memory is a plain byte sequence (`Addressing.CreateCharFromProgram`).
- `printstr`, which forwards to the Arduino `Print` class, is not part of this model.
- The alias wrappers `cursor_on`, `cursor_off`, `blink_on`, `blink_off` and `load_custom_character` only forward to modelled calls.
- The unsupported no-op stubs `off`, `on`, `setDelay`, `status`, `keypad`, `init_bargraph`, `draw_horizontal_graph`, `draw_vertical_graph` and `setContrast` do nothing.
- The `strlen` overload of writeString: the model takes the length as its `uint8_t` argument, and the `strlen` truncation to 8 bits is not modelled.
- The constructor: the handle starts from `LiquidCrystal.Zeroed`, the zero-initialised object, which satisfies `Valid` (`LiquidCrystal.ZeroedValid`).
- `BUFFER_LENGTH` is Wire's transmit buffer size and is assumed to be 32, giving 8 characters per transaction.
- StringWriter.WriteString: the count is an unbounded integer. For `length == 0` the driver's −1 is converted to `size_t` and wraps to its maximum; that platform-dependent width is not modelled.
- StringWriter.WriteString: requires `length <= |value|`, since the driver reads `value[0..length-1]` without a check.
- Addressing.SetCursor: requires the as-written clamped row to be below 4. For any other row the driver reads past `row_offsets`, which is undefined behaviour in C++ and has no defined trace.
- Addressing.CreateChar: requires at least eight pattern bytes, which the driver reads unconditionally.
- Addressing.Clear: the OLED branch calls the as-written `setCursor(0, 0)`. For row 0 this agrees with the corrected clamp (`Addressing.ClampsAgreeOnScreen`).

## Findings

| source | as written | input that shows it | evidently intended | confidence | as-written member | corrected member |
|---|---|---|---|---|---|---|
| LiquidCrystal_I2C.cpp:159 | the row is clamped only when `row > _rows`, so `row == _rows` passes through | `_rows = 4`, `setCursor(0, 4)` indexes `row_offsets[4]`, one past the four-entry table; `_rows = 2`, `setCursor(0, 2)` sets DDRAM address `_cols` instead of a position on the second row | clamp when `row >= _rows` ("we count rows starting w/0"), so the row is at most `_rows - 1` | not executed | Addressing.ClampOverrun | Addressing.SetCursorClamped |
