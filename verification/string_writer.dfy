/**
 writeString(value, length): sends `length` characters as data, packing
 them into as few bus transactions as the adapter's transmit buffer
 allows. Each character takes four bus bytes (two nibbles, each framed by
 an enable pulse), so a transaction holds BUFFER_LENGTH / 4 characters;
 when one is full it is ended with a repeated start (no stop condition)
 and the next one begins at once. The last transaction, which may be
 empty, ends with a stop.
 */
module StringWriter {
  import opened Wrappers
  import opened Bus
  import opened Frame
  import opened Expander
  import opened Observe
  import opened LiquidCrystal
  import Addressing

  /** Characters per transaction: BUFFER_LENGTH >> 2. */
  const Batch: nat := BufferLength / 4

  /** The data items that carry the characters of `s` with backlight level `backlit`. */
  function Chars(s: seq<bv8>, backlit: bool): (its: seq<Item>)
    ensures |its| == |s|
    ensures forall i :: 0 <= i < |s| ==> its[i] == Item(s[i], true, backlit)
  {
    seq(|s|, i requires 0 <= i < |s| => Item(s[i], true, backlit))
  }

  /** The bus bytes of the characters of `s` sent as data, four per character. */
  function DataFrames(s: seq<bv8>, backlit: bool): (bs: seq<bv8>)
    ensures |bs| == 4 * |s|
  {
    EncodeItems(Chars(s, backlit))
  }

  /** The controller reads the data frames of `s` back as exactly its characters. */
  lemma DataFramesDecode(s: seq<bv8>, backlit: bool)
    ensures DecodePacket(DataFrames(s, backlit)) == Some(Full(Chars(s, backlit)))
  {
    PacketRoundTrip(Full(Chars(s, backlit)));
  }

  lemma DataFramesAppend(a: seq<bv8>, b: seq<bv8>, backlit: bool)
    ensures DataFrames(a + b, backlit) == DataFrames(a, backlit) + DataFrames(b, backlit)
  {
    assert Chars(a + b, backlit) == Chars(a, backlit) + Chars(b, backlit);
    EncodeItemsAppend(Chars(a, backlit), Chars(b, backlit));
  }

  /** One more character adds exactly the frames send(c, Rs) would put in its transaction. */
  lemma DataFramesSnoc(s: seq<bv8>, c: bv8, backlit: bool)
    ensures DataFrames(s + [c], backlit) == DataFrames(s, backlit) + ByteFrames(c, Rs, LevelOf(backlit))
  {
    DataFramesAppend(s, [c], backlit);
    var its := Chars([c], backlit);
    assert its == [Item(c, true, backlit)];
    assert its[1..] == [];
    assert EncodeItems(its) == EncodeItem(its[0]) + [];
  }

  /**
   The transactions writeString puts on the bus for the characters `s`:
   while a full batch remains, one transaction of Batch characters ended
   with a repeated start; then the rest (possibly nothing) in a transaction
   ended with a stop.
   */
  function Batches(addr: bv8, s: seq<bv8>, backlit: bool): seq<Txn>
    decreases |s|
  {
    if |s| < Batch then [Txn(addr, DataFrames(s, backlit), true)]
    else [Txn(addr, DataFrames(s[..Batch], backlit), false)] + Batches(addr, s[Batch..], backlit)
  }

  /** The characters of a list of batches, in order. */
  function Concat(chunks: seq<seq<bv8>>): seq<bv8>
  {
    if |chunks| == 0 then [] else chunks[0] + Concat(chunks[1..])
  }

  lemma {:induction false} ConcatSnoc(chunks: seq<seq<bv8>>, x: seq<bv8>)
    ensures Concat(chunks + [x]) == Concat(chunks) + x
    decreases |chunks|
  {
    if |chunks| == 0 {
      assert [x][1..] == [];
    } else {
      assert (chunks + [x])[1..] == chunks[1..] + [x];
      ConcatSnoc(chunks[1..], x);
    }
  }

  /** Every batch holds exactly Batch characters. */
  predicate AllFull(chunks: seq<seq<bv8>>) {
    forall k :: 0 <= k < |chunks| ==> |chunks[k]| == Batch
  }

  /** The flushed transactions of full batches, each ended with a repeated start. */
  function Flushed(addr: bv8, chunks: seq<seq<bv8>>, backlit: bool): (ts: seq<Txn>)
    ensures |ts| == |chunks|
    ensures forall k :: 0 <= k < |chunks| ==> ts[k] == Txn(addr, DataFrames(chunks[k], backlit), false)
  {
    seq(|chunks|, k requires 0 <= k < |chunks| => Txn(addr, DataFrames(chunks[k], backlit), false))
  }

  /** A full batch in front becomes one flushed transaction in front. */
  lemma BatchesCons(addr: bv8, head: seq<bv8>, tail: seq<bv8>, backlit: bool)
    requires |head| == Batch
    ensures Batches(addr, head + tail, backlit)
         == [Txn(addr, DataFrames(head, backlit), false)] + Batches(addr, tail, backlit)
  {
    var s := head + tail;
    assert s[..Batch] == head && s[Batch..] == tail;
  }

  lemma FlushedCons(addr: bv8, chunks: seq<seq<bv8>>, backlit: bool)
    requires |chunks| > 0
    ensures Flushed(addr, chunks, backlit)
         == [Txn(addr, DataFrames(chunks[0], backlit), false)] + Flushed(addr, chunks[1..], backlit)
  {
  }

  /** Full batches followed by fewer than Batch characters are what Batches makes of their concatenation. */
  lemma {:induction false} BatchesSplit(addr: bv8, chunks: seq<seq<bv8>>, rest: seq<bv8>, backlit: bool)
    requires AllFull(chunks) && |rest| < Batch
    ensures Batches(addr, Concat(chunks) + rest, backlit)
         == Flushed(addr, chunks, backlit) + [Txn(addr, DataFrames(rest, backlit), true)]
    decreases |chunks|
  {
    if |chunks| == 0 {
      assert Concat(chunks) + rest == rest;
    } else {
      assert Concat(chunks) + rest == chunks[0] + (Concat(chunks[1..]) + rest);
      BatchesCons(addr, chunks[0], Concat(chunks[1..]) + rest, backlit);
      BatchesSplit(addr, chunks[1..], rest, backlit);
      FlushedCons(addr, chunks, backlit);
    }
  }

  /**
   The bus trace while a transaction is open: the flushed batches, the
   open transaction's start, and the frames of the characters `rest` sent
   since.
   */
  function Open(addr: bv8, chunks: seq<seq<bv8>>, rest: seq<bv8>, backlit: bool): Trace
  {
    Serialize(Flushed(addr, chunks, backlit)) + [Begin(addr)] + Writes(DataFrames(rest, backlit))
  }

  lemma OpenChar(addr: bv8, chunks: seq<seq<bv8>>, rest: seq<bv8>, c: bv8, backlit: bool)
    ensures Open(addr, chunks, rest, backlit) + Writes(ByteFrames(c, Rs, LevelOf(backlit)))
         == Open(addr, chunks, rest + [c], backlit)
  {
    var head := Serialize(Flushed(addr, chunks, backlit)) + [Begin(addr)];
    DataFramesSnoc(rest, c, backlit);
    WritesAppend(DataFrames(rest, backlit), ByteFrames(c, Rs, LevelOf(backlit)));
    Assoc(head, Writes(DataFrames(rest, backlit)), Writes(ByteFrames(c, Rs, LevelOf(backlit))));
  }

  lemma OpenFlush(addr: bv8, chunks: seq<seq<bv8>>, rest: seq<bv8>, backlit: bool)
    ensures Open(addr, chunks, rest, backlit) + [End(false)] + [Begin(addr)] == Open(addr, chunks + [rest], [], backlit)
  {
    var full := Txn(addr, DataFrames(rest, backlit), false);
    assert Flushed(addr, chunks + [rest], backlit) == Flushed(addr, chunks, backlit) + [full];
    SerializeAppend(Flushed(addr, chunks, backlit), [full]);
    SerializeOne(full);
    assert Writes(DataFrames([], backlit)) == [];
  }

  lemma OpenClose(addr: bv8, chunks: seq<seq<bv8>>, rest: seq<bv8>, backlit: bool)
    requires AllFull(chunks) && |rest| < Batch
    ensures Open(addr, chunks, rest, backlit) + [End(true)] == Serialize(Batches(addr, Concat(chunks) + rest, backlit))
  {
    var last := Txn(addr, DataFrames(rest, backlit), true);
    BatchesSplit(addr, chunks, rest, backlit);
    SerializeAppend(Flushed(addr, chunks, backlit), [last]);
    SerializeOne(last);
  }

  /** The two pulses writeString sends for character `c` are the frames of send(c, Rs). */
  lemma CharPulses(lcd: Lcd, c: bv8)
    requires Valid(lcd)
    ensures PulseEnable((c & 0xF0) | Rs | lcd.backlightVal) + PulseEnable(((c << 4) & 0xF0) | Rs | lcd.backlightVal)
         == Writes(ByteFrames(c, Rs, LevelOf(Backlit(lcd))))
  {
    var level := LevelOf(Backlit(lcd));
    assert lcd.backlightVal == level;
    WritesAppend(Pulse(UpperFrame(c, Rs, level)), Pulse(LowerFrame(c, Rs, level)));
  }

  lemma SliceSnoc(s: seq<bv8>, i: nat, j: nat)
    requires i <= j < |s|
    ensures s[i..j + 1] == s[i..j] + [s[j]]
  {
  }

  /** Before the first character: only the first transaction's start. */
  lemma OpenEmpty(addr: bv8, backlit: bool)
    ensures Open(addr, [], [], backlit) == [Begin(addr)]
  {
    assert Writes(DataFrames([], backlit)) == [];
  }

  /** One pass of writeString's loop appends character `c` to the open transaction. */
  lemma StepChar(lcd: Lcd, chunks: seq<seq<bv8>>, rest: seq<bv8>, c: bv8)
    requires Valid(lcd)
    ensures Open(lcd.addr, chunks, rest, Backlit(lcd))
              + PulseEnable((c & 0xF0) | Rs | lcd.backlightVal)
              + PulseEnable(((c << 4) & 0xF0) | Rs | lcd.backlightVal)
         == Open(lcd.addr, chunks, rest + [c], Backlit(lcd))
  {
    var up := PulseEnable((c & 0xF0) | Rs | lcd.backlightVal);
    var lo := PulseEnable(((c << 4) & 0xF0) | Rs | lcd.backlightVal);
    var before := Open(lcd.addr, chunks, rest, Backlit(lcd));
    Assoc(before, up, lo);
    CharPulses(lcd, c);
    OpenChar(lcd.addr, chunks, rest, c, Backlit(lcd));
  }

  /** A full batch at `i` joins the flushed ones. */
  lemma ChunkStep(value: seq<bv8>, chunks: seq<seq<bv8>>, done: nat, i: nat)
    requires done + Batch == i <= |value|
    requires AllFull(chunks) && Concat(chunks) == value[..done]
    ensures AllFull(chunks + [value[done..i]]) && Concat(chunks + [value[done..i]]) == value[..i]
  {
    ConcatSnoc(chunks, value[done..i]);
    assert value[..i] == value[..done] + value[done..i];
  }

  /** Ending the open transaction with a stop completes the batches of `value[..n]`. */
  lemma CloseStep(addr: bv8, chunks: seq<seq<bv8>>, value: seq<bv8>, done: nat, n: nat, backlit: bool)
    requires done <= n <= |value| && n - done < Batch
    requires AllFull(chunks) && Concat(chunks) == value[..done]
    ensures Open(addr, chunks, value[done..n], backlit) + [End(true)] == Serialize(Batches(addr, value[..n], backlit))
  {
    assert value[..n] == Concat(chunks) + value[done..n];
    OpenClose(addr, chunks, value[done..n], backlit);
  }

  /**
   writeString(value, length): the bus trace, and the returned count, which
   is `length - 1` as written (the loop counter less one), not `length`.
   */
  method WriteString(lcd: Lcd, value: seq<bv8>, length: bv8) returns (t: Trace, count: int)
    requires Valid(lcd)
    requires length as int <= |value|
    ensures t == Serialize(Batches(lcd.addr, value[..length], Backlit(lcd)))
    ensures count == length as int - 1
  {
    var countChar: nat;
    ghost var chunks: seq<seq<bv8>>, done: nat;
    t, countChar, chunks, done := SendCharacters(lcd, value, length);
    CloseStep(lcd.addr, chunks, value, done, countChar, Backlit(lcd));
    t := t + [End(true)];
    count := countChar - 1;
  }

  /** Sends character `c` in the open transaction. */
  method AppendCharacter(lcd: Lcd, t: Trace, ghost chunks: seq<seq<bv8>>, ghost rest: seq<bv8>, c: bv8)
    returns (t': Trace)
    requires Valid(lcd)
    requires t == Open(lcd.addr, chunks, rest, Backlit(lcd))
    ensures t' == Open(lcd.addr, chunks, rest + [c], Backlit(lcd))
  {
    StepChar(lcd, chunks, rest, c);
    t' := t + PulseEnable((c & 0xF0) | Rs | lcd.backlightVal);
    t' := t' + PulseEnable(((c << 4) & 0xF0) | Rs | lcd.backlightVal);
  }

  /** Ends the full open transaction with a repeated start and begins the next one. */
  method FlushBatch(lcd: Lcd, t: Trace, ghost chunks: seq<seq<bv8>>, ghost rest: seq<bv8>) returns (t': Trace)
    requires t == Open(lcd.addr, chunks, rest, Backlit(lcd))
    ensures t' == Open(lcd.addr, chunks + [rest], [], Backlit(lcd))
  {
    OpenFlush(lcd.addr, chunks, rest, Backlit(lcd));
    t' := t + [End(false)];
    t' := t' + [Begin(lcd.addr)];
  }

  /**
   The state of writeString's loop after `countChar` characters: `countI2C`
   of them sit in the open transaction (`rest`), the `done` before them in
   the flushed full batches `chunks`, and `t` is the trace so far.
   */
  ghost predicate Writing(lcd: Lcd, value: seq<bv8>, length: bv8, t: Trace, countChar: nat, countI2C: nat,
                          chunks: seq<seq<bv8>>, done: nat, rest: seq<bv8>)
  {
    && done + countI2C == countChar <= length as int <= |value| && countI2C < Batch
    && AllFull(chunks) && Concat(chunks) == value[..done]
    && rest == value[done..countChar]
    && t == Open(lcd.addr, chunks, rest, Backlit(lcd))
  }

  /** One pass of writeString's loop: send the next character, and flush the transaction once it is full. */
  method SendNext(lcd: Lcd, value: seq<bv8>, length: bv8, t: Trace, countChar: nat, countI2C: nat,
                  ghost chunks: seq<seq<bv8>>, ghost done: nat, ghost rest: seq<bv8>)
    returns (t': Trace, countChar': nat, countI2C': nat,
             ghost chunks': seq<seq<bv8>>, ghost done': nat, ghost rest': seq<bv8>)
    requires Valid(lcd)
    requires Writing(lcd, value, length, t, countChar, countI2C, chunks, done, rest)
    requires countChar < length as int
    ensures Writing(lcd, value, length, t', countChar', countI2C', chunks', done', rest')
    ensures countChar' == countChar + 1
  {
    SliceSnoc(value, done, countChar);
    t' := AppendCharacter(lcd, t, chunks, rest, value[countChar]);
    rest' := rest + [value[countChar]];
    countChar' := countChar + 1;
    countI2C' := countI2C + 1;
    chunks', done' := chunks, done;
    if countI2C' >= Batch {
      t', countI2C', chunks', done', rest' := FlushFull(lcd, value, length, t', countChar', chunks, done, rest');
    }
  }

  /** A transaction holding Batch characters is flushed, and the next one opened empty. */
  method FlushFull(lcd: Lcd, value: seq<bv8>, length: bv8, t: Trace, countChar: nat,
                   ghost chunks: seq<seq<bv8>>, ghost done: nat, ghost rest: seq<bv8>)
    returns (t': Trace, countI2C': nat, ghost chunks': seq<seq<bv8>>, ghost done': nat, ghost rest': seq<bv8>)
    requires done + Batch == countChar <= length as int <= |value|
    requires AllFull(chunks) && Concat(chunks) == value[..done]
    requires rest == value[done..countChar]
    requires t == Open(lcd.addr, chunks, rest, Backlit(lcd))
    ensures Writing(lcd, value, length, t', countChar, countI2C', chunks', done', rest')
    ensures countI2C' == 0
  {
    ChunkStep(value, chunks, done, countChar);
    t' := FlushBatch(lcd, t, chunks, rest);
    countI2C' := 0;
    chunks' := chunks + [rest];
    done' := countChar;
    rest' := [];
  }

  /**
   The loop of writeString: the trace up to the final endTransmission, the
   number of characters sent, and (for the proof) the flushed batches and
   the count of characters they hold.
   */
  method SendCharacters(lcd: Lcd, value: seq<bv8>, length: bv8)
    returns (t: Trace, countChar: nat, ghost chunks: seq<seq<bv8>>, ghost done: nat)
    requires Valid(lcd)
    requires length as int <= |value|
    ensures countChar == length as int && done <= countChar && countChar - done < Batch
    ensures AllFull(chunks) && Concat(chunks) == value[..done]
    ensures t == Open(lcd.addr, chunks, value[done..countChar], Backlit(lcd))
  {
    // The uint8_t counters never wrap: countChar stops at length <= 255 and
    // countI2C is reset at Batch, so they are kept as plain integers.
    countChar := 0;
    var countI2C: nat := 0;
    done := 0;
    chunks := [];
    ghost var rest: seq<bv8> := [];
    t := [Begin(lcd.addr)];
    OpenEmpty(lcd.addr, Backlit(lcd));
    while countChar < length as int
      invariant Writing(lcd, value, length, t, countChar, countI2C, chunks, done, rest)
      decreases length as int - countChar
    {
      t, countChar, countI2C, chunks, done, rest := SendNext(lcd, value, length, t, countChar, countI2C, chunks, done, rest);
    }
  }

  // What the transactions of writeString amount to

  /** The number of transactions: one per full batch, plus the closing one. */
  lemma {:induction false} BatchesCount(addr: bv8, s: seq<bv8>, backlit: bool)
    ensures |Batches(addr, s, backlit)| == |s| / Batch + 1
    decreases |s|
  {
    if |s| >= Batch {
      BatchesCount(addr, s[Batch..], backlit);
    }
  }

  /**
   The transactions `b` all go to `addr` and fit the transmit buffer; all
   but the last are full and end with a repeated start; the last ends with
   a stop and carries `lastBytes` bytes.
   */
  predicate Shaped(addr: bv8, b: seq<Txn>, lastBytes: nat) {
    && |b| > 0
    && (forall k :: 0 <= k < |b| ==> b[k].addr == addr && |b[k].bytes| <= BufferLength)
    && (forall k :: 0 <= k < |b| ==> (b[k].stop <==> k == |b| - 1))
    && (forall k :: 0 <= k < |b| - 1 ==> |b[k].bytes| == BufferLength)
    && |b[|b| - 1].bytes| == lastBytes
  }

  lemma ShapedCons(addr: bv8, first: Txn, rest: seq<Txn>, lastBytes: nat)
    requires Shaped(addr, rest, lastBytes)
    requires first.addr == addr && |first.bytes| == BufferLength && !first.stop
    ensures Shaped(addr, [first] + rest, lastBytes)
  {
    var b := [first] + rest;
    assert forall k :: 1 <= k < |b| ==> b[k] == rest[k - 1];
  }

  lemma ShapedLast(addr: bv8, last: Txn)
    requires last.addr == addr && |last.bytes| <= BufferLength && last.stop
    ensures Shaped(addr, [last], |last.bytes|)
  {
  }

  lemma RemainderSmall(n: nat)
    requires n < Batch
    ensures n % Batch == n
  {
  }

  lemma RemainderStep(n: nat)
    requires n >= Batch
    ensures (n - Batch) % Batch == n % Batch
  {
  }

  /**
   writeString's transactions have that shape, the last one carrying the
   remaining |s| % Batch characters (none when |s| is a multiple of Batch).
   */
  lemma {:induction false} BatchesShape(addr: bv8, s: seq<bv8>, backlit: bool)
    ensures Shaped(addr, Batches(addr, s, backlit), 4 * (|s| % Batch))
    decreases |s|
  {
    if |s| < Batch {
      RemainderSmall(|s|);
      ShapedLast(addr, Txn(addr, DataFrames(s, backlit), true));
    } else {
      var tail := s[Batch..];
      BatchesShape(addr, tail, backlit);
      RemainderStep(|s|);
      ShapedCons(addr, Txn(addr, DataFrames(s[..Batch], backlit), false), Batches(addr, tail, backlit), 4 * (|s| % Batch));
    }
  }

  /** The bytes of all transactions, in order, are the data frames of the whole string. */
  lemma {:induction false} BatchesPayload(addr: bv8, s: seq<bv8>, backlit: bool)
    ensures Payload(Batches(addr, s, backlit)) == DataFrames(s, backlit)
    decreases |s|
  {
    var b := Batches(addr, s, backlit);
    if |s| < Batch {
      assert b[1..] == [];
      assert Payload(b) == DataFrames(s, backlit) + [];
    } else {
      BatchesPayload(addr, s[Batch..], backlit);
      assert b[1..] == Batches(addr, s[Batch..], backlit);
      DataFramesAppend(s[..Batch], s[Batch..], backlit);
      assert s[..Batch] + s[Batch..] == s;
    }
  }

  /** The items the controller receives from a list of transfers, in order (only byte-wide transfers carry any). */
  function ItemsOf(xs: seq<Transfer>): seq<Item>
  {
    if |xs| == 0 then []
    else (if xs[0].packet.Full? then xs[0].packet.items else []) + ItemsOf(xs[1..])
  }

  lemma ItemsOfCons(x: Transfer, v: seq<Transfer>)
    requires x.packet.Full?
    ensures ItemsOf([x] + v) == x.packet.items + ItemsOf(v)
  {
    assert ([x] + v)[0] == x && ([x] + v)[1..] == v;
  }

  lemma CharsAppend(a: seq<bv8>, b: seq<bv8>, backlit: bool)
    ensures Chars(a + b, backlit) == Chars(a, backlit) + Chars(b, backlit)
  {
  }

  /** One more transaction in front adds its transfer in front of the view. */
  lemma ViewCons(first: Txn, rest: seq<Txn>, p: Packet)
    requires DecodePacket(first.bytes) == Some(p) && View(Serialize(rest)).Some?
    ensures View(Serialize([first] + rest)) == Some([Transfer(first.addr, p, first.stop)] + View(Serialize(rest)).value)
  {
    ParseSerialize([first]);
    DecodeOneTxn(first, p);
    SerializeAppend([first], rest);
    ViewAppend(Serialize([first]), Serialize(rest));
  }

  /** The closing batch of fewer than Batch characters is received as exactly those characters. */
  lemma LastBatchView(addr: bv8, s: seq<bv8>, backlit: bool)
    requires |s| < Batch
    ensures View(Serialize(Batches(addr, s, backlit))).Some?
    ensures ItemsOf(View(Serialize(Batches(addr, s, backlit))).value) == Chars(s, backlit)
  {
    var first := Txn(addr, DataFrames(s, backlit), true);
    assert Batches(addr, s, backlit) == [first] + [];
    assert View(Serialize([])) == Some([]);
    DataFramesDecode(s, backlit);
    ViewCons(first, [], Full(Chars(s, backlit)));
    ItemsOfCons(Transfer(addr, Full(Chars(s, backlit)), true), []);
    assert Chars(s, backlit) == Chars(s, backlit) + [];
  }

  /** A full batch in front of `tail` adds its characters in front of what `tail` delivers. */
  lemma FullBatchView(addr: bv8, head: seq<bv8>, tail: seq<bv8>, backlit: bool)
    requires |head| == Batch
    requires View(Serialize(Batches(addr, tail, backlit))).Some?
    requires ItemsOf(View(Serialize(Batches(addr, tail, backlit))).value) == Chars(tail, backlit)
    ensures View(Serialize(Batches(addr, head + tail, backlit))).Some?
    ensures ItemsOf(View(Serialize(Batches(addr, head + tail, backlit))).value) == Chars(head + tail, backlit)
  {
    var first := Txn(addr, DataFrames(head, backlit), false);
    var rest := Batches(addr, tail, backlit);
    BatchesCons(addr, head, tail, backlit);
    DataFramesDecode(head, backlit);
    ViewCons(first, rest, Full(Chars(head, backlit)));
    ItemsOfCons(Transfer(addr, Full(Chars(head, backlit)), false), View(Serialize(rest)).value);
    CharsAppend(head, tail, backlit);
  }

  /** The controller receives exactly the characters of `s`, in order, as data. */
  lemma {:induction false} BatchesView(addr: bv8, s: seq<bv8>, backlit: bool)
    ensures View(Serialize(Batches(addr, s, backlit))).Some?
    ensures ItemsOf(View(Serialize(Batches(addr, s, backlit))).value) == Chars(s, backlit)
    decreases |s|
  {
    if |s| < Batch {
      LastBatchView(addr, s, backlit);
    } else {
      BatchesView(addr, s[Batch..], backlit);
      FullBatchView(addr, s[..Batch], s[Batch..], backlit);
      assert s[..Batch] + s[Batch..] == s;
    }
  }

  /** Transfers that each carry one data item hold, together, the items of `s`. */
  lemma {:induction false} ItemsOfSingles(xs: seq<Transfer>, s: seq<bv8>, backlit: bool)
    requires |xs| == |s|
    requires forall k :: 0 <= k < |xs| ==> xs[k].packet == Full([Item(s[k], true, backlit)])
    ensures ItemsOf(xs) == Chars(s, backlit)
    decreases |xs|
  {
    if |xs| > 0 {
      ItemsOfSingles(xs[1..], s[1..], backlit);
      assert Chars(s, backlit) == [Item(s[0], true, backlit)] + Chars(s[1..], backlit);
    }
  }

  /**
   writeString hands the controller the same characters, in the same order
   and with the same backlight level, as one write() per character; only
   the grouping into bus transactions differs.
   */
  lemma SameCharactersAsWrite(lcd: Lcd, s: seq<bv8>)
    requires Valid(lcd)
    ensures View(Serialize(Batches(lcd.addr, s, Backlit(lcd)))).Some?
    ensures ItemsOf(View(Serialize(Batches(lcd.addr, s, Backlit(lcd)))).value)
         == ItemsOf(View(Addressing.WriteAll(lcd, s)).value)
  {
    BatchesView(lcd.addr, s, Backlit(lcd));
    var t := Addressing.WriteAll(lcd, s);
    var v := View(t).value;
    forall k | 0 <= k < |v|
      ensures v[k].packet == Full([Item(s[k], true, Backlit(lcd))])
    {
      assert Matches(lcd.addr, Backlit(lcd), v[k], Addressing.DataOf(s)[k]);
    }
    ItemsOfSingles(v, s, Backlit(lcd));
  }
}
