/**
 Bus frame encoding: how one nibble, the register-select flag and the
 backlight flag share the expander's single output byte, and the enable
 pulse that latches it (pulseEnable, send and commandInit in
 LiquidCrystal_I2C.cpp).

 `Item` and `Packet` are the controller-level meaning of the bytes of one
 transaction; the decoders recover them from the bytes and are exact
 inverses of the encoders.
 */
module Frame {
  import opened Wrappers
  import opened Expander

  /** The two writes of pulseEnable: `d` with E high, then `d` with E low. */
  function Pulse(d: bv8): (r: seq<bv8>)
    ensures |r| == 2
    ensures r[0] & En == En && r[1] & En == 0
    ensures r[0] & !En == d & !En && r[1] & !En == d & !En
  {
    [d | En, d & !En]
  }

  /** Two bytes that form an enable pulse: E high, then the same byte with E low. */
  predicate IsPulse(hi: bv8, lo: bv8) {
    hi & En != 0 && lo == hi & !En
  }

  /** Flags that sit in the low nibble and leave E alone. */
  predicate LowFlags(flags: bv8) {
    flags & (DataBits | En) == 0
  }

  /** The frame that presents the upper nibble of `v`. */
  function UpperFrame(v: bv8, mode: bv8, level: bv8): bv8 {
    (v & DataBits) | mode | level
  }

  /** The frame that presents the lower nibble of `v`, moved onto the data lines. */
  function LowerFrame(v: bv8, mode: bv8, level: bv8): bv8 {
    ((v << 4) & DataBits) | mode | level
  }

  /** The four bus bytes that transfer one byte `v`: upper nibble pulsed, then lower nibble pulsed. */
  function ByteFrames(v: bv8, mode: bv8, level: bv8): (r: seq<bv8>)
    ensures |r| == 4
    ensures IsPulse(r[0], r[1]) && IsPulse(r[2], r[3])
    ensures LowFlags(mode | level) ==>
      && r[0] & DataBits == v & 0xF0 && r[1] & DataBits == v & 0xF0
      && r[2] & DataBits == (v << 4) & 0xF0 && r[3] & DataBits == (v << 4) & 0xF0
      && (r[0] & DataBits) | (r[2] >> 4) == v
      && r[0] & !DataBits == mode | level | En && r[2] & !DataBits == mode | level | En
      && r[1] & !DataBits == mode | level && r[3] & !DataBits == mode | level
  {
    Pulse(UpperFrame(v, mode, level)) + Pulse(LowerFrame(v, mode, level))
  }

  /** One byte handed to the controller: its value, the register it goes to, and the backlight level beside it. */
  datatype Item = Item(value: bv8, data: bool, backlit: bool)

  function EncodeItem(it: Item): (r: seq<bv8>)
    ensures |r| == 4
  {
    ByteFrames(it.value, ModeBit(it.data), LevelOf(it.backlit))
  }

  /** The item carried by four bus bytes: two enable pulses with equal control bits and R/W low. */
  function DecodeItem(w: seq<bv8>): Option<Item>
    requires |w| == 4
  {
    if IsPulse(w[0], w[1]) && IsPulse(w[2], w[3]) && w[0] & 0x0F == w[2] & 0x0F && w[0] & Rw == 0
    then Some(Item((w[0] & DataBits) | (w[2] >> 4), w[0] & Rs != 0, w[0] & BacklightOn != 0))
    else None
  }

  lemma ItemRoundTrip(it: Item)
    ensures DecodeItem(EncodeItem(it)) == Some(it)
  {
  }

  /** The decoder accepts only the exact frames the encoder produces. */
  lemma ItemFramesExact(w: seq<bv8>)
    requires |w| == 4 && DecodeItem(w).Some?
    ensures EncodeItem(DecodeItem(w).value) == w
  {
    var e := EncodeItem(DecodeItem(w).value);
    assert e[0] == w[0] && e[1] == w[1] && e[2] == w[2] && e[3] == w[3];
  }

  function EncodeItems(its: seq<Item>): (r: seq<bv8>)
    ensures |r| == 4 * |its|
  {
    if |its| == 0 then [] else EncodeItem(its[0]) + EncodeItems(its[1..])
  }

  lemma {:induction false} EncodeItemsAppend(a: seq<Item>, b: seq<Item>)
    ensures EncodeItems(a + b) == EncodeItems(a) + EncodeItems(b)
    decreases |a|
  {
    if |a| > 0 {
      assert (a + b)[1..] == a[1..] + b;
      EncodeItemsAppend(a[1..], b);
    } else {
      assert a + b == b;
    }
  }

  function DecodeItems(bs: seq<bv8>): Option<seq<Item>>
    requires |bs| % 4 == 0
    decreases |bs|
  {
    if |bs| == 0 then Some([])
    else match (DecodeItem(bs[..4]), DecodeItems(bs[4..]))
      case (Some(it), Some(rest)) => Some([it] + rest)
      case _ => None
  }

  lemma {:induction false} ItemsRoundTrip(its: seq<Item>)
    ensures DecodeItems(EncodeItems(its)) == Some(its)
    decreases |its|
  {
    if |its| > 0 {
      var bs := EncodeItems(its);
      assert bs[..4] == EncodeItem(its[0]);
      assert bs[4..] == EncodeItems(its[1..]);
      ItemRoundTrip(its[0]);
      ItemsRoundTrip(its[1..]);
      assert [its[0]] + its[1..] == its;
    }
  }

  lemma {:induction false} ItemsFramesExact(bs: seq<bv8>)
    requires |bs| % 4 == 0 && DecodeItems(bs).Some?
    ensures EncodeItems(DecodeItems(bs).value) == bs
    decreases |bs|
  {
    if |bs| > 0 {
      ItemFramesExact(bs[..4]);
      ItemsFramesExact(bs[4..]);
      var its := DecodeItems(bs).value;
      assert its[1..] == DecodeItems(bs[4..]).value;
      assert bs == bs[..4] + bs[4..];
    }
  }

  /**
   What one transaction carries:
     Bare(level)  a single raw byte (the backlight switch),
     Half(n, ..)  one enable pulse presenting only the upper nibble `n` (commandInit),
     Full(items)  whole bytes, four bus bytes each (send, writeString).
   */
  datatype Packet =
    | Bare(level: bv8)
    | Half(nibble: bv8, data: bool, backlit: bool)
    | Full(items: seq<Item>)

  predicate WellFormed(p: Packet) {
    p.Half? ==> p.nibble & !DataBits == 0
  }

  function EncodePacket(p: Packet): seq<bv8> {
    match p
    case Bare(b) => [b]
    case Half(n, d, bl) => Pulse(n | ModeBit(d) | LevelOf(bl))
    case Full(its) => EncodeItems(its)
  }

  function DecodePacket(bs: seq<bv8>): Option<Packet> {
    if |bs| == 1 then Some(Bare(bs[0]))
    else if |bs| == 2 then
      if IsPulse(bs[0], bs[1]) && bs[0] & Rw == 0
      then Some(Half(bs[0] & DataBits, bs[0] & Rs != 0, bs[0] & BacklightOn != 0))
      else None
    else if |bs| % 4 == 0 then
      match DecodeItems(bs)
      case Some(its) => Some(Full(its))
      case None => None
    else None
  }

  lemma PacketRoundTrip(p: Packet)
    requires WellFormed(p)
    ensures DecodePacket(EncodePacket(p)) == Some(p)
  {
    match p
    case Bare(b) =>
    case Half(n, d, bl) =>
    case Full(its) => ItemsRoundTrip(its);
  }

  lemma PacketFramesExact(bs: seq<bv8>)
    requires DecodePacket(bs).Some?
    ensures WellFormed(DecodePacket(bs).value)
    ensures EncodePacket(DecodePacket(bs).value) == bs
  {
    if |bs| == 1 {
    } else if |bs| == 2 {
      var e := EncodePacket(DecodePacket(bs).value);
      assert e[0] == bs[0] && e[1] == bs[1];
    } else {
      ItemsFramesExact(bs);
    }
  }
}
