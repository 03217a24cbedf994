/**
 What a bus trace means to the display: `View` decodes every transaction
 of a trace into a `Transfer`, and `Delivers` says that a trace hands the
 controller a given list of effects (instructions, data bytes, init
 nibbles, backlight switches), each in its own stop-terminated transaction
 to the given address and with the given backlight level.
 */
module Observe {
  import opened Wrappers
  import opened Bus
  import opened Frame
  import opened Expander
  import Hd44780

  datatype Transfer = Transfer(addr: bv8, packet: Packet, stop: bool)

  function DecodeTxns(ts: seq<Txn>): Option<seq<Transfer>>
  {
    if |ts| == 0 then Some([])
    else
      var p := DecodePacket(ts[0].bytes);
      var rest := DecodeTxns(ts[1..]);
      if p.Some? && rest.Some? then Some([Transfer(ts[0].addr, p.value, ts[0].stop)] + rest.value)
      else None
  }

  lemma {:induction false} DecodeTxnsAppend(a: seq<Txn>, b: seq<Txn>)
    requires DecodeTxns(a).Some? && DecodeTxns(b).Some?
    ensures DecodeTxns(a + b) == Some(DecodeTxns(a).value + DecodeTxns(b).value)
    decreases |a|
  {
    if |a| > 0 {
      assert (a + b)[1..] == a[1..] + b;
      assert (a + b)[0] == a[0];
      DecodeTxnsAppend(a[1..], b);
      var p := DecodePacket(a[0].bytes).value;
      var x := Transfer(a[0].addr, p, a[0].stop);
      assert DecodeTxns(a).value == [x] + DecodeTxns(a[1..]).value;
      assert DecodeTxns(a + b).value == [x] + DecodeTxns(a[1..] + b).value;
      assert [x] + (DecodeTxns(a[1..]).value + DecodeTxns(b).value)
          == ([x] + DecodeTxns(a[1..]).value) + DecodeTxns(b).value;
    } else {
      assert a + b == b;
      assert DecodeTxns(a).value + DecodeTxns(b).value == DecodeTxns(b).value;
    }
  }

  /** The transfers of a trace, or None if some transaction is not a well-formed frame sequence. */
  function View(t: Trace): Option<seq<Transfer>>
  {
    match Parse(t)
    case None => None
    case Some(ts) => DecodeTxns(ts)
  }

  /** The trace of a single transfer. */
  function Emit(x: Transfer): Trace
  {
    Serialize([Txn(x.addr, EncodePacket(x.packet), x.stop)])
  }

  lemma ViewEmit(x: Transfer)
    requires WellFormed(x.packet)
    ensures View(Emit(x)) == Some([x])
  {
    var txn := Txn(x.addr, EncodePacket(x.packet), x.stop);
    ParseSerialize([txn]);
    PacketRoundTrip(x.packet);
    DecodeOneTxn(txn, x.packet);
  }

  lemma DecodeOneTxn(txn: Txn, p: Packet)
    requires DecodePacket(txn.bytes) == Some(p)
    ensures DecodeTxns([txn]) == Some([Transfer(txn.addr, p, txn.stop)])
  {
    var x := Transfer(txn.addr, p, txn.stop);
    assert [txn][0] == txn && [txn][1..] == [];
    assert DecodeTxns([txn][1..]) == Some([]);
    assert [x] + [] == [x];
  }

  /** Views compose: the view of two traces one after the other is the two views one after the other. */
  lemma ViewAppend(a: Trace, b: Trace)
    requires View(a).Some? && View(b).Some?
    ensures View(a + b) == Some(View(a).value + View(b).value)
  {
    ParseAppend(a, b);
    DecodeTxnsAppend(Parse(a).value, Parse(b).value);
  }

  /** What the controller (or the backlight driver) does with one transfer. */
  datatype Effect =
    | Command(i: Hd44780.Instruction)   // a byte with RS low
    | Data(value: bv8)                  // a byte with RS high
    | Nibble(i: Hd44780.Instruction)    // an upper nibble alone, read while the interface may still be 8 bits wide
    | Light(on: bool)                   // a bare byte switching the backlight

  /** `x` is a complete transaction to `addr` that carries exactly effect `e` with backlight level `backlit`. */
  predicate Matches(addr: bv8, backlit: bool, x: Transfer, e: Effect)
  {
    && x.addr == addr
    && x.stop
    && match e
       case Command(i) =>
         && x.packet.Full? && |x.packet.items| == 1
         && !x.packet.items[0].data && x.packet.items[0].backlit == backlit
         && Hd44780.Decode(x.packet.items[0].value) == i
       case Data(v) => x.packet == Full([Item(v, true, backlit)])
       case Nibble(i) =>
         && x.packet.Half? && !x.packet.data && x.packet.backlit == backlit
         && Hd44780.Decode(x.packet.nibble) == i
       case Light(on) => x.packet == Bare(LevelOf(on))
  }

  /** Trace `t` delivers exactly the effects `es`, one transaction each, in order. */
  predicate Delivers(addr: bv8, backlit: bool, t: Trace, es: seq<Effect>)
  {
    && View(t).Some?
    && |View(t).value| == |es|
    && forall k :: 0 <= k < |es| ==> Matches(addr, backlit, View(t).value[k], es[k])
  }

  lemma DeliversAppend(addr: bv8, backlit: bool, a: Trace, b: Trace, ea: seq<Effect>, eb: seq<Effect>)
    requires Delivers(addr, backlit, a, ea) && Delivers(addr, backlit, b, eb)
    ensures Delivers(addr, backlit, a + b, ea + eb)
  {
    ViewAppend(a, b);
    var v := View(a + b).value;
    forall k | 0 <= k < |ea + eb|
      ensures Matches(addr, backlit, v[k], (ea + eb)[k])
    {
      if k < |ea| {
        assert v[k] == View(a).value[k];
      } else {
        assert v[k] == View(b).value[k - |ea|];
      }
    }
  }

  /** Delivering one effect, with the transfer that carries it. */
  lemma DeliversOne(addr: bv8, backlit: bool, x: Transfer, e: Effect)
    requires WellFormed(x.packet) && Matches(addr, backlit, x, e)
    ensures Delivers(addr, backlit, Emit(x), [e])
  {
    ViewEmit(x);
  }
}
