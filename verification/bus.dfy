/**
 The two-wire bus as the driver sees it: a write-only sequence of events.
 A transaction opens with `Begin(addr)` (Wire.beginTransmission), queues
 bytes with `Write(b)` (Wire.write) and closes with `End(stop)`
 (Wire.endTransmission; `stop == false` keeps the bus for a repeated start).

 `Parse` recovers the transactions of a trace and `Serialize` writes them
 back; the two are inverse to each other, so a statement about the
 transactions of a trace is a statement about the trace itself.
 */
module Bus {
  import opened Wrappers

  datatype Event = Begin(addr: bv8) | Write(b: bv8) | End(stop: bool)

  type Trace = seq<Event>

  /** One transaction: the device address, the bytes queued, and how it closed. */
  datatype Txn = Txn(addr: bv8, bytes: seq<bv8>, stop: bool)

  /** The size of the bus adapter's transmit buffer (Wire's BUFFER_LENGTH, assumed 32). */
  const BufferLength: nat := 32

  lemma Assoc(a: Trace, b: Trace, c: Trace)
    ensures a + b + c == a + (b + c)
  {
  }

  /** One `Write` event per byte, in order. */
  function Writes(bs: seq<bv8>): (t: Trace)
    ensures |t| == |bs|
  {
    seq(|bs|, i requires 0 <= i < |bs| => Write(bs[i]))
  }

  lemma WritesAppend(a: seq<bv8>, b: seq<bv8>)
    ensures Writes(a + b) == Writes(a) + Writes(b)
  {
  }

  /** The events of a list of transactions, one after another. */
  function Serialize(ts: seq<Txn>): Trace
  {
    if |ts| == 0 then []
    else [Begin(ts[0].addr)] + Writes(ts[0].bytes) + [End(ts[0].stop)] + Serialize(ts[1..])
  }

  lemma SerializeOne(txn: Txn)
    ensures Serialize([txn]) == [Begin(txn.addr)] + Writes(txn.bytes) + [End(txn.stop)]
  {
    assert [txn][1..] == [];
  }

  /** The longest prefix of `Write` events, as bytes, and what follows it. */
  function SplitWrites(t: Trace): (r: (seq<bv8>, Trace))
    ensures Writes(r.0) + r.1 == t
    ensures |r.1| > 0 ==> !r.1[0].Write?
    decreases |t|
  {
    if |t| > 0 && t[0].Write? then
      var (bs, rest) := SplitWrites(t[1..]);
      ([t[0].b] + bs, rest)
    else ([], t)
  }

  /** The transactions of a trace, or None if it is not a sequence of complete transactions. */
  function Parse(t: Trace): Option<seq<Txn>>
    decreases |t|
  {
    if |t| == 0 then Some([])
    else if !t[0].Begin? then None
    else
      var (bs, rest) := SplitWrites(t[1..]);
      if |rest| == 0 || !rest[0].End? then None
      else
        match Parse(rest[1..])
        case None => None
        case Some(ts) => Some([Txn(t[0].addr, bs, rest[0].stop)] + ts)
  }

  lemma {:induction false} SplitWritesOf(bs: seq<bv8>, rest: Trace)
    requires |rest| > 0 ==> !rest[0].Write?
    ensures SplitWrites(Writes(bs) + rest) == (bs, rest)
    decreases |bs|
  {
    if |bs| > 0 {
      var t := Writes(bs) + rest;
      assert t[1..] == Writes(bs[1..]) + rest;
      SplitWritesOf(bs[1..], rest);
      assert [bs[0]] + bs[1..] == bs;
    } else {
      assert Writes(bs) + rest == rest;
    }
  }

  /** Parsing what was serialized gives back the transactions. */
  lemma {:induction false} ParseSerialize(ts: seq<Txn>)
    ensures Parse(Serialize(ts)) == Some(ts)
    decreases |ts|
  {
    if |ts| > 0 {
      var t := Serialize(ts);
      var tail := [End(ts[0].stop)] + Serialize(ts[1..]);
      assert t == [Begin(ts[0].addr)] + (Writes(ts[0].bytes) + tail);
      assert t[1..] == Writes(ts[0].bytes) + tail;
      SplitWritesOf(ts[0].bytes, tail);
      assert tail[1..] == Serialize(ts[1..]);
      ParseSerialize(ts[1..]);
      assert [ts[0]] + ts[1..] == ts;
    }
  }

  /** A trace that parses is exactly the serialization of its transactions. */
  lemma {:induction false} SerializeParse(t: Trace)
    requires Parse(t).Some?
    ensures Serialize(Parse(t).value) == t
    decreases |t|
  {
    if |t| > 0 {
      var (bs, rest) := SplitWrites(t[1..]);
      var ts := Parse(rest[1..]).value;
      var txn := Txn(t[0].addr, bs, rest[0].stop);
      assert Parse(t).value == [txn] + ts;
      SerializeParse(rest[1..]);
      assert Serialize([txn] + ts) == [Begin(txn.addr)] + Writes(bs) + [End(txn.stop)] + Serialize(ts) by {
        assert ([txn] + ts)[0] == txn && ([txn] + ts)[1..] == ts;
      }
      assert [End(txn.stop)] + Serialize(ts) == rest by {
        assert rest == [rest[0]] + rest[1..];
      }
      Assoc([Begin(txn.addr)] + Writes(bs), [End(txn.stop)], Serialize(ts));
      Assoc([Begin(txn.addr)], Writes(bs), rest);
      assert t == [t[0]] + t[1..];
    }
  }

  lemma {:induction false} SerializeAppend(a: seq<Txn>, b: seq<Txn>)
    ensures Serialize(a + b) == Serialize(a) + Serialize(b)
    decreases |a|
  {
    if |a| > 0 {
      assert (a + b)[1..] == a[1..] + b;
      SerializeAppend(a[1..], b);
    } else {
      assert a + b == b;
    }
  }

  /** Traces that parse can be concatenated, and their transactions are concatenated too. */
  lemma ParseAppend(a: Trace, b: Trace)
    requires Parse(a).Some? && Parse(b).Some?
    ensures Parse(a + b) == Some(Parse(a).value + Parse(b).value)
  {
    SerializeParse(a);
    SerializeParse(b);
    SerializeAppend(Parse(a).value, Parse(b).value);
    ParseSerialize(Parse(a).value + Parse(b).value);
  }

  /** All bytes queued by a list of transactions, in order. */
  function Payload(ts: seq<Txn>): seq<bv8>
  {
    if |ts| == 0 then [] else ts[0].bytes + Payload(ts[1..])
  }
}
