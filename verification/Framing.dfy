/** Cutting a byte stream into packets, whatever chunks it arrives in. */
module Framing {
  import opened Options
  import opened Message

  /** The first whole packet, if it has arrived. */
  function First(buf: Bytes): (r: Option<nat>)
    ensures r.Some? ==> PREFIX <= r.value <= |buf|
  {
    if |buf| < PREFIX || |buf| < Announced(buf) then None else Some(Announced(buf))
  }

  /** All whole packets at once, and what is left over. */
  function Drain(buf: Bytes): (seq<Bytes>, Bytes)
    decreases |buf|
  {
    match First(buf)
    case None => ([], buf)
    case Some(n) =>
      var (ps, rest) := Drain(buf[n..]);
      ([buf[..n]] + ps, rest)
  }

  lemma Assoc<T>(a: seq<T>, b: seq<T>, c: seq<T>)
    ensures a + b + c == a + (b + c)
  {
  }

  lemma DrainUnfold(buf: Bytes)
    ensures Drain(buf) == match First(buf)
      case None => ([], buf)
      case Some(n) => ([buf[..n]] + Drain(buf[n..]).0, Drain(buf[n..]).1)
  {
  }

  /** The packets and the leftover are the whole input, and no packet is left over. */
  lemma {:induction false} DrainParts(buf: Bytes)
    ensures var (ps, rest) := Drain(buf); Flat(ps) + rest == buf && First(rest) == None
    decreases |buf|
  {
    hide Drain, First, Flat;
    DrainUnfold(buf);
    if First(buf) == None {
      FlatNil();
      assert [] + buf == buf;
    } else {
      var n := First(buf).value;
      DrainParts(buf[n..]);
      FlatCons(buf[..n], Drain(buf[n..]).0);
      Assoc(buf[..n], Flat(Drain(buf[n..]).0), Drain(buf[n..]).1);
    }
  }

  lemma FlatNil()
    ensures Flat([]) == []
  {
  }

  function Flat(ps: seq<Bytes>): Bytes {
    if ps == [] then [] else ps[0] + Flat(ps[1..])
  }

  lemma FlatCons(p: Bytes, ps: seq<Bytes>)
    ensures Flat([p] + ps) == p + Flat(ps)
  {
    assert ([p] + ps)[1..] == ps;
  }

  lemma {:induction false} FlatConcat(ps: seq<Bytes>, qs: seq<Bytes>)
    ensures Flat(ps + qs) == Flat(ps) + Flat(qs)
  {
    if ps == [] {
      assert ps + qs == qs;
    } else {
      FlatConcat(ps[1..], qs);
      assert (ps + qs)[1..] == ps[1..] + qs;
      Assoc(ps[0], Flat(ps[1..]), Flat(qs));
    }
  }

  /** More bytes do not change a packet that is already whole. */
  lemma FirstStays(a: Bytes, b: Bytes)
    requires First(a).Some?
    ensures First(a + b) == First(a)
  {
    assert (a + b)[2..6] == a[2..6] && (a + b)[6..10] == a[6..10];
  }

  /** Draining early and going on with the rest is draining everything. */
  lemma {:induction false} DrainConcat(a: Bytes, b: Bytes)
    ensures Drain(a + b) == (Drain(a).0 + Drain(Drain(a).1 + b).0, Drain(Drain(a).1 + b).1)
    decreases |a|
  {
    match First(a)
    case None =>
      assert [] + Drain(a + b).0 == Drain(a + b).0;
    case Some(n) =>
      FirstStays(a, b);
      assert (a + b)[n..] == a[n..] + b && (a + b)[..n] == a[..n];
      DrainConcat(a[n..], b);
      Assoc([a[..n]], Drain(a[n..]).0, Drain(Drain(a[n..]).1 + b).0);
  }

  class PacketBuffer {
    var buf: Bytes

    constructor ()
      ensures buf == []
    {
      buf := [];
    }

    method Write(data: Bytes)
      modifies this
      ensures buf == old(buf) + data
    {
      buf := buf + data;
    }

    /** The packet in front, if it is whole; nothing moves otherwise. */
    method Read() returns (packet: Option<Bytes>)
      modifies this
      ensures (packet, buf) == ReadFrom(old(buf))
    {
      if |buf| < PREFIX {
        return None;
      }
      var headerLen := Int4(buf[2..6]);
      var bodyLen := Int4(buf[6..10]);
      var totalLen := PREFIX + headerLen + bodyLen;
      if |buf| < totalLen {
        return None;
      }
      packet := Some(buf[..totalLen]);
      buf := buf[totalLen..];
    }
  }

  function ReadFrom(buf: Bytes): (Option<Bytes>, Bytes) {
    match First(buf)
    case None => (None, buf)
    case Some(n) => (Some(buf[..n]), buf[n..])
  }

  /** One call on the buffer. */
  datatype Call = Write(data: Bytes) | Read

  /** Buffer contents, packets returned and bytes written after a run of calls. */
  datatype Trace = Trace(buf: Bytes, packets: seq<Bytes>, written: Bytes)

  function Step(t: Trace, c: Call): Trace {
    match c
    case Write(data) => t.(buf := t.buf + data, written := t.written + data)
    case Read =>
      var (p, rest) := ReadFrom(t.buf);
      if p == None then t else t.(buf := rest, packets := t.packets + [p.value])
  }

  function Calls(cs: seq<Call>): Trace
    decreases |cs|
  {
    if cs == [] then Trace([], [], []) else Step(Calls(cs[..|cs| - 1]), cs[|cs| - 1])
  }

  /** Draining everything written gives the packets read so far, then those still in the buffer. */
  ghost predicate OnTrack(t: Trace) {
    && Flat(t.packets) + t.buf == t.written
    && Drain(t.written) == (t.packets + Drain(t.buf).0, Drain(t.buf).1)
  }

  lemma OnTrackWrite(t: Trace, data: Bytes)
    requires OnTrack(t)
    ensures OnTrack(Step(t, Write(data)))
  {
    hide Drain;
    DrainConcat(t.written, data);
    DrainConcat(t.buf, data);
    Assoc(t.packets, Drain(t.buf).0, Drain(Drain(t.buf).1 + data).0);
    Assoc(Flat(t.packets), t.buf, data);
  }

  lemma OnTrackRead(t: Trace)
    requires OnTrack(t)
    ensures OnTrack(Step(t, Read))
  {
    hide Drain, First, Flat;
    if First(t.buf).Some? {
      var p, rest := t.buf[..First(t.buf).value], t.buf[First(t.buf).value..];
      DrainUnfold(t.buf);
      Assoc(t.packets, [p], Drain(rest).0);
      FlatConcat(t.packets, [p]);
      FlatOne(p);
      Assoc(Flat(t.packets), p, rest);
      assert p + rest == t.buf;
    }
  }

  lemma FlatOne(p: Bytes)
    ensures Flat([p]) == p
  {
    assert Flat([p]) == p + [];
  }

  /** Nothing is lost, invented or reordered, and the packets are those of the one-shot parser. */
  lemma {:induction false} CallsOnTrack(cs: seq<Call>)
    ensures OnTrack(Calls(cs))
    decreases |cs|
  {
    if cs == [] {
      assert Flat([]) + [] == [];
    } else {
      CallsOnTrack(cs[..|cs| - 1]);
      var t := Calls(cs[..|cs| - 1]);
      match cs[|cs| - 1]
      case Write(data) => OnTrackWrite(t, data);
      case Read => OnTrackRead(t);
    }
  }

  /** Reading until nothing is left returns what the one-shot parser returns. */
  lemma CallsDrained(cs: seq<Call>)
    requires First(Calls(cs).buf) == None
    ensures Drain(Calls(cs).written) == (Calls(cs).packets, Calls(cs).buf)
  {
    CallsOnTrack(cs);
    hide Calls;
    assert Calls(cs).packets + [] == Calls(cs).packets;
  }

  /** Two runs that wrote the same bytes and read until nothing was left returned the same packets. */
  lemma ChunksDoNotMatter(cs: seq<Call>, ds: seq<Call>)
    requires Calls(cs).written == Calls(ds).written
    requires First(Calls(cs).buf) == None && First(Calls(ds).buf) == None
    ensures Calls(cs).packets == Calls(ds).packets && Calls(cs).buf == Calls(ds).buf
  {
    CallsDrained(cs);
    CallsDrained(ds);
  }

  /** A packet is returned no later than the read after its last byte. */
  lemma ReadyPacketComesOut(cs: seq<Call>, k: nat)
    requires k == |Calls(cs).packets| && k < |Drain(Calls(cs).written).0|
    ensures Calls(cs + [Read]).packets == Calls(cs).packets + [Drain(Calls(cs).written).0[k]]
  {
    CallsOnTrack(cs);
    assert (cs + [Read])[..|cs|] == cs;
  }

  lemma CutFront(a: Bytes, b: Bytes)
    requires First(a).Some?
    ensures var n := First(a).value; First(a + b) == Some(n) && (a + b)[..n] == a[..n] && (a + b)[n..] == a[n..] + b
  {
    FirstStays(a, b);
  }

  /** A connection: the buffer, and the reads its socket will still deliver before it fails. */
  class Connection {
    const buffer: PacketBuffer
    var incoming: seq<Bytes>

    constructor (incoming: seq<Bytes>)
      ensures this.incoming == incoming && buffer.buf == [] && fresh(buffer)
    {
      this.incoming := incoming;
      this.buffer := new PacketBuffer();
    }

    /** Everything received and not yet handed out. */
    ghost function Stream(): Bytes
      reads this, buffer
    {
      buffer.buf + Flat(incoming)
    }

    /** The next packet of the stream, decoded; `None` when the socket fails first. */
    method ReadMessage<H>(c: Codec<H>) returns (m: Option<Outcome<Message<H>>>)
      modifies this, buffer
      ensures match First(old(Stream()))
        case Some(n) => m == Some(Decode(c, old(Stream())[..n])) && Stream() == old(Stream())[n..]
        case None => m == None && Stream() == old(Stream()) && incoming == []
    {
      hide First, Decode;
      while true
        invariant Stream() == old(Stream())
        decreases |incoming|
      {
        ghost var buf := buffer.buf;
        var packet := buffer.Read();
        if packet.Some? {
          CutFront(buf, Flat(incoming));
          return Some(Decode(c, packet.value));
        }
        if incoming == [] {
          assert buf + [] == buf;
          return None;
        }
        var tmp := incoming[0];
        incoming := incoming[1..];
        if |tmp| > 0 {
          buffer.Write(tmp);
        }
        Assoc(buf, tmp, Flat(incoming));
        assert |tmp| == 0 ==> buf + tmp == buf;
      }
    }
  }

  /** The encodings of the messages, one after the other. */
  function Encodings<H>(c: Codec<H>, ms: seq<Message<H>>): seq<Bytes>
    requires forall i :: 0 <= i < |ms| ==> Encoded(c, ms[i]).Ok?
  {
    seq(|ms|, i requires 0 <= i < |ms| => Encoded(c, ms[i]).value)
  }

  lemma FirstWhole(p: Bytes, rest: Bytes)
    requires PREFIX <= |p| == Announced(p)
    ensures First(p + rest) == Some(|p|)
  {
    FirstStays(p, rest);
  }

  lemma {:induction false} DrainWhole(ps: seq<Bytes>)
    requires forall i :: 0 <= i < |ps| ==> PREFIX <= |ps[i]| == Announced(ps[i])
    ensures Drain(Flat(ps)) == (ps, [])
  {
    if ps != [] {
      FirstWhole(ps[0], Flat(ps[1..]));
      assert Flat(ps)[..|ps[0]|] == ps[0] && Flat(ps)[|ps[0]|..] == Flat(ps[1..]);
      DrainWhole(ps[1..]);
      assert [ps[0]] + ps[1..] == ps;
    }
  }

  /** A stream of encoded messages, in whatever chunks it is written, drains to exactly those
      messages in order. */
  lemma StreamOfMessages<H(!new)>(c: Codec<H>, ms: seq<Message<H>>, cs: seq<Call>)
    requires Faithful(c) && forall i :: 0 <= i < |ms| ==> Fits(c, ms[i])
    requires forall i :: 0 <= i < |ms| ==> Encoded(c, ms[i]).Ok?
    requires Calls(cs).written == Flat(Encodings(c, ms)) && First(Calls(cs).buf) == None
    ensures Calls(cs).buf == [] && |Calls(cs).packets| == |ms|
    ensures forall i :: 0 <= i < |ms| ==> Decode(c, Calls(cs).packets[i]) == Ok(ms[i])
  {
    var ps := Encodings(c, ms);
    forall i | 0 <= i < |ms|
      ensures PREFIX <= |ps[i]| == Announced(ps[i]) && Decode(c, ps[i]) == Ok(ms[i])
    {
      DecodeEncoded(c, ms[i]);
    }
    DrainWhole(ps);
    CallsDrained(cs);
  }
}
