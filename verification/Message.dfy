/** The wire format of an RPC message: two bytes of magic, two lengths, header bytes, body bytes. */
module Message {
  import opened Options

  type Byte = x: int | 0 <= x < 256
  type Bytes = seq<Byte>

  const U32 := 0x1_0000_0000
  const MAGIC := 0x1234
  const PREFIX := 10
  const NO_COMPRESSION := 0

  function BE2(n: int): (r: Bytes)
    requires 0 <= n < 0x1_0000
    ensures |r| == 2
  {
    [n / 256, n % 256]
  }

  function BE4(n: int): (r: Bytes)
    requires 0 <= n < U32
    ensures |r| == 4
  {
    [n / 0x100_0000, n / 0x1_0000 % 256, n / 0x100 % 256, n % 256]
  }

  function Int2(b: Bytes): (n: int)
    requires |b| == 2
    ensures 0 <= n < 0x1_0000
  {
    b[0] as int * 256 + b[1]
  }

  /** `DecodeHeaderLen` and `DecodeBodyLen`. */
  function Int4(b: Bytes): (n: int)
    requires |b| == 4
    ensures 0 <= n < U32
  {
    ((b[0] as int * 256 + b[1]) * 256 + b[2]) * 256 + b[3]
  }

  lemma BE4Digits(n: int)
    requires 0 <= n < U32
    ensures n / 0x100_0000 * 256 + n / 0x1_0000 % 256 == n / 0x1_0000
    ensures n / 0x1_0000 * 256 + n / 0x100 % 256 == n / 0x100
    ensures n / 0x100 * 256 + n % 256 == n
  {
  }

  lemma Int4BE4(n: int)
    requires 0 <= n < U32
    ensures Int4(BE4(n)) == n
  {
    BE4Digits(n);
  }

  /** The bytes that `copy(buf[at:], bytes)` leaves in `buf`. */
  function Put(buf: Bytes, at: int, bytes: Bytes): (r: Bytes)
    requires 0 <= at <= |buf|
    ensures |r| == |buf|
    ensures forall i :: 0 <= i < |buf| ==> r[i] == if at <= i < at + |bytes| then bytes[i - at] else buf[i]
  {
    seq(|buf|, i requires 0 <= i < |buf| => if at <= i < at + |bytes| then bytes[i - at] else buf[i])
  }

  function Zeros(n: nat): (r: Bytes)
    ensures |r| == n
  {
    seq(n, _ => 0)
  }

  function Prefix(h: int, b: int): (r: Bytes)
    requires 0 <= h < U32 && 0 <= b < U32
    ensures |r| == PREFIX
  {
    BE2(MAGIC) + BE4(h) + BE4(b)
  }

  /** The buffer `Encode` fills, with its 32-bit lengths; `None` where a slice bound is out of range. */
  function Frame(h: Bytes, b: Bytes): (r: Option<Bytes>)
    ensures r.Some? ==> PREFIX <= |r.value| < U32
  {
    var hl, bl := |h| % U32, |b| % U32;
    var total, at := (PREFIX + hl + bl) % U32, (PREFIX + hl) % U32;
    if total < PREFIX || total < at then None
    else Some(Put(Put(Prefix(hl, bl) + Zeros(total - PREFIX), PREFIX, h), at, b))
  }

  /** Overwriting the tail of a zeroed buffer in two goes. */
  lemma PutBoth(p: Bytes, h: Bytes, b: Bytes)
    ensures Put(Put(p + Zeros(|h| + |b|), |p|, h), |p| + |h|, b) == p + h + b
  {
  }

  /** Within 32 bits the frame is the prefix and the two parts. */
  lemma FrameFits(h: Bytes, b: Bytes)
    requires PREFIX + |h| + |b| < U32
    ensures Frame(h, b) == Some(Prefix(|h|, |b|) + h + b)
  {
    hide Put, Prefix, Zeros;
    PutBoth(Prefix(|h|, |b|), h, b);
  }

  lemma Slices(p: Bytes, h: Bytes, b: Bytes)
    ensures var data := p + h + b;
      data[|p|..|p| + |h|] == h && data[|p| + |h|..] == b && data[|p| + |h|..|data|] == b
  {
  }

  /** The total length that the first ten bytes announce. */
  function Announced(data: Bytes): (n: int)
    requires PREFIX <= |data|
    ensures PREFIX <= n
  {
    PREFIX + Int4(data[2..6]) + Int4(data[6..10])
  }

  lemma PrefixRead(h: int, b: int, rest: Bytes)
    requires 0 <= h < U32 && 0 <= b < U32
    ensures var data := Prefix(h, b) + rest;
      Int2(data[..2]) == MAGIC && Int4(data[2..6]) == h && Int4(data[6..10]) == b
  {
    var data := Prefix(h, b) + rest;
    assert data[..2] == BE2(MAGIC) && data[2..6] == BE4(h) && data[6..10] == BE4(b);
    Int4BE4(h);
    Int4BE4(b);
  }

  /** Reading back a frame that fits. */
  lemma FrameRead(h: Bytes, b: Bytes)
    requires PREFIX + |h| + |b| < U32
    ensures var data := Prefix(|h|, |b|) + h + b;
      && Int2(data[..2]) == MAGIC && Int4(data[2..6]) == |h| && Int4(data[6..10]) == |b|
      && data[PREFIX..PREFIX + |h|] == h && data[PREFIX + |h|..|data|] == b
  {
    hide Prefix, Int4;
    var p := Prefix(|h|, |b|);
    PrefixRead(|h|, |b|, h + b);
    assert p + (h + b) == p + h + b;
    Slices(p, h, b);
  }

  datatype Fault = NoHeader | TooShort | BadMagic | Incomplete | BadCodec

  datatype Outcome<T> = Ok(value: T) | Failed(fault: Fault) | Crash

  /** The header codec and the compressors, by kind. */
  datatype Codec<!H> = Codec(
    marshal: H -> Option<Bytes>, unmarshal: Bytes -> Option<H>,
    kind: H -> nat, compress: (nat, Bytes) -> Option<Bytes>, decompress: (nat, Bytes) -> Option<Bytes>)

  /** What `Encode` and `Decode` count on. */
  ghost predicate Faithful<H(!new)>(c: Codec<H>) {
    && (forall h :: c.marshal(h).Some? ==> c.unmarshal(c.marshal(h).value) == Some(h))
    && (forall k, b :: c.compress(k, b).Some? ==> c.decompress(k, c.compress(k, b).value) == Some(b))
  }

  datatype Message<H> = Message(header: Option<H>, body: Bytes)

  function BodyBytes<H>(c: Codec<H>, h: H, body: Bytes): Option<Bytes> {
    if c.kind(h) != NO_COMPRESSION then c.compress(c.kind(h), body) else Some(body)
  }

  function Encoded<H>(c: Codec<H>, m: Message<H>): (r: Outcome<Bytes>)
    ensures r.Ok? ==> PREFIX <= |r.value| < U32
  {
    if m.header == None then Failed(NoHeader)
    else
      var b := BodyBytes(c, m.header.value, m.body);
      if b == None then Failed(BadCodec)
      else
        var h := c.marshal(m.header.value);
        if h == None then Failed(BadCodec)
        else
          match Frame(h.value, b.value)
          case Some(data) => Ok(data)
          case None => Crash
  }

  /** Copies as much as fits, as Go's `copy` does. */
  method Copy(buf: array<Byte>, at: nat, bytes: Bytes)
    requires at <= buf.Length
    modifies buf
    ensures buf[..] == Put(old(buf[..]), at, bytes)
  {
    var n := if buf.Length - at < |bytes| then buf.Length - at else |bytes|;
    for i := 0 to n
      invariant forall k :: 0 <= k < buf.Length ==>
        buf[k] == if at <= k < at + i then bytes[k - at] else old(buf[k])
    {
      buf[at + i] := bytes[i];
    }
  }

  method Encode<H>(c: Codec<H>, m: Message<H>) returns (r: Outcome<Bytes>)
    ensures r == Encoded(c, m)
  {
    if m.header == None {
      return Failed(NoHeader);
    }
    var bodyBytes := Some(m.body);
    if c.kind(m.header.value) != NO_COMPRESSION {
      bodyBytes := c.compress(c.kind(m.header.value), m.body);
      if bodyBytes == None {
        return Failed(BadCodec);
      }
    }
    var headerBytes := c.marshal(m.header.value);
    if headerBytes == None {
      return Failed(BadCodec);
    }
    var headerLen, bodyLen := |headerBytes.value| % U32, |bodyBytes.value| % U32;
    var total := (PREFIX + headerLen + bodyLen) % U32;
    if total < PREFIX || total < (PREFIX + headerLen) % U32 {
      return Crash;
    }
    var buf := new Byte[total](_ => 0);
    Copy(buf, 0, BE2(MAGIC));
    Copy(buf, 2, BE4(headerLen));
    Copy(buf, 6, BE4(bodyLen));
    assert buf[..] == Prefix(headerLen, bodyLen) + Zeros(total - PREFIX);
    Copy(buf, 10, headerBytes.value);
    Copy(buf, (PREFIX + headerLen) % U32, bodyBytes.value);
    return Ok(buf[..]);
  }

  /** `Decode`; slice bounds are computed in 32 bits, the length test is not. */
  function Decode<H>(c: Codec<H>, data: Bytes): Outcome<Message<H>> {
    if |data| < PREFIX then Failed(TooShort)
    else if Int2(data[..2]) != MAGIC then Failed(BadMagic)
    else if |data| < Announced(data) then Failed(Incomplete)
    else
      var lo := (PREFIX + Int4(data[2..6])) % U32;
      var hi := Announced(data) % U32;
      if lo < PREFIX then Crash
      else
        var header := c.unmarshal(data[PREFIX..lo]);
        if header == None then Failed(BadCodec)
        else if hi < lo then Crash
        else if c.kind(header.value) == NO_COMPRESSION then Ok(Message(header, data[lo..hi]))
        else
          var body := c.decompress(c.kind(header.value), data[lo..hi]);
          if body == None then Failed(BadCodec) else Ok(Message(header, body.value))
  }

  /** The two byte strings that a frame carries, if it is whole. */
  function Carried(data: Bytes): Option<(Bytes, Bytes)> {
    if |data| < PREFIX || |data| < Announced(data) then None
    else
      var lo := PREFIX + Int4(data[2..6]);
      Some((data[PREFIX..lo], data[lo..Announced(data)]))
  }

  /** A frame carries what was put in exactly when its length fits 32 bits. */
  lemma FrameCarriesIff(h: Bytes, b: Bytes)
    ensures (Frame(h, b).Some? && Carried(Frame(h, b).value) == Some((h, b))) <==> PREFIX + |h| + |b| < U32
  {
    hide Prefix, Int4, Int2;
    if PREFIX + |h| + |b| < U32 {
      FrameFits(h, b);
      FrameRead(h, b);
    }
    hide Frame;
  }

  /** Ten bytes short of 2^32 a body makes a frame that cannot be built; at 2^32 it comes out empty. */
  lemma FrameOverflows()
    ensures Frame([], Zeros(U32 - PREFIX)) == None
    ensures var f := Frame([], Zeros(U32)); f.Some? && Carried(f.value) == Some(([], []))
  {
    var p := Prefix(0, 0);
    assert Put(Put(p + Zeros(0), PREFIX, []), PREFIX, Zeros(U32)) == p;
    PrefixRead(0, 0, []);
    assert p + [] == p;
    hide Prefix, Int4, Put;
    assert p[PREFIX..PREFIX] == [];
  }

  /** The header marshals, the body compresses, and the frame stays within 32 bits. */
  ghost predicate Fits<H>(c: Codec<H>, m: Message<H>) {
    && m.header.Some? && c.marshal(m.header.value).Some? && BodyBytes(c, m.header.value, m.body).Some?
    && PREFIX + |c.marshal(m.header.value).value| + |BodyBytes(c, m.header.value, m.body).value| < U32
  }

  /** Encoding and decoding again gives the message back. */
  lemma DecodeEncoded<H(!new)>(c: Codec<H>, m: Message<H>)
    requires Faithful(c) && Fits(c, m)
    ensures Encoded(c, m).Ok? && Decode(c, Encoded(c, m).value) == Ok(m)
    ensures Announced(Encoded(c, m).value) == |Encoded(c, m).value|
  {
    hide Prefix, Int4, Int2, Frame;
    var h, b := c.marshal(m.header.value).value, BodyBytes(c, m.header.value, m.body).value;
    FrameFits(h, b);
    FrameRead(h, b);
  }

  /** Exactly when `Encode` gives up, and why: no header, or a body or a header that cannot be encoded. */
  lemma EncodeRejectsIff<H>(c: Codec<H>, m: Message<H>)
    ensures Encoded(c, m) == Failed(NoHeader) <==> m.header == None
    ensures Encoded(c, m) == Failed(BadCodec) <==>
      m.header.Some? &&
      ((c.kind(m.header.value) != 0 && c.compress(c.kind(m.header.value), m.body) == None)
       || c.marshal(m.header.value) == None)
    ensures Fits(c, m) ==> Encoded(c, m).Ok?
  {
    hide Prefix, Put;
    if Fits(c, m) {
      FrameFits(c.marshal(m.header.value).value, BodyBytes(c, m.header.value, m.body).value);
    }
  }

  /** The length that four bytes spell, most significant byte first. */
  function LengthAt(data: Bytes, i: nat): int
    requires i + 4 <= |data|
  {
    data[i] as int * 0x100_0000 + data[i + 1] as int * 0x1_0000 + data[i + 2] as int * 0x100 + data[i + 3] as int
  }

  /** What the first ten bytes are: the magic value 0x1234 and the two lengths. */
  lemma PrefixBytes<H>(c: Codec<H>, m: Message<H>)
    requires Fits(c, m)
    ensures Encoded(c, m).Ok?
    ensures var data := Encoded(c, m).value;
      && data[0] == 0x12 && data[1] == 0x34
      && LengthAt(data, 2) == |c.marshal(m.header.value).value|
      && LengthAt(data, 6) == |BodyBytes(c, m.header.value, m.body).value|
      && |data| == 10 + LengthAt(data, 2) + LengthAt(data, 6)
  {
    hide Frame, Int4, Prefix, BE4, LengthAt;
    var h, b := c.marshal(m.header.value).value, BodyBytes(c, m.header.value, m.body).value;
    FrameFits(h, b);
    FrameRead(h, b);
    var data := Prefix(|h|, |b|) + h + b;
    LengthIs(data, 2);
    LengthIs(data, 6);
    PrefixMagic(|h|, |b|);
  }

  lemma PrefixMagic(h: int, b: int)
    requires 0 <= h < U32 && 0 <= b < U32
    ensures Prefix(h, b)[0] == 0x12 && Prefix(h, b)[1] == 0x34
  {
  }

  lemma LengthIs(data: Bytes, i: nat)
    requires i + 4 <= |data|
    ensures Int4(data[i..i + 4]) == LengthAt(data, i)
  {
  }

  /** Exactly when `Decode` rejects its input, and why. */
  lemma DecodeRejectsIff<H>(c: Codec<H>, data: Bytes)
    ensures Decode(c, data) == Failed(TooShort) <==> |data| < 10
    ensures Decode(c, data) == Failed(BadMagic) <==> |data| >= 10 && !(data[0] == 0x12 && data[1] == 0x34)
    ensures Decode(c, data) == Failed(Incomplete) <==>
      && |data| >= 10 && data[0] == 0x12 && data[1] == 0x34
      && |data| < 10 + LengthAt(data, 2) + LengthAt(data, 6)
    ensures Decode(c, data) != Failed(NoHeader)
  {
    hide Int4;
    if |data| >= PREFIX {
      assert Int2(data[..2]) == MAGIC <==> data[0] == 0x12 && data[1] == 0x34;
      LengthIs(data, 2);
      LengthIs(data, 6);
    }
  }

  /** And what it gives otherwise, if the announced length stays below 2^32: the header bytes and the body bytes
      that follow the prefix, decoded; bytes beyond the announced length do not matter. */
  lemma DecodeAcceptsIff<H>(c: Codec<H>, data: Bytes, m: Message<H>)
    requires |data| >= 10 && data[0] == 0x12 && data[1] == 0x34
    requires 10 + LengthAt(data, 2) + LengthAt(data, 6) < U32
    ensures Decode(c, data) == Ok(m) <==>
      var h, b := LengthAt(data, 2), LengthAt(data, 6);
      && 10 + h + b <= |data| && m.header.Some?
      && c.unmarshal(data[10..10 + h]) == m.header
      && var body := data[10 + h..10 + h + b];
         if c.kind(m.header.value) == 0 then m.body == body
         else c.decompress(c.kind(m.header.value), body) == Some(m.body)
  {
    hide Int4;
    assert Int2(data[..2]) == MAGIC;
    LengthIs(data, 2);
    LengthIs(data, 6);
  }
}
