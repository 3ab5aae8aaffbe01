/** The framing of muduo/net/protobuf/ProtobufCodecLite.cc: length, tag, payload and checksum. The payload's
    serializer and the raw callback are parameters. */
module ProtobufCodec {
  import opened Machines
  import opened Streams
  import opened Buffers
  import Endian

  datatype ErrorCode = InvalidLength | CheckSumError | UnknownMessageType | ParseError

  datatype Parsed<+M> = Message(m: M) | Error(code: ErrorCode)

  /** `raw` tells whether a frame is to be parsed; a frame that is not is passed over. */
  datatype Codec<!M> = Codec(tag: Bytes, serialize: M -> Bytes, parsePayload: Bytes -> Option<M>, raw: Bytes -> bool)

  const HEADER_LEN: nat := 4
  const CHECKSUM_LEN: nat := 4
  const MAX_MESSAGE_LEN: nat := 64 * 1024 * 1024

  // ADLER32, section 2.2 of RFC 1950.

  const ADLER_BASE: nat := 65521

  function AdlerA(b: Bytes): (a: nat)
    ensures a < ADLER_BASE
  {
    if b == [] then 1 else (AdlerA(b[..|b| - 1]) + b[|b| - 1]) % ADLER_BASE
  }

  function AdlerB(b: Bytes): (s: nat)
    ensures s < ADLER_BASE
  {
    if b == [] then 0 else (AdlerB(b[..|b| - 1]) + AdlerA(b)) % ADLER_BASE
  }

  function Adler32(b: Bytes): nat {
    AdlerB(b) * 65536 + AdlerA(b)
  }

  lemma ChecksumFits(b: Bytes)
    ensures Adler32(b) < Endian.Power256(CHECKSUM_LEN)
    ensures Endian.Power256(4) == 0x1_0000_0000
  {
    assert Endian.Power256(1) == 256;
    assert Endian.Power256(2) == 65536;
    assert Endian.Power256(3) == 16777216;
  }

  /** `fillEmptyBuffer`. */
  function Body<M>(c: Codec<M>, m: M): Bytes {
    var data := c.tag + c.serialize(m);
    data + Endian.Encode(CHECKSUM_LEN, Adler32(data))
  }

  function Encode<M>(c: Codec<M>, m: M): Bytes
    requires |Body(c, m)| <= MAX_MESSAGE_LEN
  {
    LengthFits(|Body(c, m)|);
    Endian.EncodeInt(HEADER_LEN, |Body(c, m)|) + Body(c, m)
  }

  lemma LengthFits(n: nat)
    requires n <= MAX_MESSAGE_LEN
    ensures Endian.Fits(HEADER_LEN, n)
  {
    ChecksumFits([]);
  }

  /** `parse`, on what follows the length. */
  function Parse<M>(c: Codec<M>, body: Bytes): Parsed<M>
    requires |body| >= |c.tag| + CHECKSUM_LEN
  {
    var n := |body| - CHECKSUM_LEN;
    if Endian.Decode(body[n..]) != Adler32(body[..n]) then Error(CheckSumError)
    else if body[..|c.tag|] != c.tag then Error(UnknownMessageType)
    else match c.parsePayload(body[|c.tag|..n])
      case Some(m) => Message(m)
      case None => Error(ParseError)
  }

  function MinMessageLen<M>(c: Codec<M>): nat {
    |c.tag| + CHECKSUM_LEN
  }

  /** One round of the loop in `onMessage`; the state is the sequence of messages delivered. */
  function OneRound<M>(c: Codec<M>, s: seq<M>, buf: Bytes): Round<seq<M>> {
    if |buf| < MinMessageLen(c) + HEADER_LEN then Wait
    else
      var len := Endian.DecodeInt(buf[..HEADER_LEN]);
      if len > MAX_MESSAGE_LEN || len < MinMessageLen(c) then GiveUp
      else if |buf| < HEADER_LEN + len then Wait
      else if !c.raw(buf[..HEADER_LEN + len]) then Took(HEADER_LEN + len, s)
      else match Parse(c, buf[HEADER_LEN..HEADER_LEN + len])
        case Message(m) => Took(HEADER_LEN + len, s + [m])
        case Error(_) => GiveUp
  }

  function RoundOf<M>(c: Codec<M>): (seq<M>, Bytes) -> Round<seq<M>> {
    (s, buf) => OneRound(c, s, buf)
  }

  lemma RoundIsStable<M(!new)>(c: Codec<M>)
    ensures Stable(RoundOf(c))
  {
    forall s, a, b
      ensures StableAt(RoundOf(c), s, a, b)
    {
      hide Parse;
      if |a| >= MinMessageLen(c) + HEADER_LEN {
        assert (a + b)[..HEADER_LEN] == a[..HEADER_LEN];
        var len := Endian.DecodeInt(a[..HEADER_LEN]);
        if MinMessageLen(c) <= len <= |a| - HEADER_LEN {
          assert (a + b)[..HEADER_LEN + len] == a[..HEADER_LEN + len];
          assert (a + b)[HEADER_LEN..HEADER_LEN + len] == a[HEADER_LEN..HEADER_LEN + len];
        }
      }
    }
  }

  /** On arbitrary bytes, the messages delivered depend on the whole stream only, not on how it was cut. */
  lemma DeliveryIgnoresChunks<M(!new)>(c: Codec<M>, chunks: seq<Bytes>)
    ensures Receive(RoundOf(c), [], [], chunks) == Drain(RoundOf(c), [], Concat(chunks))
  {
    RoundIsStable(c);
    FromEmpty(RoundOf(c), [], chunks);
  }

  // Round trip.

  /** The message can be framed: its payload parses back, the frame is not too long, and the raw callback lets it
      pass. */
  predicate Framable<M(==)>(c: Codec<M>, m: M) {
    c.parsePayload(c.serialize(m)) == Some(m) && |Body(c, m)| <= MAX_MESSAGE_LEN && c.raw(Encode(c, m))
  }

  function EncodeOf<M(==)>(c: Codec<M>): M -> Bytes {
    m => if Framable(c, m) then Encode(c, m) else []
  }

  lemma ParseUndoesBody<M>(c: Codec<M>, m: M)
    requires c.parsePayload(c.serialize(m)) == Some(m)
    ensures |Body(c, m)| >= MinMessageLen(c) && Parse(c, Body(c, m)) == Message(m)
  {
    var data := c.tag + c.serialize(m);
    var body, n := Body(c, m), |data|;
    assert body[..n] == data && body[n..] == Endian.Encode(CHECKSUM_LEN, Adler32(data));
    ChecksumFits(data);
    Endian.DecodeEncode(CHECKSUM_LEN, Adler32(data));
    assert body[..|c.tag|] == c.tag;
    assert body[|c.tag|..n] == c.serialize(m);
  }

  lemma DecodesOne<M>(c: Codec<M>, s: seq<M>, m: M, rest: Bytes)
    requires Framable(c, m)
    ensures OneRound(c, s, Encode(c, m) + rest) == Took(|Encode(c, m)|, s + [m])
  {
    ParseUndoesBody(c, m);
    var body := Body(c, m);
    LengthFits(|body|);
    hide Parse, Body, Adler32;
    var head := Endian.EncodeInt(HEADER_LEN, |body|);
    Endian.PeekUndoesAppend(HEADER_LEN, |body|);
    var buf := Encode(c, m) + rest;
    assert buf[..HEADER_LEN] == head;
    assert buf[HEADER_LEN..HEADER_LEN + |body|] == body;
    assert buf[..HEADER_LEN + |body|] == Encode(c, m);
  }

  /** Any sequence of messages that were framed is delivered, in order and complete, whatever the chunks. */
  lemma MessagesArrive<M(!new)>(c: Codec<M>, ms: seq<M>, chunks: seq<Bytes>)
    requires (forall m :: m in ms ==> Framable(c, m)) && Concat(chunks) == Encoded(EncodeOf(c), ms)
    ensures Receive(RoundOf(c), [], [], chunks) == (ms, [])
  {
    DeliveryIgnoresChunks(c, chunks);
    var ok := (m: M) => Framable(c, m);
    forall s, m, rest | ok(m)
      ensures EncodeOf(c)(m) != [] && DecodesAt(RoundOf(c), EncodeOf(c), Deliver, s, m, rest)
    {
      DecodesOne(c, s, m, rest);
    }
    DecodeUndoesEncode(RoundOf(c), EncodeOf(c), Deliver, ok, [], ms);
    AllDelivered([], ms);
    assert [] + ms == ms;
  }

  // What is refused.

  /** Tag and payload with the checksum that belongs to them. */
  function Sealed(data: Bytes): Bytes {
    data + Endian.Encode(CHECKSUM_LEN, Adler32(data))
  }

  predicate StartsWith(data: Bytes, tag: Bytes) {
    |tag| <= |data| && data[..|tag|] == tag
  }

  /** Why the loop gives up on what is in the buffer, if it does. */
  function ErrorAt<M>(c: Codec<M>, buf: Bytes): Option<ErrorCode> {
    if |buf| < MinMessageLen(c) + HEADER_LEN then None
    else
      var len := Endian.DecodeInt(buf[..HEADER_LEN]);
      if len > MAX_MESSAGE_LEN || len < MinMessageLen(c) then Some(InvalidLength)
      else if |buf| < HEADER_LEN + len || !c.raw(buf[..HEADER_LEN + len]) then None
      else match Parse(c, buf[HEADER_LEN..HEADER_LEN + len])
        case Message(_) => None
        case Error(code) => Some(code)
  }

  /** The bytes split into what is summed and the sum: the sum is right exactly when they are sealed. */
  lemma SealedExactly(body: Bytes)
    requires |body| >= CHECKSUM_LEN
    ensures var n := |body| - CHECKSUM_LEN;
            Endian.Decode(body[n..]) == Adler32(body[..n]) <==> body == Sealed(body[..n])
  {
    var n := |body| - CHECKSUM_LEN;
    hide Adler32, Endian.Encode, Endian.Decode;
    ChecksumFits(body[..n]);
    Endian.DecodeEncode(CHECKSUM_LEN, Adler32(body[..n]));
    Endian.EncodeDecode(body[n..]);
    assert body == body[..n] + body[n..];
    assert Sealed(body[..n])[n..] == Endian.Encode(CHECKSUM_LEN, Adler32(body[..n]));
  }

  lemma SealedOnce(data: Bytes)
    ensures var body := Sealed(data);
            && |body| == |data| + CHECKSUM_LEN && body[..|data|] == data
            && Endian.Decode(body[|data|..]) == Adler32(data)
  {
    hide Adler32, Endian.Encode, Endian.Decode;
    ChecksumFits(data);
    Endian.DecodeEncode(CHECKSUM_LEN, Adler32(data));
    assert Sealed(data)[|data|..] == Endian.Encode(CHECKSUM_LEN, Adler32(data));
  }

  /** What the parser answers says what was in the frame, whatever it was. */
  lemma ParseDecides<M>(c: Codec<M>, body: Bytes)
    requires |body| >= MinMessageLen(c)
    ensures var data := body[..|body| - CHECKSUM_LEN];
            match Parse(c, body)
            case Message(m) =>
              && body == Sealed(data) && StartsWith(data, c.tag) && c.parsePayload(data[|c.tag|..]) == Some(m)
            case Error(CheckSumError) => forall d :: body != Sealed(d)
            case Error(UnknownMessageType) => body == Sealed(data) && !StartsWith(data, c.tag)
            case Error(ParseError) =>
              body == Sealed(data) && StartsWith(data, c.tag) && c.parsePayload(data[|c.tag|..]) == None
            case Error(InvalidLength) => false
  {
    var data := body[..|body| - CHECKSUM_LEN];
    SealedExactly(body);
    hide Adler32, Endian.Decode, Sealed;
    forall d | body == Sealed(d)
      ensures d == data
    {
      SealedOnce(d);
    }
    assert data[..|c.tag|] == body[..|c.tag|];
    assert data[|c.tag|..] == body[|c.tag|..|body| - CHECKSUM_LEN];
  }

  /** A length that no message has stops the loop, whatever comes after it. */
  lemma BadLengthStops<M>(c: Codec<M>, s: seq<M>, n: int, rest: Bytes)
    requires Endian.Fits(HEADER_LEN, n) && |rest| >= MinMessageLen(c)
    requires n < MinMessageLen(c) || n > MAX_MESSAGE_LEN
    ensures var buf := Endian.EncodeInt(HEADER_LEN, n) + rest;
            OneRound(c, s, buf) == GiveUp && ErrorAt(c, buf) == Some(InvalidLength)
  {
    hide Endian.EncodeInt, Endian.DecodeInt, Parse;
    Endian.PeekUndoesAppend(HEADER_LEN, n);
    assert (Endian.EncodeInt(HEADER_LEN, n) + rest)[..HEADER_LEN] == Endian.EncodeInt(HEADER_LEN, n);
  }

  /** The fate of a whole frame with an admissible length, from its bytes alone. */
  datatype Fate<+M> = PassedOver | Delivered(m: M) | Refused(code: ErrorCode)

  ghost predicate IsFateOf<M>(c: Codec<M>, head: Bytes, body: Bytes, f: Fate<M>) {
    match f
    case PassedOver => !c.raw(head + body)
    case Delivered(m) =>
      c.raw(head + body) && exists payload :: body == Sealed(c.tag + payload) && c.parsePayload(payload) == Some(m)
    case Refused(CheckSumError) => c.raw(head + body) && forall data :: body != Sealed(data)
    case Refused(UnknownMessageType) =>
      c.raw(head + body) && exists data :: body == Sealed(data) && !StartsWith(data, c.tag)
    case Refused(ParseError) =>
      c.raw(head + body) && exists payload :: body == Sealed(c.tag + payload) && c.parsePayload(payload) == None
    case Refused(InvalidLength) => false
  }

  /** What the loop does with a whole frame: passes over it, delivers its message, or stops before it with its error,
      having delivered nothing of it. */
  ghost predicate Meets<M>(c: Codec<M>, s: seq<M>, buf: Bytes, n: nat, f: Fate<M>) {
    match f
    case PassedOver => OneRound(c, s, buf) == Took(n, s) && ErrorAt(c, buf) == None
    case Delivered(m) => OneRound(c, s, buf) == Took(n, s + [m]) && ErrorAt(c, buf) == None
    case Refused(code) => ErrorAt(c, buf) == Some(code) && Drain(RoundOf(c), s, buf) == (s, buf)
  }

  function FateOf<M>(c: Codec<M>, head: Bytes, body: Bytes): Fate<M>
    requires |body| >= MinMessageLen(c)
  {
    if !c.raw(head + body) then PassedOver
    else match Parse(c, body)
      case Message(m) => Delivered(m)
      case Error(code) => Refused(code)
  }

  lemma FateIsMet<M>(c: Codec<M>, s: seq<M>, body: Bytes, rest: Bytes)
    requires MinMessageLen(c) <= |body| <= MAX_MESSAGE_LEN && Endian.Fits(HEADER_LEN, |body|)
    ensures var head := Endian.EncodeInt(HEADER_LEN, |body|);
            Meets(c, s, head + body + rest, HEADER_LEN + |body|, FateOf(c, head, body))
  {
    hide Parse, Endian.EncodeInt, Endian.DecodeInt;
    var head := Endian.EncodeInt(HEADER_LEN, |body|);
    Endian.PeekUndoesAppend(HEADER_LEN, |body|);
    var buf := head + body + rest;
    assert buf[..HEADER_LEN] == head;
    assert buf[HEADER_LEN..HEADER_LEN + |body|] == body;
    assert buf[..HEADER_LEN + |body|] == head + body;
  }

  lemma FateIsFrom<M>(c: Codec<M>, head: Bytes, body: Bytes)
    requires |body| >= MinMessageLen(c)
    ensures IsFateOf(c, head, body, FateOf(c, head, body))
  {
    ParseDecides(c, body);
    hide Parse, Sealed;
    var data := body[..|body| - CHECKSUM_LEN];
    assert StartsWith(data, c.tag) ==> data == c.tag + data[|c.tag|..];
  }

  /** The bytes of a frame decide what becomes of it. */
  lemma OnlyOneFate<M>(c: Codec<M>, head: Bytes, body: Bytes, f: Fate<M>, g: Fate<M>)
    requires IsFateOf(c, head, body, f) && IsFateOf(c, head, body, g)
    ensures f == g
  {
    hide Sealed;
    forall a, b | body == Sealed(a) && body == Sealed(b)
      ensures a == b
    {
      SealedOnce(a);
      SealedOnce(b);
    }
    forall payload
      ensures (c.tag + payload)[|c.tag|..] == payload && StartsWith(c.tag + payload, c.tag)
    {
    }
  }

  /** A whole frame with an admissible length: what the loop does with it is the fate its bytes have, and no other. */
  lemma FrameDecides<M>(c: Codec<M>, s: seq<M>, body: Bytes, rest: Bytes, f: Fate<M>)
    requires MinMessageLen(c) <= |body| <= MAX_MESSAGE_LEN && Endian.Fits(HEADER_LEN, |body|)
    requires IsFateOf(c, Endian.EncodeInt(HEADER_LEN, |body|), body, f)
    ensures Meets(c, s, Endian.EncodeInt(HEADER_LEN, |body|) + body + rest, HEADER_LEN + |body|, f)
  {
    hide Meets, IsFateOf, FateOf, Endian.EncodeInt;
    var head := Endian.EncodeInt(HEADER_LEN, |body|);
    FateIsMet(c, s, body, rest);
    FateIsFrom(c, head, body);
    OnlyOneFate(c, head, body, f, FateOf(c, head, body));
  }

  // One altered byte.

  lemma {:induction false} SumOfParts(a: Bytes, x: Byte, b: Bytes, y: Byte)
    requires x < y
    ensures AdlerA(a + [x] + b) != AdlerA(a + [y] + b)
    decreases |b|
  {
    if b == [] {
      assert a + [x] + b == a + [x] && a + [y] + b == a + [y];
      assert (a + [x])[..|a|] == a && (a + [y])[..|a|] == a;
      OneStep(AdlerA(a), AdlerA(a), x, y);
    } else {
      var front, last := b[..|b| - 1], b[|b| - 1];
      SumOfParts(a, x, front, y);
      assert (a + [x] + b)[..|a| + |b|] == a + [x] + front && (a + [y] + b)[..|a| + |b|] == a + [y] + front;
      OneStep(AdlerA(a + [x] + front), AdlerA(a + [y] + front), last, last);
    }
  }

  lemma OneStep(p: nat, q: nat, x: Byte, y: Byte)
    requires p < ADLER_BASE && q < ADLER_BASE && (p == q) != (x == y)
    ensures (p + x) % ADLER_BASE != (q + y) % ADLER_BASE
  {
  }

  lemma AlteredSum(data: Bytes, k: nat, x: Byte)
    requires k < |data| && x != data[k]
    ensures Adler32(data[k := x]) != Adler32(data)
  {
    hide AdlerA, AdlerB;
    var u, v := data[..k], data[k + 1..];
    assert data == u + [data[k]] + v && data[k := x] == u + [x] + v;
    if x < data[k] {
      SumOfParts(u, x, v, data[k]);
    } else {
      SumOfParts(u, data[k], v, x);
    }
    SumsDiffer(data, data[k := x]);
  }

  lemma SumsDiffer(a: Bytes, b: Bytes)
    ensures Adler32(a) == Adler32(b) ==> AdlerA(a) == AdlerA(b)
  {
    hide AdlerA, AdlerB;
  }

  lemma AlteredIsNotSealed(data: Bytes, d: Bytes, k: nat, x: Byte)
    requires k < |Sealed(data)| && x != Sealed(data)[k]
    ensures Sealed(data)[k := x] != Sealed(d)
  {
    SealedOnce(data);
    SealedOnce(d);
    hide Sealed, Adler32, Endian.Decode;
    var n, altered := |data|, Sealed(data)[k := x];
    if k < n {
      AlteredSum(data, k, x);
      assert altered[..n] == data[k := x] && altered[n..] == Sealed(data)[n..];
    } else {
      assert altered[..n] == data;
    }
  }

  /** A frame one byte of which was altered on the way, in its tag, its payload or its checksum, is delivered as no
      message: the loop stops with a checksum error. */
  lemma AlteredByteIsNoticed<M>(c: Codec<M>, s: seq<M>, m: M, k: nat, x: Byte, rest: Bytes)
    requires HEADER_LEN <= k < HEADER_LEN + |Body(c, m)| <= HEADER_LEN + MAX_MESSAGE_LEN && x != Encode(c, m)[k]
    requires c.raw(Encode(c, m)[k := x])
    ensures Meets(c, s, Encode(c, m)[k := x] + rest, |Encode(c, m)|, Refused(CheckSumError))
  {
    var data, body, i := c.tag + c.serialize(m), Body(c, m), k - HEADER_LEN;
    assert body == Sealed(data);
    LengthFits(|body|);
    var head := Endian.EncodeInt(HEADER_LEN, |body|);
    assert |head| == HEADER_LEN && Encode(c, m) == head + body;
    hide Sealed, Meets, Body, Endian.EncodeInt, Encode;
    forall d
      ensures body[i := x] != Sealed(d)
    {
      AlteredIsNotSealed(data, d, i, x);
    }
    assert Encode(c, m)[k := x] == head + body[i := x];
    FrameDecides(c, s, body[i := x], rest, Refused(CheckSumError));
  }

  // The methods.

  /** `fillEmptyBuffer`: the length goes in front last, into the room kept for it. */
  method FillEmptyBuffer<M>(c: Codec<M>, m: M, buf: Buffer)
    requires buf.Valid() && buf.Contents() == [] && buf.readerIndex >= HEADER_LEN && |Body(c, m)| <= MAX_MESSAGE_LEN
    modifies buf
    ensures buf.Valid() && buf.Contents() == Encode(c, m)
  {
    hide Adler32, Endian.Encode, Endian.EncodeInt;
    buf.Append(c.tag);
    assert buf.Contents() == c.tag;
    var payload := c.serialize(m);
    buf.Append(payload);
    var checkSum := Endian.Encode(CHECKSUM_LEN, Adler32(buf.Contents()));
    buf.Append(checkSum);
    assert buf.Contents() == Body(c, m);
    LengthFits(|buf.Contents()|);
    buf.PrependInt(HEADER_LEN, |buf.Contents()|);
  }

  lemma RoundSays<M>(c: Codec<M>, s: seq<M>, buf: Bytes)
    ensures match OneRound(c, s, buf)
            case Took(n, d) =>
              0 < n <= |buf| && Drain(RoundOf(c), s, buf) == Drain(RoundOf(c), d, buf[n..]) && ErrorAt(c, buf) == None
            case Wait => Drain(RoundOf(c), s, buf) == (s, buf) && ErrorAt(c, buf) == None
            case GiveUp => Drain(RoundOf(c), s, buf) == (s, buf) && ErrorAt(c, buf).Some?
  {
    hide Parse, Endian.DecodeInt;
  }

  /** `onMessage`: delivers what the loop delivers, and reports why it gave up if it did. */
  method OnMessage<M>(c: Codec<M>, buf: Buffer, delivered: seq<M>) returns (now: seq<M>, error: Option<ErrorCode>)
    requires buf.Valid()
    modifies buf
    ensures buf.Valid() && (now, buf.Contents()) == Drain(RoundOf(c), delivered, old(buf.Contents()))
    ensures error == ErrorAt(c, buf.Contents())
    ensures error.Some? <==> OneRound(c, now, buf.Contents()) == GiveUp
  {
    hide Parse, Endian.DecodeInt, Endian.EncodeInt, Adler32, Drain;
    now, error := delivered, None;
    while |buf.Contents()| >= MinMessageLen(c) + HEADER_LEN
      invariant buf.Valid() && error == None
      invariant Drain(RoundOf(c), now, buf.Contents()) == Drain(RoundOf(c), delivered, old(buf.Contents()))
      decreases |buf.Contents()|
    {
      RoundSays(c, now, buf.Contents());
      var len := buf.PeekInt(HEADER_LEN);
      if len > MAX_MESSAGE_LEN || len < MinMessageLen(c) {
        error := Some(InvalidLength);
        break;
      } else if |buf.Contents()| >= HEADER_LEN + len {
        if !c.raw(buf.Contents()[..HEADER_LEN + len]) {
          buf.Retrieve(HEADER_LEN + len);
          continue;
        }
        match Parse(c, buf.Contents()[HEADER_LEN..HEADER_LEN + len]) {
          case Message(m) =>
            now := now + [m];
            buf.Retrieve(HEADER_LEN + len);
          case Error(code) =>
            error := Some(code);
            break;
        }
      } else {
        break;
      }
    }
    RoundSays(c, now, buf.Contents());
  }
}
