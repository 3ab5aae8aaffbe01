/** The codec of examples/asio/chat/codec.h: a length and that many bytes. */
module LengthHeaderCodec {
  import opened Streams
  import opened Buffers
  import Endian

  const HEADER_LEN: nat := 4
  const MAX_LEN: nat := 65536

  function Encode(m: Bytes): Bytes {
    if |m| <= MAX_LEN then
      LengthFits(|m|);
      Endian.EncodeInt(HEADER_LEN, |m|) + m
    else []
  }

  lemma LengthFits(n: nat)
    requires n <= MAX_LEN
    ensures Endian.Fits(HEADER_LEN, n)
  {
    assert Endian.Power256(1) == 256;
    assert Endian.Power256(2) == 65536;
    assert Endian.Power256(3) == 16777216;
  }

  function OneRound(s: seq<Bytes>, buf: Bytes): Round<seq<Bytes>> {
    if |buf| < HEADER_LEN then Wait
    else
      var len := Endian.DecodeInt(buf[..HEADER_LEN]);
      if len > MAX_LEN || len < 0 then GiveUp
      else if |buf| >= len + HEADER_LEN then Took(HEADER_LEN + len, s + [buf[HEADER_LEN..HEADER_LEN + len]])
      else Wait
  }

  lemma RoundIsStable()
    ensures Stable(OneRound)
  {
    forall s, a, b
      ensures StableAt(OneRound, s, a, b)
    {
      if |a| >= HEADER_LEN {
        assert (a + b)[..HEADER_LEN] == a[..HEADER_LEN];
        var len := Endian.DecodeInt(a[..HEADER_LEN]);
        if 0 <= len <= |a| - HEADER_LEN {
          assert (a + b)[HEADER_LEN..HEADER_LEN + len] == a[HEADER_LEN..HEADER_LEN + len];
        }
      }
    }
  }

  predicate Short(m: Bytes) {
    |m| <= MAX_LEN
  }

  lemma DecodesOne(s: seq<Bytes>, m: Bytes, rest: Bytes)
    requires Short(m)
    ensures OneRound(s, Encode(m) + rest) == Took(|Encode(m)|, s + [m])
  {
    LengthFits(|m|);
    Endian.PeekUndoesAppend(HEADER_LEN, |m|);
    var buf := Encode(m) + rest;
    assert buf[..HEADER_LEN] == Endian.EncodeInt(HEADER_LEN, |m|);
    assert buf[HEADER_LEN..HEADER_LEN + |m|] == m;
  }

  /** Messages of up to 65536 bytes arrive as they were sent, whatever the chunks. */
  lemma MessagesArrive(ms: seq<Bytes>, chunks: seq<Bytes>)
    requires (forall m :: m in ms ==> Short(m)) && Concat(chunks) == Encoded(Encode, ms)
    ensures Receive(OneRound, [], [], chunks) == (ms, [])
  {
    RoundIsStable();
    FromEmpty(OneRound, [], chunks);
    var ok := (m: Bytes) => Short(m);
    forall s, m, rest | ok(m)
      ensures Encode(m) != [] && DecodesAt(OneRound, Encode, Deliver, s, m, rest)
    {
      DecodesOne(s, m, rest);
    }
    assert Decodes(OneRound, Encode, Deliver, ok);
    DecodeUndoesEncode(OneRound, Encode, Deliver, ok, [], ms);
    AllDelivered([], ms);
    assert [] + ms == ms;
  }

  /** A longer message makes the receiver give up: the sender does not check. */
  lemma LongMessagesDoNot(s: seq<Bytes>, m: Bytes, rest: Bytes)
    requires MAX_LEN < |m| < 0x8000_0000
    ensures Endian.Fits(HEADER_LEN, |m|) && OneRound(s, Endian.EncodeInt(HEADER_LEN, |m|) + m + rest) == GiveUp
  {
    LengthFits(0);
    assert Endian.Power256(4) == 0x1_0000_0000;
    Endian.PeekUndoesAppend(HEADER_LEN, |m|);
    assert (Endian.EncodeInt(HEADER_LEN, |m|) + m + rest)[..HEADER_LEN] == Endian.EncodeInt(HEADER_LEN, |m|);
  }

  /** `onMessage`. */
  method OnMessage(buf: Buffer, delivered: seq<Bytes>) returns (now: seq<Bytes>, invalid: bool)
    requires buf.Valid()
    modifies buf
    ensures buf.Valid() && (now, buf.Contents()) == Drain(OneRound, delivered, old(buf.Contents()))
    ensures invalid <==> OneRound(now, buf.Contents()) == GiveUp
  {
    now, invalid := delivered, false;
    while |buf.Contents()| >= HEADER_LEN
      invariant buf.Valid() && !invalid
      invariant Drain(OneRound, now, buf.Contents()) == Drain(OneRound, delivered, old(buf.Contents()))
      decreases |buf.Contents()|
    {
      ghost var was := buf.Contents();
      var len := buf.PeekInt(HEADER_LEN);
      if len > MAX_LEN || len < 0 {
        invalid := true;
        break;
      } else if |buf.Contents()| >= len + HEADER_LEN {
        buf.Retrieve(HEADER_LEN);
        var message := buf.Contents()[..len];
        assert message == was[HEADER_LEN..HEADER_LEN + len];
        now := now + [message];
        buf.Retrieve(len);
        assert buf.Contents() == was[HEADER_LEN + len..];
      } else {
        break;
      }
    }
  }
}
