/** The raw forwarding of examples/protobuf/rpcbalancer/balancer_raw.cc: the call id of a framed message is replaced in
    place on the way to a backend and put back on the way to the client. */
module RpcBalancer {
  import opened Machines
  import opened Streams
  import opened ProtobufCodec
  import Endian

  const ID_LEN: nat := 8
  const ID_LIMIT: nat := 0x1_0000_0000_0000_0000

  /** The length and the body of a frame, with the tag at its front and the checksum at its end. */
  function BodyOf(msg: Bytes): Bytes {
    if |msg| < HEADER_LEN then [] else msg[HEADER_LEN..]
  }

  /** Where the id is: after the tag, the type field and the key of the id. */
  function IdAt(tag: Bytes): nat {
    |tag| + 3
  }

  function IdBytes(tag: Bytes, body: Bytes): Bytes
    requires |body| >= IdAt(tag) + ID_LEN
  {
    body[IdAt(tag)..IdAt(tag) + ID_LEN]
  }

  predicate ChecksumHolds(body: Bytes) {
    |body| >= CHECKSUM_LEN && Endian.Decode(body[|body| - CHECKSUM_LEN..]) == Adler32(body[..|body| - CHECKSUM_LEN])
  }

  /** The fields before the id: a request or a response, with its id next. */
  predicate Recognized(tag: Bytes, body: Bytes) {
    && |body| >= IdAt(tag) + ID_LEN
    && body[..|tag|] == tag
    && body[|tag|] == 0x08 && (body[|tag| + 1] == 0x01 || body[|tag| + 1] == 0x02) && body[|tag| + 2] == 0x11
  }

  /** `RawMessage::parse`. */
  function Parse(tag: Bytes, msg: Bytes): Option<nat> {
    var body := BodyOf(msg);
    if ChecksumHolds(body) && Recognized(tag, body) then Some(Endian.DecodeLittle(IdBytes(tag, body))) else None
  }

  function Overwritten(b: Bytes, at: nat, d: Bytes): (r: Bytes)
    requires at + |d| <= |b|
    ensures |r| == |b|
  {
    b[..at] + d + b[at + |d|..]
  }

  /** The checksum is written anew over the last four bytes. */
  function Sealed(body: Bytes): (r: Bytes)
    requires |body| >= CHECKSUM_LEN
    ensures |r| == |body|
  {
    var n := |body| - CHECKSUM_LEN;
    Overwritten(body, n, Endian.Encode(CHECKSUM_LEN, Adler32(body[..n])))
  }

  /** `RawMessage::updateId`. */
  function Patch(tag: Bytes, msg: Bytes, id: nat): Bytes
    requires |msg| >= HEADER_LEN + IdAt(tag) + ID_LEN
  {
    msg[..HEADER_LEN] + Sealed(Overwritten(BodyOf(msg), IdAt(tag), Endian.EncodeLittle(ID_LEN, id)))
  }

  /** A frame that the balancer takes, and whose id does not reach into the checksum. */
  predicate Whole(tag: Bytes, msg: Bytes) {
    Parse(tag, msg).Some? && |msg| >= HEADER_LEN + IdAt(tag) + ID_LEN + CHECKSUM_LEN
  }

  lemma SealedHolds(body: Bytes)
    requires |body| >= CHECKSUM_LEN
    ensures ChecksumHolds(Sealed(body)) && Sealed(body)[..|body| - CHECKSUM_LEN] == body[..|body| - CHECKSUM_LEN]
    ensures ChecksumHolds(body) ==> Sealed(body) == body
  {
    var n := |body| - CHECKSUM_LEN;
    var sum := Adler32(body[..n]);
    ChecksumFits(body[..n]);
    Endian.DecodeEncode(CHECKSUM_LEN, sum);
    Endian.EncodeDecode(body[n..]);
    hide Adler32, Endian.Encode, Endian.Decode;
    assert Sealed(body)[n..] == Endian.Encode(CHECKSUM_LEN, sum);
    assert Sealed(body)[..n] == body[..n];
    assert body == body[..n] + body[n..];
  }

  /** New id bytes and a new checksum leave everything else. */
  lemma PatchedBody(tag: Bytes, body: Bytes, le: Bytes)
    requires |le| == ID_LEN && |body| >= IdAt(tag) + ID_LEN + CHECKSUM_LEN
    ensures var c, at, n := Sealed(Overwritten(body, IdAt(tag), le)), IdAt(tag), |body| - CHECKSUM_LEN;
            && |c| == |body| && ChecksumHolds(c) && IdBytes(tag, c) == le
            && c[..at] == body[..at] && c[at + ID_LEN..n] == body[at + ID_LEN..n]
  {
    var b, at, n := Overwritten(body, IdAt(tag), le), IdAt(tag), |body| - CHECKSUM_LEN;
    SealedHolds(b);
    var c := Sealed(b);
    hide Sealed, ChecksumHolds;
    assert c[..at] == c[..n][..at] == b[..n][..at] == body[..at];
    assert c[at..at + ID_LEN] == c[..n][at..at + ID_LEN] == b[..n][at..at + ID_LEN] == le;
    assert c[at + ID_LEN..n] == c[..n][at + ID_LEN..] == b[..n][at + ID_LEN..] == body[at + ID_LEN..n];
  }

  lemma RecognizedByPrefix(tag: Bytes, a: Bytes, b: Bytes)
    requires |a| == |b| >= IdAt(tag) && a[..IdAt(tag)] == b[..IdAt(tag)] && Recognized(tag, a)
    ensures Recognized(tag, b)
  {
    var at := IdAt(tag);
    assert a[..|tag|] == a[..at][..|tag|] && b[..|tag|] == b[..at][..|tag|];
    assert forall i :: 0 <= i < at ==> a[i] == a[..at][i] && b[i] == b[..at][i];
  }

  /** What a patch leaves: the length, every byte but the id and the checksum, a checksum that holds, and the new id. */
  lemma PatchTakes(tag: Bytes, msg: Bytes, id: nat)
    requires Whole(tag, msg) && id < ID_LIMIT
    ensures var z := Patch(tag, msg, id);
            && |z| == |msg| && Whole(tag, z) && Parse(tag, z) == Some(id)
            && z[..HEADER_LEN + IdAt(tag)] == msg[..HEADER_LEN + IdAt(tag)]
            && z[HEADER_LEN + IdAt(tag) + ID_LEN..|msg| - CHECKSUM_LEN]
                == msg[HEADER_LEN + IdAt(tag) + ID_LEN..|msg| - CHECKSUM_LEN]
  {
    hide ChecksumHolds, Sealed, Overwritten, Recognized, Endian.EncodeLittle, Endian.DecodeLittle;
    var body, le := BodyOf(msg), Endian.EncodeLittle(ID_LEN, id);
    IdsFit();
    Endian.DecodeEncodeLittle(ID_LEN, id);
    PatchedBody(tag, body, le);
    var z, c := Patch(tag, msg, id), Sealed(Overwritten(body, IdAt(tag), le));
    RecognizedByPrefix(tag, body, c);
    assert BodyOf(z) == c;
    PatchedFrame(tag, msg, z);
  }

  lemma PatchedFrame(tag: Bytes, msg: Bytes, z: Bytes)
    requires |z| == |msg| >= HEADER_LEN + IdAt(tag) + ID_LEN + CHECKSUM_LEN && z[..HEADER_LEN] == msg[..HEADER_LEN]
    requires BodyOf(z)[..IdAt(tag)] == BodyOf(msg)[..IdAt(tag)]
    requires var n := |msg| - HEADER_LEN - CHECKSUM_LEN;
        BodyOf(z)[IdAt(tag) + ID_LEN..n] == BodyOf(msg)[IdAt(tag) + ID_LEN..n]
    ensures z[..HEADER_LEN + IdAt(tag)] == msg[..HEADER_LEN + IdAt(tag)]
    ensures z[HEADER_LEN + IdAt(tag) + ID_LEN..|msg| - CHECKSUM_LEN]
        == msg[HEADER_LEN + IdAt(tag) + ID_LEN..|msg| - CHECKSUM_LEN]
  {
    var at, n := IdAt(tag), |msg| - HEADER_LEN - CHECKSUM_LEN;
    assert z[..HEADER_LEN + at] == z[..HEADER_LEN] + BodyOf(z)[..at];
    assert msg[..HEADER_LEN + at] == msg[..HEADER_LEN] + BodyOf(msg)[..at];
    assert z[HEADER_LEN + at + ID_LEN..|msg| - CHECKSUM_LEN] == BodyOf(z)[at + ID_LEN..n];
    assert msg[HEADER_LEN + at + ID_LEN..|msg| - CHECKSUM_LEN] == BodyOf(msg)[at + ID_LEN..n];
  }

  lemma IdsFit()
    ensures Endian.Power256(ID_LEN) == ID_LIMIT
  {
    assert Endian.Power256(2) == 0x1_0000;
    assert Endian.Power256(4) == 0x1_0000_0000;
    assert Endian.Power256(6) == 0x1_0000_0000_0000;
  }

  /** The same bytes where the checksum does not stand. */
  lemma SameBelow(a: Bytes, b: Bytes, at: nat, n: nat)
    requires |a| == |b| && at + ID_LEN <= n <= |b| && a[..at] == b[..at] && a[at + ID_LEN..n] == b[at + ID_LEN..n]
    ensures Overwritten(a, at, b[at..at + ID_LEN])[..n] == b[..n]
  {
    var c := Overwritten(a, at, b[at..at + ID_LEN]);
    assert c[..at] == b[..at] && c[at..at + ID_LEN] == b[at..at + ID_LEN] && c[at + ID_LEN..n] == a[at + ID_LEN..n];
    assert b[..n] == b[..at] + b[at..at + ID_LEN] + b[at + ID_LEN..n];
    assert c[..n] == c[..at] + c[at..at + ID_LEN] + c[at + ID_LEN..n];
  }

  /** Patching twice is patching once, and patching with the id that is there changes nothing. */
  lemma PatchUndoesPatch(tag: Bytes, msg: Bytes, id: nat)
    requires Whole(tag, msg) && id < ID_LIMIT
    ensures var z := Patch(tag, msg, id);
            |z| == |msg| && Patch(tag, z, Parse(tag, msg).value) == msg
  {
    hide Adler32, Endian.EncodeLittle, Endian.DecodeLittle, Endian.Encode, Endian.Decode, Sealed, Overwritten;
    hide ChecksumHolds, Recognized;
    var body, le := BodyOf(msg), Endian.EncodeLittle(ID_LEN, id);
    var at, n := IdAt(tag), |body| - CHECKSUM_LEN;
    PatchedBody(tag, body, le);
    var c := Sealed(Overwritten(body, at, le));
    assert BodyOf(Patch(tag, msg, id)) == c && Patch(tag, msg, id)[..HEADER_LEN] == msg[..HEADER_LEN];
    Endian.EncodeDecodeLittle(IdBytes(tag, body));
    SameBelow(c, body, at, n);
    SealedOnPrefix(Overwritten(c, at, IdBytes(tag, body)), body);
    SealedHolds(body);
    assert msg == msg[..HEADER_LEN] + body;
  }

  /** The checksum depends on what is before it only. */
  lemma SealedOnPrefix(a: Bytes, b: Bytes)
    requires |a| == |b| >= CHECKSUM_LEN && a[..|a| - CHECKSUM_LEN] == b[..|b| - CHECKSUM_LEN]
    ensures Sealed(a) == Sealed(b)
  {
    var n := |a| - CHECKSUM_LEN;
    assert a[..n] == b[..n];
  }

  /** `parse` takes messages in which the id and the checksum overlap. Of those it takes, ids can be replaced exactly
      in the ones that are long enough for both. */
  lemma PatchNeedsRoom(tag: Bytes, msg: Bytes)
    requires Parse(tag, msg).Some?
    ensures (forall id :: 0 <= id < ID_LIMIT ==> Parse(tag, Patch(tag, msg, id)) == Some(id)) <==> Whole(tag, msg)
  {
    if Whole(tag, msg) {
      forall id | 0 <= id < ID_LIMIT
        ensures Parse(tag, Patch(tag, msg, id)) == Some(id)
      {
        PatchTakes(tag, msg, id);
      }
    } else {
      var high := 0x100_0000_0000_0000;
      OverlapLosesTheTop(tag, msg, high);
      assert 0 <= high < ID_LIMIT;
    }
  }

  /** The shortest message that is taken: its id ends where the message ends. */
  function Crowded(tag: Bytes): Bytes {
    var fields := tag + [0x08, 0x01, 0x11] + [0, 0, 0, 0];
    Endian.Encode(HEADER_LEN, |fields| + CHECKSUM_LEN) + fields + Endian.Encode(CHECKSUM_LEN, Adler32(fields))
  }

  lemma CrowdedIsTaken(tag: Bytes)
    ensures Parse(tag, Crowded(tag)).Some? && !Whole(tag, Crowded(tag))
  {
    hide Adler32, Endian.Encode, Endian.Decode, Endian.DecodeLittle, ChecksumHolds, Recognized;
    var fields := tag + [0x08, 0x01, 0x11] + [0, 0, 0, 0];
    var sum := Endian.Encode(CHECKSUM_LEN, Adler32(fields));
    assert BodyOf(Crowded(tag)) == fields + sum;
    CrowdedHolds(fields);
    CrowdedIsRecognized(tag, sum);
  }

  lemma CrowdedHolds(fields: Bytes)
    ensures ChecksumHolds(fields + Endian.Encode(CHECKSUM_LEN, Adler32(fields)))
  {
    ChecksumFits(fields);
    Endian.DecodeEncode(CHECKSUM_LEN, Adler32(fields));
    hide Adler32, Endian.Encode, Endian.Decode;
    var body := fields + Endian.Encode(CHECKSUM_LEN, Adler32(fields));
    assert body[..|fields|] == fields && body[|fields|..] == Endian.Encode(CHECKSUM_LEN, Adler32(fields));
  }

  lemma CrowdedIsRecognized(tag: Bytes, sum: Bytes)
    requires |sum| == CHECKSUM_LEN
    ensures Recognized(tag, tag + [0x08, 0x01, 0x11] + [0, 0, 0, 0] + sum)
  {
    var body := tag + [0x08, 0x01, 0x11] + [0, 0, 0, 0] + sum;
    assert body[..|tag|] == tag;
  }

  /** Two ids that differ in the most significant byte make the same message. */
  lemma OverlapLosesTheTop(tag: Bytes, msg: Bytes, high: nat)
    requires Parse(tag, msg).Some? && !Whole(tag, msg) && high == 0x100_0000_0000_0000
    ensures Patch(tag, msg, 0) == Patch(tag, msg, high)
  {
    hide Adler32, Endian.Encode, Endian.Decode, Sealed, ChecksumHolds;
    var body, at := BodyOf(msg), IdAt(tag);
    LowBytesAreZero(ID_LEN);
    TopByte();
    var a := Overwritten(body, at, Endian.EncodeLittle(ID_LEN, 0));
    var b := Overwritten(body, at, Endian.EncodeLittle(ID_LEN, high));
    forall i | 0 <= i < |body| - CHECKSUM_LEN
      ensures a[i] == b[i]
    {
    }
    SealedOnPrefix(a, b);
  }

  lemma TopByte()
    ensures Endian.Power256(ID_LEN - 1) == 0x100_0000_0000_0000
  {
    IdsFit();
    assert Endian.Power256(8) == 256 * Endian.Power256(7);
  }

  predicate LowBytesZero(b: Bytes, n: nat) {
    forall i :: 0 <= i < n && i < |b| ==> b[i] == 0
  }

  lemma {:induction false} LowBytesAreZero(n: nat)
    requires n > 0
    ensures LowBytesZero(Endian.EncodeLittle(n, Endian.Power256(n - 1)), n - 1)
    ensures LowBytesZero(Endian.EncodeLittle(n, 0), n)
  {
    if n > 1 {
      LowBytesAreZero(n - 1);
      var p := Endian.Power256(n - 1);
      assert p == 256 * Endian.Power256(n - 2) && p % 256 == 0 && p / 256 == Endian.Power256(n - 2);
      assert Endian.EncodeLittle(n, p) == [0] + Endian.EncodeLittle(n - 1, Endian.Power256(n - 2));
      assert Endian.EncodeLittle(n, 0) == [0] + Endian.EncodeLittle(n - 1, 0);
    } else {
      assert Endian.EncodeLittle(1, 0) == [0] + Endian.EncodeLittle(0, 0);
    }
  }

  /** `memcpy`. */
  method CopyInto(a: array<Byte>, at: nat, d: Bytes)
    requires at + |d| <= a.Length
    modifies a
    ensures a[..] == Overwritten(old(a[..]), at, d)
  {
    for i := 0 to |d|
      invariant forall k :: 0 <= k < a.Length ==> a[k] == if at <= k < at + i then d[k - at] else old(a[k])
    {
      a[at + i] := d[i];
    }
  }

  lemma OverwrittenLater(a: Bytes, b: Bytes, at: nat, d: Bytes)
    requires at + |d| <= |b|
    ensures Overwritten(a + b, |a| + at, d) == a + Overwritten(b, at, d)
  {
    assert (a + b)[..|a| + at] == a + b[..at];
    assert (a + b)[|a| + at + |d|..] == b[at + |d|..];
  }

  /** `updateId`, on the bytes of the message where they are. */
  method UpdateId(message: array<Byte>, tag: Bytes, id: nat)
    requires message.Length >= HEADER_LEN + IdAt(tag) + ID_LEN
    modifies message
    ensures message[..] == Patch(tag, old(message[..]), id)
  {
    hide Adler32, Endian.Encode, Endian.EncodeLittle, Overwritten;
    var at, n, le := HEADER_LEN + IdAt(tag), message.Length - CHECKSUM_LEN, Endian.EncodeLittle(ID_LEN, id);
    ghost var header, body := message[..HEADER_LEN], BodyOf(message[..]);
    ghost var patched := Overwritten(body, IdAt(tag), le);
    assert message[..] == header + body;
    CopyInto(message, at, le);
    OverwrittenLater(header, body, IdAt(tag), le);
    assert message[..] == header + patched;
    var sum := Endian.Encode(CHECKSUM_LEN, Adler32(message[HEADER_LEN..n]));
    assert message[HEADER_LEN..n] == message[..][HEADER_LEN..n] == patched[..n - HEADER_LEN];
    CopyInto(message, n, sum);
    OverwrittenLater(header, patched, n - HEADER_LEN, sum);
  }

  // Calls.

  type Client = nat

  datatype Request = Request(origId: nat, client: Client)

  /** A message as it came, or as an object whose id is a field. */
  datatype Msg = Raw(bytes: Bytes) | Object(id: nat, content: Bytes)

  function IdOf(tag: Bytes, m: Msg): Option<nat> {
    match m
    case Raw(bytes) => Parse(tag, bytes)
    case Object(id, _) => if id < ID_LIMIT then Some(id) else None
  }

  /** `set_id`, and for a raw message `updateId`. */
  function WithId(tag: Bytes, m: Msg, id: nat): Msg
    requires IdOf(tag, m).Some?
  {
    match m
    case Raw(bytes) => Raw(Patch(tag, bytes, id))
    case Object(_, content) => Object(id, content)
  }

  predicate HasRoom(tag: Bytes, m: Msg) {
    m.Raw? ==> |m.bytes| >= HEADER_LEN + IdAt(tag) + ID_LEN + CHECKSUM_LEN
  }

  lemma WithIdTakes(tag: Bytes, m: Msg, id: nat)
    requires IdOf(tag, m).Some? && id < ID_LIMIT
    ensures IdOf(tag, m).value < ID_LIMIT && (HasRoom(tag, WithId(tag, m, id)) <==> HasRoom(tag, m))
    ensures HasRoom(tag, m) ==>
              var z := WithId(tag, m, id);
              IdOf(tag, z) == Some(id) && WithId(tag, z, IdOf(tag, m).value) == m
  {
    hide Patch, Parse;
    if m.Raw? {
      IdsAreSmall(tag, m.bytes);
      PatchKeepsLength(tag, m.bytes, id);
      if HasRoom(tag, m) {
        PatchTakes(tag, m.bytes, id);
        PatchUndoesPatch(tag, m.bytes, id);
      }
    }
  }

  lemma PatchKeepsLength(tag: Bytes, msg: Bytes, id: nat)
    requires |msg| >= HEADER_LEN + IdAt(tag) + ID_LEN
    ensures |Patch(tag, msg, id)| == |msg|
  {
  }

  /** A message that was sent back, and the forwarded id that it answers. */
  datatype Reply = Reply(id: nat, client: Client, message: Msg)

  /** `forwarded` is the history of all requests by the id they were given. */
  datatype Session = Session(outstandings: map<nat, Request>, nextId: nat, forwarded: map<nat, Request>,
      replies: seq<Reply>)

  datatype Step = Forward(client: Client, message: Msg) | Response(message: Msg)

  /** `BackendSession::send` and `onMessageT`. */
  function Apply(tag: Bytes, s: Session, step: Step): Session
    requires IdOf(tag, step.message).Some?
  {
    match step
    case Forward(client, message) =>
      var r := Request(IdOf(tag, message).value, client);
      Session(s.outstandings[s.nextId + 1 := r], s.nextId + 1, s.forwarded[s.nextId + 1 := r], s.replies)
    case Response(message) =>
      var id := IdOf(tag, message).value;
      if id in s.outstandings then
        var r := s.outstandings[id];
        s.(outstandings := s.outstandings - {id},
            replies := s.replies + [Reply(id, r.client, WithId(tag, message, r.origId))])
      else s
  }

  /** What goes to the backend. */
  function Sent(tag: Bytes, s: Session, message: Msg): Msg
    requires IdOf(tag, message).Some?
  {
    WithId(tag, message, s.nextId + 1)
  }

  /** A request that is answered goes back to its client, under its own id if the answer has room for it. */
  predicate Answers(tag: Bytes, s: Session, r: Reply) {
    && r.id in s.forwarded && r.id !in s.outstandings
    && r.client == s.forwarded[r.id].client
    && (HasRoom(tag, r.message) ==> IdOf(tag, r.message) == Some(s.forwarded[r.id].origId))
  }

  predicate Inv(tag: Bytes, s: Session) {
    && (forall id :: id in s.outstandings ==> id in s.forwarded && s.forwarded[id] == s.outstandings[id])
    && (forall id :: id in s.forwarded ==> id <= s.nextId && s.forwarded[id].origId < ID_LIMIT)
    && (forall i :: 0 <= i < |s.replies| ==> Answers(tag, s, s.replies[i]))
    && (forall i, j :: 0 <= i < j < |s.replies| ==> s.replies[i].id != s.replies[j].id)
  }

  lemma IdsAreSmall(tag: Bytes, msg: Bytes)
    requires Parse(tag, msg).Some?
    ensures Parse(tag, msg).value < ID_LIMIT && |msg| >= HEADER_LEN + IdAt(tag) + ID_LEN
  {
    hide ChecksumHolds;
    IdsFit();
    Endian.DecodeLittleRange(IdBytes(tag, BodyOf(msg)));
  }

  lemma StepKeepsInv(tag: Bytes, s: Session, step: Step)
    requires Inv(tag, s) && IdOf(tag, step.message).Some?
    ensures Inv(tag, Apply(tag, s, step))
  {
    hide HasRoom, IdOf, WithId;
    WithIdTakes(tag, step.message, 0);
    var z := Apply(tag, s, step);
    match step {
      case Forward(client, message) =>
        forall i | 0 <= i < |z.replies|
          ensures Answers(tag, z, z.replies[i])
        {
          assert Answers(tag, s, s.replies[i]);
        }
      case Response(message) =>
        var id := IdOf(tag, message).value;
        if id in s.outstandings {
          WithIdTakes(tag, message, s.outstandings[id].origId);
          forall i | 0 <= i < |z.replies|
            ensures Answers(tag, z, z.replies[i])
            ensures i < |s.replies| ==> z.replies[i].id != id
          {
            assert i < |s.replies| ==> Answers(tag, s, s.replies[i]);
          }
        }
    }
  }

  function NextOf(tag: Bytes): (Session, Step) -> Option<Session> {
    (s: Session, step: Step) => if IdOf(tag, step.message).Some? then Some(Apply(tag, s, step)) else None
  }

  function InvOf(tag: Bytes): Session -> bool {
    (s: Session) => Inv(tag, s)
  }

  /** Over every run, with responses that are late, repeated or made up: every reply goes to the client that asked,
      under the id it asked with, and no request is answered twice. */
  lemma EveryReplyIsWanted(tag: Bytes, steps: seq<Step>)
    requires Run(NextOf(tag), Session(map[], 0, map[], []), steps).Some?
    ensures Inv(tag, Run(NextOf(tag), Session(map[], 0, map[], []), steps).value)
  {
    hide Run, Inv, Apply;
    forall s, step | InvOf(tag)(s) && NextOf(tag)(s, step).Some?
      ensures InvOf(tag)(NextOf(tag)(s, step).value)
    {
      StepKeepsInv(tag, s, step);
    }
    EmptyInv(tag);
    KeptByRuns(NextOf(tag), InvOf(tag), Session(map[], 0, map[], []), steps);
  }

  lemma EmptyInv(tag: Bytes)
    ensures Inv(tag, Session(map[], 0, map[], []))
  {
  }

  /** A backend that sends the request itself back: the client gets it byte for byte as it sent it. */
  lemma EchoComesBack(tag: Bytes, s: Session, client: Client, message: Msg)
    requires Inv(tag, s) && IdOf(tag, message).Some? && HasRoom(tag, message) && s.nextId + 1 < ID_LIMIT
    ensures var t, out := Apply(tag, s, Forward(client, message)), Sent(tag, s, message);
            && IdOf(tag, out).Some?
            && Apply(tag, t, Response(out)).replies == s.replies + [Reply(s.nextId + 1, client, message)]
  {
    hide IdOf, WithId, HasRoom, Inv;
    WithIdTakes(tag, message, s.nextId + 1);
  }

  // The same, told by the steps alone.

  /** The requests, in the order in which they were forwarded; the `k`-th has the id `k`, counted from 1. */
  function Asked(tag: Bytes, steps: seq<Step>): seq<Request> {
    if steps == [] then []
    else
      var before, last := Asked(tag, steps[..|steps| - 1]), steps[|steps| - 1];
      if last.Forward? && IdOf(tag, last.message).Some? then
        before + [Request(IdOf(tag, last.message).value, last.client)]
      else before
  }

  predicate Replied(rs: seq<Reply>, id: nat) {
    exists i :: 0 <= i < |rs| && rs[i].id == id
  }

  /** The first response to each request that was forwarded before it. */
  function Answered(tag: Bytes, steps: seq<Step>): seq<Reply> {
    if steps == [] then []
    else
      var init, last := steps[..|steps| - 1], steps[|steps| - 1];
      var so := Answered(tag, init);
      so + if last.Response? then AnswerTo(tag, Asked(tag, init), so, last.message) else []
  }

  function AnswerTo(tag: Bytes, asked: seq<Request>, so: seq<Reply>, message: Msg): seq<Reply> {
    match IdOf(tag, message)
    case None => []
    case Some(id) =>
      if 0 < id <= |asked| && !Replied(so, id) then
        [Reply(id, asked[id - 1].client, WithId(tag, message, asked[id - 1].origId))]
      else []
  }

  /** What waits for its response is what was asked and not answered. */
  ghost predicate Waits(s: Session, asked: seq<Request>) {
    && s.nextId == |asked|
    && (forall id :: id in s.outstandings <==> 0 < id <= |asked| && !Replied(s.replies, id))
    && (forall id :: id in s.outstandings ==> s.outstandings[id] == asked[id - 1])
    && forall i :: 0 <= i < |s.replies| ==> 0 < s.replies[i].id <= |asked|
  }

  lemma ForwardWaits(tag: Bytes, s: Session, asked: seq<Request>, client: Client, message: Msg)
    requires Waits(s, asked) && IdOf(tag, message).Some?
    ensures var z := Apply(tag, s, Forward(client, message));
            Waits(z, asked + [Request(IdOf(tag, message).value, client)]) && z.replies == s.replies
  {
    hide IdOf, WithId;
    assert !Replied(s.replies, |asked| + 1);
  }

  lemma ResponseAnswers(tag: Bytes, s: Session, asked: seq<Request>, message: Msg)
    requires Waits(s, asked) && IdOf(tag, message).Some?
    ensures var z := Apply(tag, s, Response(message));
            Waits(z, asked) && z.replies == s.replies + AnswerTo(tag, asked, s.replies, message)
  {
    hide IdOf, WithId;
    var z := Apply(tag, s, Response(message));
    forall id: nat
      ensures id in s.outstandings && id == IdOf(tag, message).value ==> Replied(z.replies, id)
      ensures Replied(s.replies, id) ==> Replied(z.replies, id)
    {
      if id in s.outstandings && id == IdOf(tag, message).value {
        assert z.replies[|s.replies|].id == id;
      }
      if i :| 0 <= i < |s.replies| && s.replies[i].id == id {
        assert z.replies[i].id == id;
      }
    }
  }

  /** In every run the replies are exactly the first responses to the requests, each for the client that asked. */
  lemma {:induction false} RepliesAreAnswers(tag: Bytes, steps: seq<Step>)
    requires Run(NextOf(tag), Session(map[], 0, map[], []), steps).Some?
    ensures var s := Run(NextOf(tag), Session(map[], 0, map[], []), steps).value;
            s.replies == Answered(tag, steps) && Waits(s, Asked(tag, steps))
    decreases |steps|
  {
    hide Apply, IdOf, WithId, AnswerTo, Waits;
    if steps == [] {
      NobodyWaits();
    } else {
      var init, last := steps[..|steps| - 1], steps[|steps| - 1];
      LastOfRun(NextOf(tag), Session(map[], 0, map[], []), steps);
      RepliesAreAnswers(tag, init);
      var s := Run(NextOf(tag), Session(map[], 0, map[], []), init).value;
      match last {
        case Forward(client, message) => ForwardWaits(tag, s, Asked(tag, init), client, message);
        case Response(message) => ResponseAnswers(tag, s, Asked(tag, init), message);
      }
    }
  }

  lemma NobodyWaits()
    ensures Waits(Session(map[], 0, map[], []), [])
  {
  }

  // The round robin.

  /** The `k`-th backend from the current one on, going round. */
  function Around(current: nat, k: nat, n: nat): nat
    requires current < n && k <= n
  {
    if current + k < n then current + k else current + k - n
  }

  predicate FirstUp(up: seq<bool>, current: nat, k: nat) {
    current < |up| && k < |up| && up[Around(current, k, |up|)] && NoneUp(up, current, k)
  }

  predicate NoneUp(up: seq<bool>, current: nat, k: nat) {
    current < |up| && k <= |up| && forall i :: 0 <= i < k ==> !up[Around(current, i, |up|)]
  }

  /** `Balancer::onMessageT`: the message goes to the first backend that is up, from the current one on, and the next
      message starts behind it; with none up, the current one stays. */
  method Choose(up: seq<bool>, current: nat) returns (succeed: bool, chosen: nat, next: nat)
    requires current < |up|
    ensures succeed <==> exists i :: 0 <= i < |up| && up[i]
    ensures succeed ==> exists k ::
        FirstUp(up, current, k) && chosen == Around(current, k, |up|) && next == Around(chosen, 1, |up|)
    ensures !succeed ==> next == current
  {
    succeed, chosen, next := false, 0, current;
    var i := 0;
    while i < |up| && !succeed
      invariant i <= |up| && next == Around(current, i, |up|)
      invariant !succeed ==> NoneUp(up, current, i)
      invariant succeed ==>
          0 < i && FirstUp(up, current, i - 1) && chosen == Around(current, i - 1, |up|)
          && next == Around(chosen, 1, |up|)
    {
      succeed := up[next];
      chosen := next;
      next := if next + 1 == |up| then 0 else next + 1;
      i := i + 1;
    }
    if !succeed {
      forall j | 0 <= j < |up|
        ensures !up[j]
      {
        var k := if j >= current then j - current else j - current + |up|;
        assert Around(current, k, |up|) == j;
      }
    }
  }
}
