/** Many client streams over one connection: the packets of examples/multiplexer/multiplexer.cc, and how demux.cc
    deals them out to one connection for each client. */
module Multiplexer {
  import opened Machines
  import opened Streams
  import opened Buffers
  import opened LogStreams

  const MAX_PACKET_LEN: nat := 255
  const HEADER_LEN: nat := 3

  datatype Packet = Packet(id: nat, payload: Bytes)

  predicate Sendable(p: Packet) {
    p.id < 0x1_0000 && 0 < |p.payload| <= MAX_PACKET_LEN
  }

  predicate Framed(p: Packet) {
    p.id < 0x1_0000 && |p.payload| <= MAX_PACKET_LEN
  }

  /** `sendBackendPacket`, `sendServerPacket`. */
  function Encode(p: Packet): Bytes {
    if Framed(p) then [|p.payload|, p.id % 256, p.id / 256] + p.payload else []
  }

  /** The payloads for one client. */
  function Payloads(ps: seq<Packet>, id: nat): Bytes {
    if ps == [] then []
    else
      var p := ps[|ps| - 1];
      Payloads(ps[..|ps| - 1], id) + if p.id == id then p.payload else []
  }

  lemma PayloadsAppend(ps: seq<Packet>, p: Packet, id: nat)
    ensures Payloads(ps + [p], id) == Payloads(ps, id) + if p.id == id then p.payload else []
  {
    assert (ps + [p])[..|ps|] == ps;
  }

  lemma {:induction false} PayloadsConcat(ps: seq<Packet>, qs: seq<Packet>, id: nat)
    ensures Payloads(ps + qs, id) == Payloads(ps, id) + Payloads(qs, id)
  {
    if qs == [] {
      assert ps + qs == ps;
    } else {
      assert (ps + qs)[..|ps + qs| - 1] == ps + qs[..|qs| - 1];
      PayloadsConcat(ps, qs[..|qs| - 1], id);
    }
  }

  // The multiplexer.

  /** The packets of `sendBackendBuffer`. */
  function Split(id: nat, data: Bytes): seq<Packet> {
    if |data| > MAX_PACKET_LEN then [Packet(id, data[..MAX_PACKET_LEN])] + Split(id, data[MAX_PACKET_LEN..])
    else if data != [] then [Packet(id, data)]
    else []
  }

  /** They carry exactly the data, in order, and can be sent. */
  lemma {:induction false} SplitCarriesTheData(id: nat, data: Bytes)
    requires id < 0x1_0000
    ensures Payloads(Split(id, data), id) == data
    ensures forall p :: p in Split(id, data) ==> Sendable(p) && p.id == id
    decreases |data|
  {
    if |data| > MAX_PACKET_LEN {
      var first, rest := Packet(id, data[..MAX_PACKET_LEN]), data[MAX_PACKET_LEN..];
      SplitCarriesTheData(id, rest);
      OnePayload(first);
      PayloadsConcat([first], Split(id, rest), id);
      assert data[..MAX_PACKET_LEN] + rest == data;
    } else if data != [] {
      OnePayload(Packet(id, data));
    }
  }

  lemma OnePayload(p: Packet)
    ensures Payloads([p], p.id) == p.payload
  {
    PayloadsAppend([], p, p.id);
    assert [] + [p] == [p];
  }

  /** `sendBackendBuffer`: what goes out on the connection to the backend. */
  method SendBackendBuffer(id: nat, buf: Buffer) returns (out: Bytes)
    requires buf.Valid() && id < 0x1_0000
    modifies buf
    ensures out == Encoded(Encode, Split(id, old(buf.Contents()))) && buf.Valid() && |buf.Contents()| <= MAX_PACKET_LEN
  {
    hide Encode;
    out := [];
    ghost var all := Encoded(Encode, Split(id, buf.Contents()));
    while |buf.Contents()| > MAX_PACKET_LEN
      invariant buf.Valid() && out + Encoded(Encode, Split(id, buf.Contents())) == all
      decreases |buf.Contents()|
    {
      ghost var data := buf.Contents();
      var packet := buf.RetrieveAsString(MAX_PACKET_LEN);
      FirstPacket(Packet(id, packet), Split(id, buf.Contents()));
      out := out + Encode(Packet(id, packet));
    }
    if |buf.Contents()| > 0 {
      FirstPacket(Packet(id, buf.Contents()), []);
      out := out + Encode(Packet(id, buf.Contents()));
    }
  }

  lemma FirstPacket(p: Packet, ps: seq<Packet>)
    ensures Encoded(Encode, [p] + ps) == Encode(p) + Encoded(Encode, ps)
    ensures ps == [] ==> Encoded(Encode, [p]) == Encode(p)
  {
    assert ([p] + ps)[1..] == ps;
    if ps == [] {
      assert [p] + ps == [p];
    }
  }

  /** The packet at the head of the buffer, if it has arrived completely. */
  function Head(buf: Bytes): Option<Packet> {
    if |buf| <= HEADER_LEN || |buf| < buf[0] + HEADER_LEN then None
    else Some(Packet((buf[1] as int) + 256 * (buf[2] as int), buf[HEADER_LEN..HEADER_LEN + buf[0]]))
  }

  lemma HeadOfEncoded(p: Packet, rest: Bytes)
    requires Sendable(p)
    ensures Head(Encode(p) + rest) == Some(p) && (Encode(p) + rest)[HEADER_LEN + |p.payload|..] == rest
    ensures |Encode(p)| == HEADER_LEN + |p.payload|
  {
    var buf := Encode(p) + rest;
    assert buf[HEADER_LEN..HEADER_LEN + |p.payload|] == p.payload;
  }

  lemma HeadIsStable(a: Bytes, b: Bytes)
    requires Head(a).Some?
    ensures Head(a + b) == Head(a)
  {
    assert (a + b)[HEADER_LEN..HEADER_LEN + a[0]] == a[HEADER_LEN..HEADER_LEN + a[0]];
  }

  /** `sendToClient`: the clients that are there get their payloads; packets for others are passed over. */
  function ClientRound(sent: map<nat, Bytes>, buf: Bytes): Round<map<nat, Bytes>> {
    match Head(buf)
    case None => Wait
    case Some(p) => Took(HEADER_LEN + |p.payload|, Delivered(sent, p))
  }

  function Delivered(sent: map<nat, Bytes>, p: Packet): map<nat, Bytes> {
    if p.id in sent then sent[p.id := sent[p.id] + p.payload] else sent
  }

  lemma PayloadsFirst(p: Packet, ps: seq<Packet>, id: nat)
    ensures Payloads([p] + ps, id) == (if p.id == id then p.payload else []) + Payloads(ps, id)
  {
    PayloadsAppend([], p, id);
    assert [] + [p] == [p];
    PayloadsConcat([p], ps, id);
  }

  lemma DeliveredOne(sent: map<nat, Bytes>, p: Packet)
    ensures var t := Delivered(sent, p);
            t.Keys == sent.Keys && forall id :: id in sent ==> t[id] == sent[id] + if p.id == id then p.payload else []
  {
    assert forall id :: id in sent ==> sent[id] + [] == sent[id];
  }

  lemma {:induction false} DeliveredAll(sent: map<nat, Bytes>, ps: seq<Packet>)
    ensures var t := After(Delivered, sent, ps);
            t.Keys == sent.Keys && forall id :: id in sent ==> t[id] == sent[id] + Payloads(ps, id)
    decreases |ps|
  {
    hide Payloads, Delivered;
    if ps == [] {
      forall id | id in sent
        ensures sent[id] == sent[id] + Payloads(ps, id)
      {
        NoPayloads(id);
      }
    } else {
      var p := ps[0];
      assert ps == [p] + ps[1..];
      DeliveredOne(sent, p);
      DeliveredAll(Delivered(sent, p), ps[1..]);
      forall id | id in sent
        ensures After(Delivered, sent, ps)[id] == sent[id] + Payloads(ps, id)
      {
        PayloadsFirst(p, ps[1..], id);
      }
    }
  }

  /** Whatever the interleaving of the packets and the chunks, every client gets exactly what was sent for it. */
  lemma ClientsGetTheirBytes(sent: map<nat, Bytes>, ps: seq<Packet>, chunks: seq<Bytes>)
    requires (forall p :: p in ps ==> Sendable(p)) && Concat(chunks) == Encoded(Encode, ps)
    ensures var (t, rest) := Receive(ClientRound, sent, [], chunks);
            rest == [] && t.Keys == sent.Keys && forall id :: id in sent ==> t[id] == sent[id] + Payloads(ps, id)
  {
    forall s, a, b
      ensures StableAt(ClientRound, s, a, b)
    {
      if Head(a).Some? {
        HeadIsStable(a, b);
      }
    }
    FromEmpty(ClientRound, sent, chunks);
    var ok := (p: Packet) => Sendable(p);
    forall s, p, rest | ok(p)
      ensures Encode(p) != [] && DecodesAt(ClientRound, Encode, Delivered, s, p, rest)
    {
      HeadOfEncoded(p, rest);
    }
    assert Decodes(ClientRound, Encode, Delivered, ok);
    DecodeUndoesEncode(ClientRound, Encode, Delivered, ok, sent, ps);
    DeliveredAll(sent, ps);
  }

  // The demultiplexer.

  /** A client's connection to the proxy: not up yet, up, or closed; what it was handed, and what waits for it. */
  datatype Entry = Entry(up: bool, closed: bool, handed: Bytes, pending: Bytes)

  /** `log` is the history of packets dealt with. */
  datatype Demux = Demux(entries: map<nat, Entry>, log: seq<Packet>)

  const CONN: Bytes := [67, 79, 78, 78, 32]
  const IS_UP: Bytes := [32, 73, 83, 32, 85, 80]
  const IS_DOWN: Bytes := [32, 73, 83, 32, 68, 79, 87, 78]
  const FROM: Bytes := [32, 70, 82, 79, 77, 32]

  /** `atoi`, on digits. */
  function Atoi(s: Bytes): int {
    Number(Digits(s))
  }

  function Digits(s: Bytes): Bytes {
    if s != [] && IsDigit(s[0]) then [s[0]] + Digits(s[1..]) else []
  }

  predicate OccursAt(s: Bytes, t: Bytes, i: nat) {
    i + |t| <= |s| && s[i..i + |t|] == t
  }

  predicate Contains(s: Bytes, t: Bytes) {
    exists i :: 0 <= i <= |s| && OccursAt(s, t, i)
  }

  /** `doCommand`; an announcement of an id that is known, or the end of one that is not, fails an assertion. */
  function Command(s: Demux, cmd: Bytes): Option<Demux> {
    if |cmd| < |CONN| then None
    else
      var id := Atoi(cmd[|CONN|..]);
      if id < 0 then None
      else if Contains(cmd, IS_UP) then
        if id in s.entries then None else Some(s.(entries := s.entries[id := Entry(false, false, [], [])]))
      else if id !in s.entries then None
      else if s.entries[id].up then Some(s.(entries := s.entries[id := s.entries[id].(closed := true)]))
      else Some(s.(entries := s.entries - {id}))
  }

  /** A data packet: handed over, kept until the connection is up, or lost on a closed one. */
  function Data(s: Demux, p: Packet): Option<Demux> {
    if p.id !in s.entries then None
    else
      var e := s.entries[p.id];
      if e.closed then Some(s)
      else if e.up then
        if e.pending != [] then None else Some(s.(entries := s.entries[p.id := e.(handed := e.handed + p.payload)]))
      else Some(s.(entries := s.entries[p.id := e.(pending := e.pending + p.payload)]))
  }

  function Deal(s: Demux, p: Packet): Option<Demux> {
    match if p.id == 0 then Command(s, p.payload) else Data(s, p)
    case None => None
    case Some(t) => Some(t.(log := s.log + [p]))
  }

  /** One round of the loop in `onServerMessage`. */
  function OneRound(s: Demux, buf: Bytes): Round<Demux> {
    match Head(buf)
    case None => Wait
    case Some(p) =>
      match Deal(s, p)
      case None => GiveUp
      case Some(t) => Took(HEADER_LEN + |p.payload|, t)
  }

  /** `onServerMessage`. */
  method OnServerMessage(s: Demux, buf: Buffer) returns (t: Demux, ok: bool)
    requires buf.Valid()
    modifies buf
    ensures buf.Valid() && (t, buf.Contents()) == Drain(OneRound, s, old(buf.Contents()))
    ensures ok <==> OneRound(t, buf.Contents()) != GiveUp
  {
    hide Deal;
    t, ok := s, true;
    while |buf.Contents()| > HEADER_LEN
      invariant buf.Valid() && ok && Drain(OneRound, t, buf.Contents()) == Drain(OneRound, s, old(buf.Contents()))
      decreases |buf.Contents()|
    {
      var len := buf.Contents()[0];
      if |buf.Contents()| < len + HEADER_LEN {
        break;
      }
      var p := Packet((buf.Contents()[1] as int) + 256 * (buf.Contents()[2] as int),
          buf.Contents()[HEADER_LEN..HEADER_LEN + len]);
      assert Head(buf.Contents()) == Some(p);
      match Deal(t, p) {
        case None =>
          ok := false;
          break;
        case Some(u) =>
          t := u;
      }
      buf.Retrieve(len + HEADER_LEN);
    }
  }

  /** A connection to the proxy comes up and takes what waited for it, or closes. */
  function SocksUp(s: Demux, id: nat): Demux {
    if id in s.entries && !s.entries[id].up then
      var e := s.entries[id];
      s.(entries := s.entries[id := e.(up := true, handed := e.handed + e.pending, pending := [])])
    else s
  }

  function SocksDown(s: Demux, id: nat): Demux {
    if id in s.entries && s.entries[id].up then s.(entries := s.entries[id := s.entries[id].(closed := true)]) else s
  }

  // Runs: chunks and events in any order.

  datatype Step = Chunk(b: Bytes) | Up(id: nat) | Down(id: nat)

  /** `arrived` is all that the connection has brought. */
  datatype Server = Server(demux: Demux, rest: Bytes, arrived: Bytes)

  function Start(): Server {
    Server(Demux(map[], []), [], [])
  }

  function Next(r: Server, step: Step): Option<Server> {
    match step
    case Chunk(b) =>
      var (d, rest) := Drain(OneRound, r.demux, r.rest + b);
      Some(Server(d, rest, r.arrived + b))
    case Up(id) => Some(r.(demux := SocksUp(r.demux, id)))
    case Down(id) => Some(r.(demux := SocksDown(r.demux, id)))
  }

  /** All that the connection brought. */
  function Brought(steps: seq<Step>): Bytes {
    if steps == [] then []
    else
      var last := steps[|steps| - 1];
      Brought(steps[..|steps| - 1]) + if last.Chunk? then last.b else []
  }

  lemma {:induction false} ArrivedIsBrought(steps: seq<Step>)
    requires Run(Next, Start(), steps).Some?
    ensures Run(Next, Start(), steps).value.arrived == Brought(steps)
    decreases |steps|
  {
    hide OneRound, Drain;
    if steps != [] {
      LastOfRun(Next, Start(), steps);
      ArrivedIsBrought(steps[..|steps| - 1]);
    }
  }

  /** A command that names the id: a stream begins, or ends. */
  predicate Names(p: Packet, id: nat) {
    p.id == 0 && |p.payload| >= |CONN| && Atoi(p.payload[|CONN|..]) == id
  }

  /** The payloads for the id since the last command that names it. */
  function Current(log: seq<Packet>, id: nat): Bytes {
    if log == [] then []
    else
      var p := log[|log| - 1];
      if Names(p, id) then [] else Current(log[..|log| - 1], id) + if p.id == id && id != 0 then p.payload else []
  }

  lemma CurrentAppend(log: seq<Packet>, p: Packet, id: nat)
    ensures Current(log + [p], id) == if Names(p, id) then [] else Current(log, id) + if p.id == id && id != 0 then
        p.payload else []
  {
    assert (log + [p])[..|log|] == log;
  }

  /** Bytes handed over and bytes that wait make up the client's stream, until its connection closes. */
  predicate StreamKept(s: Demux, id: nat)
    requires id in s.entries
  {
    var e := s.entries[id];
    && (e.up ==> e.pending == [])
    && (!e.closed ==> e.handed + e.pending == Current(s.log, id))
  }

  predicate Kept(s: Demux) {
    forall id :: id in s.entries ==> StreamKept(s, id)
  }

  lemma DealKeeps(s: Demux, p: Packet)
    requires Kept(s) && Deal(s, p).Some?
    ensures Kept(Deal(s, p).value)
  {
    hide Deal, StreamKept;
    var t := Deal(s, p).value;
    forall id | id in t.entries
      ensures StreamKept(t, id)
    {
      assert id in s.entries ==> StreamKept(s, id);
      if p.id == 0 {
        CommandKeeps(s, p, id);
      } else {
        DataAddsNobody(s, p, id);
        DataKeeps(s, p, id);
      }
    }
  }

  lemma CommandKeeps(s: Demux, p: Packet, id: nat)
    requires p.id == 0 && Deal(s, p).Some? && id in Deal(s, p).value.entries && (id in s.entries ==> StreamKept(s, id))
    ensures StreamKept(Deal(s, p).value, id)
  {
    hide Contains, Atoi, Current;
    CurrentAppend(s.log, p, id);
    assert Current(s.log, id) + [] == Current(s.log, id);
  }

  lemma DataAddsNobody(s: Demux, p: Packet, id: nat)
    requires p.id != 0 && Deal(s, p).Some? && id in Deal(s, p).value.entries
    ensures id in s.entries
  {
    hide Command;
  }

  lemma DataKeeps(s: Demux, p: Packet, id: nat)
    requires p.id != 0 && Deal(s, p).Some? && id in s.entries && StreamKept(s, id)
    ensures id in Deal(s, p).value.entries && StreamKept(Deal(s, p).value, id)
  {
    hide Command, Current;
    CurrentAppend(s.log, p, id);
    assert Current(s.log, id) + [] == Current(s.log, id);
    if p.id == id {
      var e := s.entries[id];
      assert e.handed + (e.pending + p.payload) == e.handed + e.pending + p.payload;
      assert e.handed + p.payload + [] == e.handed + [] + p.payload;
    }
  }

  lemma SocksKeeps(s: Demux, id: nat)
    requires Kept(s)
    ensures Kept(SocksUp(s, id)) && Kept(SocksDown(s, id))
  {
    forall d | d in s.entries
      ensures StreamKept(SocksUp(s, id), d) && StreamKept(SocksDown(s, id), d)
    {
      assert StreamKept(s, d);
      var e := s.entries[d];
      assert e.handed + e.pending + [] == e.handed + e.pending;
    }
  }

  predicate AllFramed(ps: seq<Packet>) {
    forall p :: p in ps ==> Framed(p)
  }

  /** The packets dealt with and what is left are what has arrived. */
  predicate Parsed(r: Server) {
    AllFramed(r.demux.log) && Encoded(Encode, r.demux.log) + r.rest == r.arrived
  }

  predicate Inv(r: Server) {
    Kept(r.demux) && Parsed(r)
  }

  lemma {:induction false} EncodedAppend(ps: seq<Packet>, p: Packet)
    ensures Encoded(Encode, ps + [p]) == Encoded(Encode, ps) + Encode(p)
    decreases |ps|
  {
    hide Encode;
    if ps == [] {
      FirstPacket(p, []);
      assert [] + [p] == [p];
    } else {
      EncodedAppend(ps[1..], p);
      assert (ps + [p])[1..] == ps[1..] + [p];
    }
  }

  lemma HeadIsEncoded(buf: Bytes)
    requires Head(buf).Some?
    ensures var p := Head(buf).value;
            Framed(p) && buf == Encode(p) + buf[HEADER_LEN + |p.payload|..] && HEADER_LEN + |p.payload| <= |buf|
  {
    var p := Head(buf).value;
    assert buf[..HEADER_LEN] == [buf[0], buf[1], buf[2]];
    assert buf == buf[..HEADER_LEN] + p.payload + buf[HEADER_LEN + |p.payload|..];
  }

  lemma {:induction false} DrainKeeps(s: Demux, buf: Bytes, arrived: Bytes)
    requires Inv(Server(s, buf, arrived))
    ensures var (d, rest) := Drain(OneRound, s, buf); Inv(Server(d, rest, arrived))
    decreases |buf|
  {
    hide Deal, Kept, Encode, Head;
    if OneRound(s, buf).Took? {
      HeadIsEncoded(buf);
      var p := Head(buf).value;
      var rest := buf[HEADER_LEN + |p.payload|..];
      DealLogs(s, p);
      DealKeeps(s, p);
      EncodedAppend(s.log, p);
      var t := OneRound(s, buf).s;
      assert Encoded(Encode, s.log) + (Encode(p) + rest) == Encoded(Encode, s.log) + Encode(p) + rest;
      DrainKeeps(t, rest, arrived);
    }
  }

  lemma DealLogs(s: Demux, p: Packet)
    requires Deal(s, p).Some?
    ensures Deal(s, p).value.log == s.log + [p]
  {
  }

  lemma StepKeeps(r: Server, step: Step)
    requires Inv(r)
    ensures Next(r, step).Some? && Inv(Next(r, step).value)
  {
    match step {
      case Chunk(b) =>
        assert Encoded(Encode, r.demux.log) + r.rest + b == Encoded(Encode, r.demux.log) + (r.rest + b);
        DrainKeeps(r.demux, r.rest + b, r.arrived + b);
      case Up(id) => SocksKeeps(r.demux, id);
      case Down(id) => SocksKeeps(r.demux, id);
    }
  }

  lemma EveryRunKeeps(steps: seq<Step>)
    requires Run(Next, Start(), steps).Some?
    ensures Inv(Run(Next, Start(), steps).value)
  {
    hide Run, Inv, Next;
    forall r, step | Inv(r) && Next(r, step).Some?
      ensures Inv(Next(r, step).value)
    {
      StepKeeps(r, step);
    }
    StartInv();
    KeptByRuns(Next, Inv, Start(), steps);
  }

  lemma StartInv()
    ensures Inv(Start())
  {
  }

  // What was sent.

  lemma NothingEncoded()
    ensures Encoded(Encode, []) == []
  {
  }

  lemma EncodeIsLong(p: Packet)
    requires Framed(p)
    ensures |Encode(p)| >= HEADER_LEN
  {
  }

  lemma SendableIsFramed(p: Packet)
    requires Sendable(p)
    ensures Framed(p)
  {
  }

  /** No sequence of packets can be taken for another one. */
  lemma {:induction false} PrefixCode(log: seq<Packet>, rest: Bytes, ps: seq<Packet>)
    requires AllFramed(log) && (forall p :: p in ps ==> Sendable(p))
    requires Encoded(Encode, log) + rest == Encoded(Encode, ps)
    ensures log <= ps && rest == Encoded(Encode, ps[|log|..])
    decreases |log|
  {
    hide Encode, Framed;
    NothingEncoded();
    if log == [] {
      assert [] + rest == rest;
      assert ps[0..] == ps;
    } else {
      var p, tail := log[0], Encoded(Encode, log[1..]) + rest;
      assert p in log && log == [p] + log[1..];
      FirstPacket(p, log[1..]);
      EncodeIsLong(p);
      assert Encode(p) + tail == Encoded(Encode, ps);
      var q, others := ps[0], Encoded(Encode, ps[1..]);
      assert q in ps && ps == [q] + ps[1..];
      FirstPacket(q, ps[1..]);
      SendableIsFramed(q);
      SameHead(p, tail, q, others);
      PrefixCode(log[1..], rest, ps[1..]);
      assert ps[1..][|log| - 1..] == ps[|log|..];
    }
  }

  lemma SameHead(p: Packet, a: Bytes, q: Packet, b: Bytes)
    requires Framed(p) && Framed(q) && Encode(p) + a == Encode(q) + b
    ensures p == q && a == b
  {
    var s := Encode(p) + a;
    assert s[0] == |p.payload| && s[1] == p.id % 256 && s[2] == p.id / 256;
    assert s[0] == |q.payload| && s[1] == q.id % 256 && s[2] == q.id / 256;
    var n := HEADER_LEN + |p.payload|;
    assert s[HEADER_LEN..n] == p.payload && s[HEADER_LEN..n] == q.payload;
    assert s[n..] == a && s[n..] == b;
  }

  lemma NextIsComplete(ps: seq<Packet>, n: nat)
    requires n < |ps| && (forall p :: p in ps ==> Sendable(p))
    ensures Head(Encoded(Encode, ps[n..])).Some?
  {
    var p := ps[n];
    assert p in ps;
    FirstPacket(p, ps[n + 1..]);
    assert ps[n..] == [p] + ps[n + 1..];
    HeadOfEncoded(p, Encoded(Encode, ps[n + 1..]));
  }

  // Which packets the demultiplexer can deal with.

  /** The ids that were ever announced, and those whose streams have not ended. */
  datatype Ids = Ids(known: set<nat>, active: set<nat>)

  /** An id is announced before its data, ends after them, and may then be announced again. */
  function Book(ids: Ids, p: Packet): Option<Ids> {
    if p.id != 0 then
      if p.id in ids.active then Some(ids) else None
    else if |p.payload| < |CONN| || Atoi(p.payload[|CONN|..]) < 0 then None
    else
      var id := Atoi(p.payload[|CONN|..]);
      if Contains(p.payload, IS_UP) then
        if id in ids.active then None else Some(Ids(ids.known + {id}, ids.active + {id}))
      else if id in ids.active then Some(ids.(active := ids.active - {id}))
      else None
  }

  const NOBODY := Ids({}, {})

  predicate Legal(ps: seq<Packet>) {
    Run(Book, NOBODY, ps).Some?
  }

  /** The ids whose streams are open after the packets. */
  function Active(ps: seq<Packet>): set<nat>
    requires Legal(ps)
  {
    Run(Book, NOBODY, ps).value.active
  }

  /** The entries are between the ids in use and those ever announced. */
  predicate Booked(s: Demux) {
    Legal(s.log) ==> Active(s.log) <= s.entries.Keys <= Run(Book, NOBODY, s.log).value.known
  }

  lemma PrefixIsLegal(a: seq<Packet>, ps: seq<Packet>)
    requires a <= ps && Legal(ps)
    ensures Legal(a)
  {
    hide Book;
    assert a + ps[|a|..] == ps;
    if !Legal(a) {
      StuckStaysStuck(Book, NOBODY, a, ps[|a|..]);
    }
  }

  /** It announces an id whose entry is there. */
  predicate Repeats(s: Demux, p: Packet) {
    p.id == 0 && |p.payload| >= |CONN| && Contains(p.payload, IS_UP) && Atoi(p.payload[|CONN|..]) in s.entries.Keys
  }

  /** A legal packet is dealt with unless it repeats an announcement, and the entries stay as they should be. */
  lemma LegalIsDealt(s: Demux, ids: Ids, p: Packet)
    requires Kept(s) && ids.active <= s.entries.Keys <= ids.known && Book(ids, p).Some?
    ensures Deal(s, p).Some? <==> !Repeats(s, p)
    ensures Deal(s, p).Some? ==>
              var t, z := Deal(s, p).value, Book(ids, p).value; z.active <= t.entries.Keys <= z.known
  {
    hide Contains, Atoi;
    assert p.id in s.entries ==> StreamKept(s, p.id);
  }

  lemma DealBooks(s: Demux, p: Packet)
    requires Kept(s) && Booked(s)
    ensures Legal(s.log + [p]) ==> (Deal(s, p).Some? <==> !Repeats(s, p))
    ensures Deal(s, p).Some? ==> Booked(Deal(s, p).value)
  {
    hide Deal, Kept, Book;
    if Legal(s.log + [p]) {
      PrefixIsLegal(s.log, s.log + [p]);
      StepAfterRun(Book, NOBODY, s.log, p);
      LegalIsDealt(s, Run(Book, NOBODY, s.log).value, p);
    }
    if Deal(s, p).Some? {
      DealLogs(s, p);
    }
  }

  lemma {:induction false} DrainBooks(s: Demux, buf: Bytes)
    requires Kept(s) && Booked(s)
    ensures var (d, rest) := Drain(OneRound, s, buf); Kept(d) && Booked(d) && Cleared(Server(d, rest, []))
    decreases |buf|
  {
    hide Deal, Kept, Booked, Head, Legal;
    if Head(buf).Some? {
      var p := Head(buf).value;
      DealBooks(s, p);
      if Deal(s, p).Some? {
        DealKeeps(s, p);
        HeadIsEncoded(buf);
        DrainBooks(Deal(s, p).value, buf[HEADER_LEN + |p.payload|..]);
      }
    }
  }

  /** A packet is left over only when it is not legal or repeats an announcement. */
  predicate Cleared(r: Server) {
    Head(r.rest).Some? ==> Repeats(r.demux, Head(r.rest).value) || !Legal(r.demux.log + [Head(r.rest).value])
  }

  predicate InOrder(r: Server) {
    Inv(r) && Booked(r.demux) && Cleared(r)
  }

  lemma StepStaysInOrder(r: Server, step: Step)
    requires InOrder(r)
    ensures InOrder(Next(r, step).value)
  {
    hide Inv, Booked, Legal, Head;
    StepKeeps(r, step);
    match step {
      case Chunk(b) =>
        InvIsKept(r);
        DrainBooks(r.demux, r.rest + b);
      case Up(id) => SocksBooks(r.demux, id);
      case Down(id) => SocksBooks(r.demux, id);
    }
  }

  lemma InvIsKept(r: Server)
    requires Inv(r)
    ensures Kept(r.demux)
  {
  }

  lemma SocksBooks(s: Demux, id: nat)
    ensures Booked(SocksUp(s, id)) <==> Booked(s)
    ensures Booked(SocksDown(s, id)) <==> Booked(s)
  {
    hide Legal;
  }

  lemma EveryRunInOrder(steps: seq<Step>)
    requires Run(Next, Start(), steps).Some?
    ensures InOrder(Run(Next, Start(), steps).value)
  {
    hide Run, InOrder, Next;
    forall r, step | InOrder(r) && Next(r, step).Some?
      ensures InOrder(Next(r, step).value)
    {
      StepStaysInOrder(r, step);
    }
    StartInOrder();
    KeptByRuns(Next, InOrder, Start(), steps);
  }

  lemma StartInOrder()
    ensures InOrder(Start())
  {
    StartInv();
  }

  /** The demultiplexer stands before an announcement of an id that was announced before and whose entry is there. */
  predicate Stuck(r: Server) {
    && OneRound(r.demux, r.rest) == GiveUp && Head(r.rest).Some? && Repeats(r.demux, Head(r.rest).value)
    && Legal(r.demux.log)
    && Atoi(Head(r.rest).value.payload[|CONN|..]) in Run(Book, NOBODY, r.demux.log).value.known
  }

  /** The packet that comes next is the next one that was sent. */
  lemma NextIsSent(r: Server, ps: seq<Packet>, more: Bytes)
    requires Inv(r) && Head(r.rest).Some? && (forall p :: p in ps ==> Sendable(p))
    requires r.arrived + more == Encoded(Encode, ps)
    ensures r.demux.log + [Head(r.rest).value] <= ps
  {
    hide Encode, Kept, Head;
    HeadIsEncoded(r.rest);
    var p, log := Head(r.rest).value, r.demux.log;
    var tail := r.rest[HEADER_LEN + |p.payload|..] + more;
    EncodedAppend(log, p);
    assert Encoded(Encode, log) + Encode(p) + tail == Encoded(Encode, log) + r.rest + more;
    PrefixCode(log + [p], tail, ps);
  }

  lemma InvHolds(r: Server)
    requires InOrder(r)
    ensures Inv(r) && Kept(r.demux) && Booked(r.demux) && Cleared(r)
  {
  }

  /** On a prefix of what can legally be sent, the only assertion that fails is that of a repeated announcement. */
  lemma GivesUpOnRepeats(steps: seq<Step>, ps: seq<Packet>, more: Bytes)
    requires Run(Next, Start(), steps).Some? && (forall p :: p in ps ==> Sendable(p)) && Legal(ps)
    requires Brought(steps) + more == Encoded(Encode, ps)
    ensures var r := Run(Next, Start(), steps).value;
            OneRound(r.demux, r.rest) == Wait || Stuck(r)
  {
    hide Run, Legal, Encode, InOrder, Inv, Kept, Booked, Repeats, Stuck, Deal, Head, Brought;
    ArrivedIsBrought(steps);
    EveryRunInOrder(steps);
    var r := Run(Next, Start(), steps).value;
    InvHolds(r);
    if Head(r.rest).Some? {
      var p, log := Head(r.rest).value, r.demux.log;
      NextIsSent(r, ps, more);
      PrefixIsLegal(log + [p], ps);
      PrefixIsLegal(log, ps);
      DealBooks(r.demux, p);
      StandsStuck(r);
    }
  }

  lemma StandsStuck(r: Server)
    requires Booked(r.demux) && Legal(r.demux.log) && Head(r.rest).Some?
    requires Repeats(r.demux, Head(r.rest).value) && Deal(r.demux, Head(r.rest).value).None?
    ensures Stuck(r)
  {
    hide Contains, Atoi, Book, Deal;
  }

  /** When all has arrived and nothing is complete any more, all was dealt with. */
  lemma AllDealt(r: Server, ps: seq<Packet>)
    requires Inv(r) && r.arrived == Encoded(Encode, ps) && (forall p :: p in ps ==> Sendable(p))
    requires OneRound(r.demux, r.rest) == Wait
    ensures r.demux.log == ps && r.rest == []
  {
    hide Encode, Kept, Deal;
    var n := |r.demux.log|;
    PrefixCode(r.demux.log, r.rest, ps);
    if n < |ps| {
      NextIsComplete(ps, n);
      assert false;
    }
    NothingEncoded();
    assert ps[n..] == [];
  }

  /** Whatever the chunks, and whenever connections come up or close: when legal packets have arrived, all were dealt
      with, in order; and each client whose stream is open has an entry, and unless that connection is closed, what it
      was handed and what waits for it are the bytes that were sent for the client. The exception is an announcement
      that is repeated while the old entry is there. */
  lemma StreamsArrive(steps: seq<Step>, ps: seq<Packet>, id: nat)
    requires Run(Next, Start(), steps).Some? && (forall p :: p in ps ==> Sendable(p)) && Legal(ps)
    requires Brought(steps) == Encoded(Encode, ps)
    ensures var r := Run(Next, Start(), steps).value;
            Stuck(r) || (
              && r.demux.log == ps && r.rest == [] && Active(ps) <= r.demux.entries.Keys
              && (id in r.demux.entries && !r.demux.entries[id].closed ==>
                    r.demux.entries[id].handed + r.demux.entries[id].pending == Current(ps, id)))
  {
    hide Run, Legal, Encode, Active, Stuck, Deal, Head, Inv, Repeats, Brought;
    ArrivedIsBrought(steps);
    var r := Run(Next, Start(), steps).value;
    EveryRunInOrder(steps);
    InvHolds(r);
    assert Brought(steps) + [] == Brought(steps);
    GivesUpOnRepeats(steps, ps, []);
    if !Stuck(r) {
      AllDealt(r, ps);
      assert id in r.demux.entries ==> StreamKept(r.demux, id);
    }
  }

  /** No packet announces an id that was announced before it. */
  predicate AnnouncedOnce(ps: seq<Packet>)
    requires Legal(ps)
  {
    forall n :: 0 <= n < |ps| ==> NewIn(ps, n)
  }

  predicate NewIn(ps: seq<Packet>, n: nat)
    requires n < |ps|
  {
    var p, before := ps[n], Run(Book, NOBODY, ps[..n]);
    p.id == 0 && |p.payload| >= |CONN| && Contains(p.payload, IS_UP) && before.Some? ==>
      Atoi(p.payload[|CONN|..]) !in before.value.known
  }

  lemma NewIsNotKnown(ps: seq<Packet>, log: seq<Packet>, p: Packet)
    requires Legal(ps) && AnnouncedOnce(ps) && log + [p] <= ps && Legal(log)
    requires p.id == 0 && |p.payload| >= |CONN| && Contains(p.payload, IS_UP)
    ensures Atoi(p.payload[|CONN|..]) !in Run(Book, NOBODY, log).value.known
  {
    hide Contains, Atoi, Book, Run;
    assert ps[|log|] == p && ps[..|log|] == log;
    assert NewIn(ps, |log|);
  }

  /** So with ids that are announced once the demultiplexer never gives up. */
  lemma NeverGivesUp(steps: seq<Step>, ps: seq<Packet>, more: Bytes)
    requires Run(Next, Start(), steps).Some? && (forall p :: p in ps ==> Sendable(p)) && Legal(ps) && AnnouncedOnce(ps)
    requires Brought(steps) + more == Encoded(Encode, ps)
    ensures var r := Run(Next, Start(), steps).value; OneRound(r.demux, r.rest) == Wait
  {
    hide Run, Encode, Inv, InOrder, Book, Contains, Atoi, OneRound, Legal, Head, AnnouncedOnce, Brought;
    ArrivedIsBrought(steps);
    GivesUpOnRepeats(steps, ps, more);
    EveryRunInOrder(steps);
    var r := Run(Next, Start(), steps).value;
    InvHolds(r);
    if Stuck(r) {
      NextIsSent(r, ps, more);
      NewIsNotKnown(ps, r.demux.log, Head(r.rest).value);
    }
  }

  /** Before that, what was dealt with is a prefix of what was sent. */
  lemma AlwaysAPrefix(steps: seq<Step>, ps: seq<Packet>, more: Bytes)
    requires Run(Next, Start(), steps).Some? && (forall p :: p in ps ==> Sendable(p))
    requires Brought(steps) + more == Encoded(Encode, ps)
    ensures Run(Next, Start(), steps).value.demux.log <= ps
  {
    hide Run, Encode, Kept, Brought;
    ArrivedIsBrought(steps);
    var r := Run(Next, Start(), steps).value;
    EveryRunKeeps(steps);
    assert Encoded(Encode, r.demux.log) + (r.rest + more) == Encoded(Encode, r.demux.log) + r.rest + more;
    PrefixCode(r.demux.log, r.rest + more, ps);
  }

  // End to end.

  /** A client connects and is given an id, sends a buffer, or disconnects. */
  datatype Event = Connect(id: nat, peer: Bytes) | Message(id: nat, data: Bytes) | Disconnect(id: nat, peer: Bytes)

  const UPPER_U: Byte := 85

  /** An address and a port. */
  predicate PeerName(peer: Bytes) {
    |peer| <= 64 && UPPER_U !in peer
  }

  /** Ids are from 1 to 65535, and none is given to two clients at a time. */
  function Happens(ids: Ids, e: Event): Option<Ids> {
    if !(0 < e.id < 0x1_0000) then None
    else match e
      case Connect(id, peer) =>
        if id in ids.active || !PeerName(peer) then None else Some(Ids(ids.known + {id}, ids.active + {id}))
      case Message(id, _) => if id in ids.active then Some(ids) else None
      case Disconnect(id, peer) =>
        if id !in ids.active || !PeerName(peer) then None else Some(ids.(active := ids.active - {id}))
  }

  /** `onClientConnection` and `onClientMessage`: what goes to the backend. */
  function PacketsOf(e: Event): seq<Packet> {
    match e
    case Connect(id, peer) => [Packet(0, Announcement(id, peer))]
    case Message(id, data) => Split(id, data)
    case Disconnect(id, peer) => [Packet(0, Farewell(id, peer))]
  }

  function AllPackets(es: seq<Event>): seq<Packet> {
    if es == [] then [] else AllPackets(es[..|es| - 1]) + PacketsOf(es[|es| - 1])
  }

  /** What the client sent that has the id. */
  function SentBy(es: seq<Event>, id: nat): Bytes {
    if es == [] then []
    else
      var e := es[|es| - 1];
      if e.Connect? && e.id == id then []
      else SentBy(es[..|es| - 1], id) + if e.Message? && e.id == id then e.data else []
  }

  lemma NoPayloads(id: nat)
    ensures Payloads([], id) == []
  {
  }

  /** Packets that do not name the id add their payloads to its stream. */
  lemma {:induction false} CurrentGrows(log: seq<Packet>, ps: seq<Packet>, id: nat)
    requires id != 0 && forall p :: p in ps ==> !Names(p, id)
    ensures Current(log + ps, id) == Current(log, id) + Payloads(ps, id)
  {
    hide Current, Names, Payloads;
    if ps == [] {
      assert log + ps == log;
      NoPayloads(id);
    } else {
      var init, p := ps[..|ps| - 1], ps[|ps| - 1];
      assert p in ps && ps == init + [p] && log + ps == log + init + [p];
      CurrentGrows(log, init, id);
      CurrentAppend(log + init, p, id);
      PayloadsAppend(init, p, id);
    }
  }

  /** The data of one client do not change what is booked. */
  lemma {:induction false} DataAreBooked(ids: Ids, ps: seq<Packet>, id: nat)
    requires id in ids.active && id != 0 && forall p :: p in ps ==> p.id == id
    ensures Run(Book, ids, ps) == Some(ids)
    decreases |ps|
  {
    if ps != [] {
      assert ps[0] in ps;
      DataAreBooked(ids, ps[1..], id);
    }
  }

  /** The packets of an event can be sent, and book what the event does. */
  lemma EventIsBooked(ids: Ids, e: Event)
    requires Happens(ids, e).Some?
    ensures Run(Book, ids, PacketsOf(e)) == Happens(ids, e)
    ensures forall p :: p in PacketsOf(e) ==> Sendable(p)
  {
    hide Book, Announcement, Farewell, Sendable;
    match e {
      case Connect(id, peer) =>
        OneStep(Book, ids, Packet(0, Announcement(id, peer)));
        ConnectIsBooked(ids, id, peer);
      case Message(id, data) =>
        SplitCarriesTheData(id, data);
        DataAreBooked(ids, Split(id, data), id);
      case Disconnect(id, peer) =>
        OneStep(Book, ids, Packet(0, Farewell(id, peer)));
        DisconnectIsBooked(ids, id, peer);
    }
  }

  lemma ConnectIsBooked(ids: Ids, id: nat, peer: Bytes)
    requires id !in ids.active && 0 < id < 0x1_0000 && PeerName(peer)
    ensures Book(ids, Packet(0, Announcement(id, peer))) == Some(Ids(ids.known + {id}, ids.active + {id}))
    ensures Sendable(Packet(0, Announcement(id, peer)))
  {
    AnnouncedId(id, peer);
    AnnouncedUp(id, peer);
    NumeralLength(id, 5);
    hide Contains, Atoi, Decimal;
    assert Power10(5) == 100000;
  }

  lemma DisconnectIsBooked(ids: Ids, id: nat, peer: Bytes)
    requires id in ids.active && 0 < id < 0x1_0000 && PeerName(peer)
    ensures Book(ids, Packet(0, Farewell(id, peer))) == Some(ids.(active := ids.active - {id}))
    ensures Sendable(Packet(0, Farewell(id, peer)))
  {
    FarewellId(id, peer);
    FarewellIsNotUp(id, peer);
    NumeralLength(id, 5);
    hide Contains, Atoi, Decimal;
    assert Power10(5) == 100000;
  }

  /** What an event adds to the stream of an id. */
  lemma EventAdds(log: seq<Packet>, ids: Ids, e: Event, id: nat)
    requires Happens(ids, e).Some? && id != 0
    ensures Current(log + PacketsOf(e), id)
            == if e.Connect? && e.id == id then []
               else if e.Disconnect? && e.id == id then []
               else Current(log, id) + if e.Message? && e.id == id then e.data else []
  {
    hide Current, Names, Announcement, Farewell;
    match e {
      case Connect(d, peer) =>
        AnnouncedId(d, peer);
        CurrentAppend(log, Packet(0, Announcement(d, peer)), id);
        NamesOnlyOne(Packet(0, Announcement(d, peer)), d, id);
      case Message(d, data) =>
        SplitCarriesTheData(d, data);
        forall p | p in Split(d, data)
          ensures !Names(p, id)
        {
          DataNameNobody(p, id);
        }
        CurrentGrows(log, Split(d, data), id);
        if d != id {
          OthersPayloads(Split(d, data), d, id);
        }
      case Disconnect(d, peer) =>
        FarewellId(d, peer);
        CurrentAppend(log, Packet(0, Farewell(d, peer)), id);
        NamesOnlyOne(Packet(0, Farewell(d, peer)), d, id);
    }
  }

  lemma NamesOnlyOne(p: Packet, a: nat, b: nat)
    requires Names(p, a)
    ensures Names(p, b) <==> a == b
  {
    hide Atoi;
  }

  lemma DataNameNobody(p: Packet, id: nat)
    requires p.id != 0
    ensures !Names(p, id)
  {
  }

  lemma {:induction false} OthersPayloads(ps: seq<Packet>, d: nat, id: nat)
    requires d != id && forall p :: p in ps ==> p.id == d
    ensures Payloads(ps, id) == []
  {
    if ps != [] {
      assert ps[|ps| - 1] in ps;
      OthersPayloads(ps[..|ps| - 1], d, id);
    }
  }

  /** The packets of what clients do are legal and can be sent, and the stream of a connected client is what it sent. */
  lemma {:induction false} EventsAreLegal(es: seq<Event>, id: nat)
    requires Run(Happens, NOBODY, es).Some? && id != 0
    ensures Run(Book, NOBODY, AllPackets(es)) == Run(Happens, NOBODY, es)
    ensures forall p :: p in AllPackets(es) ==> Sendable(p)
    ensures var ids := Run(Happens, NOBODY, es).value;
            ids.active <= ids.known && (id in ids.active ==> Current(AllPackets(es), id) == SentBy(es, id))
  {
    if es != [] {
      var init, e := es[..|es| - 1], es[|es| - 1];
      assert es == init + [e];
      if Run(Happens, NOBODY, init).None? {
        StuckStaysStuck(Happens, NOBODY, init, [e]);
      }
      EventsAreLegal(init, id);
      var ids := Run(Happens, NOBODY, init).value;
      StepAfterRun(Happens, NOBODY, init, e);
      EventIsBooked(ids, e);
      RunsCompose(Book, NOBODY, AllPackets(init), PacketsOf(e));
      EventAdds(AllPackets(init), ids, e, id);
    }
  }

  /** Clients connect, send and disconnect in any order, and ids are given again; the packets are cut into any chunks;
      the connections on the far side come up and close at any time. When everything has arrived, each client that is
      connected has an entry, and unless that connection is closed, what it was handed and what waits for it is what
      the client sent. The exception is an id that was given again while the old entry was there. */
  lemma ClientBytesArrive(steps: seq<Step>, es: seq<Event>, id: nat)
    requires Run(Next, Start(), steps).Some? && Run(Happens, NOBODY, es).Some?
    requires Brought(steps) == Encoded(Encode, AllPackets(es))
    requires id in Run(Happens, NOBODY, es).value.active && id != 0
    ensures var r := Run(Next, Start(), steps).value;
            Stuck(r) || (
              && r.demux.log == AllPackets(es) && id in r.demux.entries
              && var e := r.demux.entries[id];
                 !e.closed ==> e.handed + e.pending == SentBy(es, id) && (e.up ==> e.handed == SentBy(es, id)))
  {
    hide Run, Encode, Book, Happens, AllPackets, Current, SentBy, Sendable, Legal, Active, Stuck;
    EventsAreLegal(es, id);
    LegalByRun(AllPackets(es));
    StreamsArrive(steps, AllPackets(es), id);
    EveryRunKeeps(steps);
    var r := Run(Next, Start(), steps).value;
    if !Stuck(r) {
      assert id in r.demux.entries;
      assert StreamKept(r.demux, id);
      assert r.demux.entries[id].handed + [] == r.demux.entries[id].handed;
    }
  }

  lemma LegalByRun(ps: seq<Packet>)
    ensures Legal(ps) <==> Run(Book, NOBODY, ps).Some?
    ensures Legal(ps) ==> Active(ps) == Run(Book, NOBODY, ps).value.active
  {
  }

  // Announcements.

  /** The command that the multiplexer sends for a new client. */
  function Announcement(id: nat, peer: Bytes): Bytes {
    CONN + Decimal(id) + FROM + peer + IS_UP + CRLF
  }

  /** The command when it has gone. */
  function Farewell(id: nat, peer: Bytes): Bytes {
    CONN + Decimal(id) + FROM + peer + IS_DOWN + CRLF
  }

  lemma {:induction false} DigitsThen(s: Bytes, rest: Bytes)
    requires (forall i :: 0 <= i < |s| ==> IsDigit(s[i])) && (rest != [] ==> !IsDigit(rest[0]))
    ensures Digits(s + rest) == s
    decreases |s|
  {
    if s == [] {
      assert [] + rest == rest;
    } else {
      assert (s + rest)[1..] == s[1..] + rest;
      DigitsThen(s[1..], rest);
      assert [s[0]] + s[1..] == s;
    }
  }

  /** A command has the id after its first word. */
  lemma CommandId(id: nat, peer: Bytes, what: Bytes)
    ensures Names(Packet(0, CONN + Decimal(id) + FROM + peer + what + CRLF), id)
  {
    var cmd := CONN + Decimal(id) + FROM + peer + what + CRLF;
    var rest := FROM + peer + what + CRLF;
    NumeralIsTheNumber(id);
    DigitsThen(Decimal(id), rest);
    hide Decimal, Digits, Number;
    assert cmd == CONN + (Decimal(id) + rest);
    assert cmd[|CONN|..] == Decimal(id) + rest;
  }

  lemma AnnouncedId(id: nat, peer: Bytes)
    ensures Names(Packet(0, Announcement(id, peer)), id)
  {
    CommandId(id, peer, IS_UP);
  }

  lemma FarewellId(id: nat, peer: Bytes)
    ensures Names(Packet(0, Farewell(id, peer)), id)
  {
    CommandId(id, peer, IS_DOWN);
  }

  lemma DecimalDigits(n: nat)
    ensures forall b :: b in Decimal(n) ==> IsDigit(b)
  {
    NumeralIsTheNumber(n);
  }

  lemma ContainsItsBytes(s: Bytes, t: Bytes, k: nat)
    requires Contains(s, t) && k < |t|
    ensures t[k] in s
  {
    var i :| 0 <= i <= |s| && OccursAt(s, t, i);
    assert s[i..i + |t|][k] == s[i + k];
  }

  lemma FarewellIsNotUp(id: nat, peer: Bytes)
    requires PeerName(peer)
    ensures !Contains(Farewell(id, peer), IS_UP)
  {
    var cmd := Farewell(id, peer);
    hide Decimal;
    DecimalDigits(id);
    assert UPPER_U !in cmd;
    if Contains(cmd, IS_UP) {
      ContainsItsBytes(cmd, IS_UP, 4);
    }
  }

  lemma AnnouncedUp(id: nat, peer: Bytes)
    ensures Contains(Announcement(id, peer), IS_UP)
  {
    hide Decimal;
    var cmd, front := Announcement(id, peer), CONN + Decimal(id) + FROM + peer;
    assert cmd == front + IS_UP + CRLF;
    assert OccursAt(cmd, IS_UP, |front|);
  }

  /** The demultiplexer reads the id that was announced, and opens an empty stream for it. */
  lemma AnnouncementIsRead(s: Demux, id: nat, peer: Bytes)
    requires id !in s.entries
    ensures var cmd := Announcement(id, peer);
            Command(s, cmd) == Some(s.(entries := s.entries[id := Entry(false, false, [], [])]))
                && Names(Packet(0, cmd), id)
  {
    hide Announcement, Contains, Atoi;
    AnnouncedId(id, peer);
    AnnouncedUp(id, peer);
  }

  // Ids that are given again.

  /** What happens to the demultiplexer: a packet comes, or a connection to the proxy comes up or closes. */
  datatype Happening = Comes(p: Packet) | ComesUp(id: nat) | GoesDown(id: nat)

  function React(s: Demux, h: Happening): Option<Demux> {
    match h
    case Comes(p) => Deal(s, p)
    case ComesUp(id) => Some(SocksUp(s, id))
    case GoesDown(id) => Some(SocksDown(s, id))
  }

  lemma PresenceStays(s: Demux, h: Happening, id: nat)
    requires React(s, h).Some? && (h.Comes? ==> !Names(h.p, id))
    ensures id in React(s, h).value.entries <==> id in s.entries
  {
    hide Atoi, Contains;
  }

  lemma {:induction false} PresenceStaysAlong(s: Demux, hs: seq<Happening>, id: nat)
    requires Run(React, s, hs).Some? && forall i :: 0 <= i < |hs| && hs[i].Comes? ==> !Names(hs[i].p, id)
    ensures id in Run(React, s, hs).value.entries <==> id in s.entries
    decreases |hs|
  {
    hide React, Names;
    if hs != [] {
      PresenceStays(s, hs[0], id);
      PresenceStaysAlong(React(s, hs[0]).value, hs[1..], id);
    }
  }

  lemma FarewellIsDealt(s: Demux, id: nat, peer: Bytes)
    requires id in s.entries && PeerName(peer)
    ensures var t := Deal(s, Packet(0, Farewell(id, peer)));
            t.Some? && (id in t.value.entries <==> s.entries[id].up)
  {
    FarewellId(id, peer);
    FarewellIsNotUp(id, peer);
    hide Contains, Atoi, Farewell;
  }

  lemma AnnouncementIsDealt(s: Demux, id: nat, peer: Bytes)
    ensures Deal(s, Packet(0, Announcement(id, peer))).Some? <==> id !in s.entries
  {
    AnnouncedId(id, peer);
    AnnouncedUp(id, peer);
    hide Contains, Atoi, Announcement;
  }

  /** A client goes, and its id is given to the next one, whatever happens in between: the new announcement is dealt
      with exactly when the connection of the old client was not up at the farewell. Otherwise the old entry is still
      there, and an assertion fails. */
  lemma ReuseDecides(s: Demux, id: nat, gone: Bytes, hs: seq<Happening>, next: Bytes)
    requires id in s.entries && PeerName(gone)
    requires var t := Deal(s, Packet(0, Farewell(id, gone))); t.Some? ==> Run(React, t.value, hs).Some?
    requires forall i :: 0 <= i < |hs| && hs[i].Comes? ==> !Names(hs[i].p, id)
    ensures var t := Deal(s, Packet(0, Farewell(id, gone)));
            && t.Some?
            && (Deal(Run(React, t.value, hs).value, Packet(0, Announcement(id, next))).Some? <==> !s.entries[id].up)
  {
    hide Deal, Run, Names;
    FarewellIsDealt(s, id, gone);
    var t := Deal(s, Packet(0, Farewell(id, gone))).value;
    PresenceStaysAlong(t, hs, id);
    AnnouncementIsDealt(Run(React, t, hs).value, id, next);
  }

  // What becomes of an entry.

  datatype Life = Absent | Waiting | Open | Closed

  function LifeAfter(life: Life, h: Happening, id: nat): Life {
    match h
    case Comes(p) =>
      if !Names(p, id) then life
      else if Contains(p.payload, IS_UP) then Waiting
      else if life.Waiting? then Absent
      else Closed
    case ComesUp(d) => if d == id && life.Waiting? then Open else life
    case GoesDown(d) => if d == id && life.Open? then Closed else life
  }

  /** Told by what came, and by which connections came up or went down, alone. */
  function LifeOf(hs: seq<Happening>, id: nat): Life {
    if hs == [] then Absent else LifeAfter(LifeOf(hs[..|hs| - 1], id), hs[|hs| - 1], id)
  }

  function PacketsIn(hs: seq<Happening>): seq<Packet> {
    if hs == [] then []
    else
      var h := hs[|hs| - 1];
      PacketsIn(hs[..|hs| - 1]) + if h.Comes? then [h.p] else []
  }

  /** What was handed to the connection of the id: what was there for it when it came up, then the payloads that came
      while it was open. */
  function HandedTo(hs: seq<Happening>, id: nat): Bytes {
    if hs == [] then []
    else
      var init := hs[..|hs| - 1];
      HandedAfter(HandedTo(init, id), LifeOf(init, id), PacketsIn(init), hs[|hs| - 1], id)
  }

  function HandedAfter(handed: Bytes, life: Life, log: seq<Packet>, h: Happening, id: nat): Bytes {
    match h
    case Comes(p) => if p.id == id != 0 && life.Open? then handed + p.payload else handed
    case ComesUp(d) => if d == id && life.Waiting? then Current(log, id) else handed
    case GoesDown(_) => handed
  }

  predicate Shows(s: Demux, life: Life, id: nat, handed: Bytes) {
    match life
    case Absent => id !in s.entries
    case Waiting =>
      id in s.entries && !s.entries[id].up && !s.entries[id].closed && s.entries[id].handed == []
    case Open => id in s.entries && s.entries[id].up && !s.entries[id].closed && s.entries[id].handed == handed
    case Closed => id in s.entries && s.entries[id].up && s.entries[id].closed && s.entries[id].handed == handed
  }

  lemma LastHappening(hs: seq<Happening>, h: Happening, id: nat)
    ensures LifeOf(hs + [h], id) == LifeAfter(LifeOf(hs, id), h, id)
    ensures PacketsIn(hs + [h]) == PacketsIn(hs) + if h.Comes? then [h.p] else []
    ensures HandedTo(hs + [h], id) == HandedAfter(HandedTo(hs, id), LifeOf(hs, id), PacketsIn(hs), h, id)
  {
    hide LifeAfter, HandedAfter;
    assert (hs + [h])[..|hs|] == hs;
  }

  lemma HappeningShows(s: Demux, h: Happening, id: nat, life: Life, handed: Bytes)
    requires Shows(s, life, id, handed) && Kept(s) && React(s, h).Some?
    ensures Shows(React(s, h).value, LifeAfter(life, h, id), id, HandedAfter(handed, life, s.log, h, id))
  {
    hide Contains, Atoi, Current;
    if !h.Comes? {
      assert id in s.entries ==> StreamKept(s, id);
      assert id in s.entries ==> [] + s.entries[id].pending == s.entries[id].pending;
    }
  }

  /** The state of the demultiplexer is told by what happened: of each id, whether there is an entry, whether its
      connection is up or was closed, and what it was handed. */
  lemma {:induction false} EntriesAsTold(hs: seq<Happening>, id: nat)
    requires Run(React, Start().demux, hs).Some?
    ensures var s := Run(React, Start().demux, hs).value;
            && Shows(s, LifeOf(hs, id), id, HandedTo(hs, id)) && s.log == PacketsIn(hs) && Kept(s)
    decreases |hs|
  {
    hide React, Kept, Shows, LifeOf, LifeAfter, HandedTo, HandedAfter, PacketsIn;
    if hs == [] {
      NothingHappened(id);
    } else {
      var init, h := hs[..|hs| - 1], hs[|hs| - 1];
      assert hs == init + [h];
      LastOfRun(React, Start().demux, hs);
      EntriesAsTold(init, id);
      LastHappening(init, h, id);
      var s := Run(React, Start().demux, init).value;
      HappeningShows(s, h, id, LifeOf(init, id), HandedTo(init, id));
      HappeningKeeps(s, h);
    }
  }

  lemma HappeningKeeps(s: Demux, h: Happening)
    requires Kept(s) && React(s, h).Some?
    ensures Kept(React(s, h).value) && React(s, h).value.log == s.log + if h.Comes? then [h.p] else []
  {
    hide Deal, Kept;
    match h {
      case Comes(p) =>
        DealLogs(s, p);
        DealKeeps(s, p);
      case ComesUp(d) => SocksKeeps(s, d);
      case GoesDown(d) => SocksKeeps(s, d);
    }
  }

  lemma NothingHappened(id: nat)
    ensures Shows(Start().demux, LifeOf([], id), id, HandedTo([], id)) && PacketsIn([]) == [] && Kept(Start().demux)
  {
  }

  /** The connections that came up or went down, in order. */
  function TurnsIn(hs: seq<Happening>): seq<Happening> {
    if hs == [] then []
    else
      var h := hs[|hs| - 1];
      TurnsIn(hs[..|hs| - 1]) + if h.Comes? then [] else [h]
  }

  function TurnOf(step: Step): seq<Happening> {
    match step
    case Chunk(_) => []
    case Up(id) => [ComesUp(id)]
    case Down(id) => [GoesDown(id)]
  }

  function TurnsOf(steps: seq<Step>): seq<Happening> {
    if steps == [] then [] else TurnsOf(steps[..|steps| - 1]) + TurnOf(steps[|steps| - 1])
  }

  /** What the loop does with a chunk is a run of packets that come. */
  lemma {:induction false} DrainReacts(s: Demux, buf: Bytes) returns (hs: seq<Happening>)
    ensures Run(React, s, hs) == Some(Drain(OneRound, s, buf).0)
    ensures forall h :: h in hs ==> h.Comes?
    decreases |buf|
  {
    hide Deal, Head;
    hs := [];
    if OneRound(s, buf).Took? {
      var p := Head(buf).value;
      HeadIsEncoded(buf);
      var rest := DrainReacts(Deal(s, p).value, buf[HEADER_LEN + |p.payload|..]);
      hs := [Comes(p)] + rest;
      assert hs[1..] == rest;
    }
  }

  lemma {:induction false} NoTurns(hs: seq<Happening>, more: seq<Happening>)
    requires forall h :: h in more ==> h.Comes?
    ensures TurnsIn(hs + more) == TurnsIn(hs)
    decreases |more|
  {
    if more == [] {
      assert hs + more == hs;
    } else {
      var init := more[..|more| - 1];
      assert more[|more| - 1] in more && (hs + more)[..|hs + more| - 1] == hs + init;
      NoTurns(hs, init);
    }
  }

  lemma OneTurn(hs: seq<Happening>, h: Happening)
    requires !h.Comes?
    ensures TurnsIn(hs + [h]) == TurnsIn(hs) + [h]
  {
    assert (hs + [h])[..|hs|] == hs;
  }

  /** Every run of the server is a run of happenings: its connections come up and go down as in the run, and the
      packets that come are those dealt with. So each entry is as `EntriesAsTold` says. */
  lemma {:induction false} ServerFollows(steps: seq<Step>) returns (hs: seq<Happening>)
    requires Run(Next, Start(), steps).Some?
    ensures Run(React, Start().demux, hs) == Some(Run(Next, Start(), steps).value.demux)
    ensures TurnsIn(hs) == TurnsOf(steps) && PacketsIn(hs) == Run(Next, Start(), steps).value.demux.log
    decreases |steps|
  {
    hide React, OneRound, Drain, PacketsIn, TurnsIn, HandedTo, LifeOf, SocksUp, SocksDown;
    if steps == [] {
      hs := [];
      assert TurnsIn([]) == [] by {
        NoTurnsAtFirst();
      }
    } else {
      var init, step := steps[..|steps| - 1], steps[|steps| - 1];
      LastOfRun(Next, Start(), steps);
      var before := ServerFollows(init);
      var r := Run(Next, Start(), init).value;
      if step.Chunk? {
        var more := DrainReacts(r.demux, r.rest + step.b);
        NoTurns(before, more);
        RunsCompose(React, Start().demux, before, more);
        hs := before + more;
        assert TurnsOf(init) + [] == TurnsOf(init);
      } else {
        var h := if step.Up? then ComesUp(step.id) else GoesDown(step.id);
        StepAfterRun(React, Start().demux, before, h);
        OneTurn(before, h);
        TurnIsTaken(r.demux, h);
        hs := before + [h];
      }
    }
    EntriesAsTold(hs, 0);
  }

  lemma NoTurnsAtFirst()
    ensures TurnsIn([]) == []
  {
  }

  lemma TurnIsTaken(s: Demux, h: Happening)
    requires !h.Comes?
    ensures React(s, h) == Some(if h.ComesUp? then SocksUp(s, h.id) else SocksDown(s, h.id))
  {
  }

  predicate BidsFarewell(p: Packet, id: nat) {
    Names(p, id) && !Contains(p.payload, IS_UP)
  }

  /** A connection is closed only when it went down, or was told that the client went. */
  lemma {:induction false} ClosedHasCause(hs: seq<Happening>, id: nat)
    requires LifeOf(hs, id).Closed?
    ensures GoesDown(id) in TurnsIn(hs) || exists p :: p in PacketsIn(hs) && BidsFarewell(p, id)
    decreases |hs|
  {
    hide LifeAfter, BidsFarewell;
    var init, h := hs[..|hs| - 1], hs[|hs| - 1];
    ClosingStep(LifeOf(init, id), h, id);
    LastInHappenings(hs);
    if LifeOf(init, id).Closed? {
      ClosedHasCause(init, id);
    }
    hide PacketsIn, TurnsIn, LifeOf;
  }

  lemma ClosingStep(life: Life, h: Happening, id: nat)
    requires LifeAfter(life, h, id).Closed?
    ensures life.Closed? || h == GoesDown(id) || (h.Comes? && BidsFarewell(h.p, id))
  {
    hide Names, Contains;
  }

  lemma LastInHappenings(hs: seq<Happening>)
    requires hs != []
    ensures var init, h := hs[..|hs| - 1], hs[|hs| - 1];
            && (h.Comes? ==> h.p in PacketsIn(hs)) && (!h.Comes? ==> h in TurnsIn(hs))
            && (forall p :: p in PacketsIn(init) ==> p in PacketsIn(hs))
            && forall g :: g in TurnsIn(init) ==> g in TurnsIn(hs)
  {
  }

  lemma {:induction false} TurnsAreSteps(steps: seq<Step>, id: nat)
    requires GoesDown(id) in TurnsOf(steps)
    ensures Down(id) in steps
  {
    var last := steps[|steps| - 1];
    assert last in steps;
    if GoesDown(id) in TurnsOf(steps[..|steps| - 1]) {
      TurnsAreSteps(steps[..|steps| - 1], id);
    }
  }

  lemma {:induction false} FarewellsAreEvents(ids: Ids, es: seq<Event>, p: Packet, id: nat)
    requires p in AllPackets(es) && BidsFarewell(p, id) && Run(Happens, ids, es).Some?
    ensures exists e :: e in es && e.Disconnect? && e.id == id
    decreases |es|
  {
    hide BidsFarewell, PacketsOf;
    var init, e := es[..|es| - 1], es[|es| - 1];
    LastOfRun(Happens, ids, es);
    if p in AllPackets(init) {
      FarewellsAreEvents(ids, init, p, id);
    } else {
      assert p in PacketsOf(e);
      FarewellOfEvent(Run(Happens, ids, init).value, e, p, id);
      assert e in es;
    }
  }

  lemma FarewellOfEvent(ids: Ids, e: Event, p: Packet, id: nat)
    requires Happens(ids, e).Some? && p in PacketsOf(e) && BidsFarewell(p, id)
    ensures e.Disconnect? && e.id == id
  {
    hide Contains, Atoi, Announcement, Farewell;
    match e {
      case Connect(d, peer) => AnnouncedUp(d, peer);
      case Message(d, data) => SplitCarriesTheData(d, data);
      case Disconnect(d, peer) =>
        FarewellId(d, peer);
        NamesOnlyOne(p, d, id);
    }
  }

  /** As long as neither the client nor the far side goes, no byte is lost: when everything has arrived the connection
      of the client was handed all that the client sent, or, while it is not up, all of it waits. */
  lemma NothingIsLost(steps: seq<Step>, es: seq<Event>, id: nat)
    requires Run(Next, Start(), steps).Some? && Run(Happens, NOBODY, es).Some?
    requires Brought(steps) == Encoded(Encode, AllPackets(es))
    requires id in Run(Happens, NOBODY, es).value.active && id != 0
    requires Down(id) !in steps && forall e :: e in es && e.Disconnect? ==> e.id != id
    ensures var r := Run(Next, Start(), steps).value;
            Stuck(r) || (id in r.demux.entries &&
              var e := r.demux.entries[id];
              if e.up then e.handed == SentBy(es, id) else e.handed == [] && e.pending == SentBy(es, id))
  {
    hide Run, Encode, Happens, AllPackets, SentBy, Stuck, Brought, LifeOf, HandedTo, BidsFarewell, React, TurnsIn,
      TurnsOf, PacketsIn;
    ClientBytesArrive(steps, es, id);
    var r := Run(Next, Start(), steps).value;
    var hs := ServerFollows(steps);
    EntriesAsTold(hs, id);
    if !Stuck(r) && LifeOf(hs, id).Closed? {
      ClosedHasCause(hs, id);
      if GoesDown(id) in TurnsIn(hs) {
        TurnsAreSteps(steps, id);
      }
      if p :| p in PacketsIn(hs) && BidsFarewell(p, id) {
        FarewellsAreEvents(NOBODY, es, p, id);
      }
    }
    assert !Stuck(r) ==> [] + r.demux.entries[id].pending == r.demux.entries[id].pending;
  }

  /** A packet for an id that nobody announced fails an assertion, and nothing else does for data packets in order. */
  lemma DataNeedsAnnouncement(s: Demux, p: Packet)
    requires Kept(s) && p.id != 0
    ensures Deal(s, p).None? <==> p.id !in s.entries
  {
    assert p.id in s.entries ==> StreamKept(s, p.id);
  }
}
