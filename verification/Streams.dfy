/** Parsers that consume a byte stream as it arrives. A handler is called with whatever has been received and
    not yet consumed, and loops until it wants more: the pattern of every `onMessage` in the repository. */
module Streams {
  type Byte = b: int | 0 <= b < 256
  type Bytes = seq<Byte>

  const SPACE: Byte := 32
  const CR: Byte := 13
  const LF: Byte := 10
  const CRLF: Bytes := [CR, LF]

  /** `std::find`, `memchr`. */
  function Find(s: Bytes, b: Byte): (n: nat)
    ensures n <= |s| && (n < |s| ==> s[n] == b) && b !in s[..n]
  {
    if s == [] || s[0] == b then 0
    else
      var n := Find(s[1..], b);
      assert s[..n + 1] == [s[0]] + s[1..][..n];
      n + 1
  }

  lemma FindAfter(a: Bytes, b: Byte, rest: Bytes)
    requires b !in a
    ensures Find(a + [b] + rest, b) == |a|
  {
    var s := a + [b] + rest;
    var n := Find(s, b);
    assert s[|a|] == b;
    forall i | 0 <= i < n
      ensures s[i] != b
    {
      assert s[i] in s[..n];
    }
    forall i | 0 <= i < |a|
      ensures s[i] != b
    {
      assert s[i] == a[i] && a[i] in a;
    }
  }

  lemma NoneFound(s: Bytes, b: Byte)
    requires b !in s
    ensures Find(s, b) == |s|
  {
    forall i | 0 <= i < |s|
      ensures s[i] != b
    {
      assert s[i] in s;
    }
  }

  predicate IsSpace(b: Byte) {
    b == SPACE || 9 <= b <= 13
  }

  function TrimLeft(s: Bytes): Bytes {
    if s != [] && IsSpace(s[0]) then TrimLeft(s[1..]) else s
  }

  /** One round of such a loop: it takes a non-empty prefix and goes on in a new state, waits, or gives up for good. */
  datatype Round<+S> = Took(n: nat, s: S) | Wait | GiveUp

  /** The loop. What it does not consume stays in the buffer. */
  function Drain<S>(round: (S, Bytes) -> Round<S>, s: S, buf: Bytes): (S, Bytes)
    decreases |buf|
  {
    match round(s, buf)
    case Took(n, t) => if 0 < n <= |buf| then Drain(round, t, buf[n..]) else (s, buf)
    case _ => (s, buf)
  }

  /** The calls of the handler as the chunks arrive. */
  function Receive<S>(round: (S, Bytes) -> Round<S>, s: S, buf: Bytes, chunks: seq<Bytes>): (S, Bytes)
    decreases |chunks|
  {
    if chunks == [] then (s, buf)
    else
      var (t, rest) := Drain(round, s, buf + chunks[0]);
      Receive(round, t, rest, chunks[1..])
  }

  function Concat(chunks: seq<Bytes>): Bytes {
    if chunks == [] then [] else chunks[0] + Concat(chunks[1..])
  }

  /** More bytes do not change what a round does, or a round that took all there was goes on as if it had seen the
      rest at once. */
  ghost predicate StableAt<S(!new)>(round: (S, Bytes) -> Round<S>, s: S, a: Bytes, b: Bytes) {
    match round(s, a)
    case Wait => true
    case GiveUp => round(s, a + b) == GiveUp
    case Took(n, t) =>
      && 0 < n <= |a|
      && (|| round(s, a + b) == Took(n, t)
          || (n == |a| && var r := round(t, b); r.Took? && 0 < r.n <= |b| && round(s, a + b) == Took(|a| + r.n, r.s)))
  }

  ghost predicate Stable<S(!new)>(round: (S, Bytes) -> Round<S>) {
    forall s, a, b :: StableAt(round, s, a, b)
  }

  lemma {:induction false} DrainInTwo<S(!new)>(round: (S, Bytes) -> Round<S>, s: S, a: Bytes, b: Bytes)
    requires Stable(round)
    ensures var (t, rest) := Drain(round, s, a); Drain(round, s, a + b) == Drain(round, t, rest + b)
    decreases |a|
  {
    assert StableAt(round, s, a, b);
    match round(s, a) {
      case Took(n, t) =>
        DrainInTwo(round, t, a[n..], b);
        if round(s, a + b) == Took(n, t) {
          assert (a + b)[n..] == a[n..] + b;
        } else {
          var r := round(t, b);
          assert a[n..] + b == b;
          assert (a + b)[|a| + r.n..] == b[r.n..];
        }
      case _ =>
    }
  }

  /** What has been done when all chunks have arrived depends on their concatenation only. */
  lemma {:induction false} ChunkingDoesNotMatter<S(!new)>(round: (S, Bytes) -> Round<S>, s: S, buf: Bytes,
      chunks: seq<Bytes>)
    requires Stable(round) && Drain(round, s, buf) == (s, buf)
    ensures Receive(round, s, buf, chunks) == Drain(round, s, buf + Concat(chunks))
    decreases |chunks|
  {
    if chunks == [] {
      assert buf + Concat(chunks) == buf;
    } else {
      var (t, rest) := Drain(round, s, buf + chunks[0]);
      Drained(round, s, buf + chunks[0]);
      ChunkingDoesNotMatter(round, t, rest, chunks[1..]);
      DrainInTwo(round, s, buf + chunks[0], Concat(chunks[1..]));
      assert buf + chunks[0] + Concat(chunks[1..]) == buf + Concat(chunks);
    }
  }

  lemma {:induction false} Drained<S>(round: (S, Bytes) -> Round<S>, s: S, buf: Bytes)
    ensures var (t, rest) := Drain(round, s, buf); Drain(round, t, rest) == (t, rest) && |rest| <= |buf|
    decreases |buf|
  {
    match round(s, buf) {
      case Took(n, t) => if 0 < n <= |buf| { Drained(round, t, buf[n..]); }
      case _ =>
    }
  }

  /** A handler that starts with an empty buffer. */
  lemma FromEmpty<S(!new)>(round: (S, Bytes) -> Round<S>, s: S, chunks: seq<Bytes>)
    requires Stable(round) && round(s, []) == Wait
    ensures Receive(round, s, [], chunks) == Drain(round, s, Concat(chunks))
  {
    ChunkingDoesNotMatter(round, s, [], chunks);
    assert [] + Concat(chunks) == Concat(chunks);
  }

  ghost predicate KeptByRounds<S(!new)>(round: (S, Bytes) -> Round<S>, inv: S -> bool) {
    forall s, buf :: inv(s) && round(s, buf).Took? ==> inv(round(s, buf).s)
  }

  /** What every round keeps holds after every call. */
  lemma {:induction false} KeptByDrain<S(!new)>(round: (S, Bytes) -> Round<S>, inv: S -> bool, s: S, buf: Bytes)
    requires KeptByRounds(round, inv) && inv(s)
    ensures inv(Drain(round, s, buf).0)
    decreases |buf|
  {
    match round(s, buf) {
      case Took(n, t) => if 0 < n <= |buf| { KeptByDrain(round, inv, t, buf[n..]); }
      case _ =>
    }
  }

  // Streams written by an encoder.

  function Encoded<M>(encode: M -> Bytes, ms: seq<M>): Bytes {
    if ms == [] then [] else encode(ms[0]) + Encoded(encode, ms[1..])
  }

  /** The states that follow when the messages are dealt with one by one. */
  function After<S, M>(deal: (S, M) -> S, s: S, ms: seq<M>): S {
    if ms == [] then s else After(deal, deal(s, ms[0]), ms[1..])
  }

  function Deliver<M>(s: seq<M>, m: M): seq<M> {
    s + [m]
  }

  lemma {:induction false} AllDelivered<M>(s: seq<M>, ms: seq<M>)
    ensures After(Deliver, s, ms) == s + ms
    decreases |ms|
  {
    if ms == [] {
      assert s + ms == s;
    } else {
      AllDelivered(s + [ms[0]], ms[1..]);
      assert s + [ms[0]] + ms[1..] == s + ms;
    }
  }

  /** In state `s` the parser takes exactly the encoding of the message and deals with it, whatever follows. */
  ghost predicate Decodes<S(!new), M(!new)>(round: (S, Bytes) -> Round<S>, encode: M -> Bytes, deal: (S, M) -> S,
      ok: M -> bool) {
    forall s, m, rest :: ok(m) ==> encode(m) != [] && DecodesAt(round, encode, deal, s, m, rest)
  }

  predicate DecodesAt<S(==), M>(round: (S, Bytes) -> Round<S>, encode: M -> Bytes, deal: (S, M) -> S, s: S, m: M,
      rest: Bytes) {
    round(s, encode(m) + rest) == Took(|encode(m)|, deal(s, m))
  }

  /** Decoding undoes encoding for sequences of messages, in order, with nothing left over. */
  lemma {:induction false} DecodeUndoesEncode<S(!new), M(!new)>(round: (S, Bytes) -> Round<S>, encode: M -> Bytes,
      deal: (S, M) -> S, ok: M -> bool, s: S, ms: seq<M>)
    requires Decodes(round, encode, deal, ok) && (forall m :: m in ms ==> ok(m))
    requires forall t :: round(t, []) == Wait
    ensures Drain(round, s, Encoded(encode, ms)) == (After(deal, s, ms), [])
    decreases |ms|
  {
    if ms != [] {
      var m, rest := ms[0], Encoded(encode, ms[1..]);
      assert ok(m) && DecodesAt(round, encode, deal, s, m, rest);
      assert (encode(m) + rest)[|encode(m)|..] == rest;
      DecodeUndoesEncode(round, encode, deal, ok, deal(s, m), ms[1..]);
    }
  }
}
