/** Integers in network byte order, as muduo/net/Buffer.h appends and peeks them. */
module Endian {
  import opened Streams

  function Power256(n: nat): (p: nat)
    ensures p >= 1
  {
    if n == 0 then 1 else 256 * Power256(n - 1)
  }

  /** The low `n` bytes of `x`, the most significant first. */
  function Encode(n: nat, x: nat): (b: Bytes)
    ensures |b| == n
  {
    if n == 0 then [] else Encode(n - 1, x / 256) + [x % 256]
  }

  function Decode(b: Bytes): nat {
    if b == [] then 0 else Decode(b[..|b| - 1]) * 256 + b[|b| - 1]
  }

  lemma {:induction false} DecodeRange(b: Bytes)
    ensures Decode(b) < Power256(|b|)
  {
    if b != [] {
      DecodeRange(b[..|b| - 1]);
    }
  }

  lemma {:induction false} DecodeEncode(n: nat, x: nat)
    requires x < Power256(n)
    ensures Decode(Encode(n, x)) == x
  {
    if n > 0 {
      DecodeEncode(n - 1, x / 256);
      assert Encode(n, x)[..n - 1] == Encode(n - 1, x / 256);
    }
  }

  lemma {:induction false} EncodeDecode(b: Bytes)
    ensures Encode(|b|, Decode(b)) == b
  {
    if b != [] {
      EncodeDecode(b[..|b| - 1]);
      assert b == b[..|b| - 1] + [b[|b| - 1]];
    }
  }

  /** Network byte order: byte `i` counts the powers of 256 that are left after it. */
  lemma {:induction false} NetworkOrder(n: nat, x: nat, i: nat)
    requires i < n
    ensures Encode(n, x)[i] == x / Power256(n - 1 - i) % 256
  {
    if i < n - 1 {
      NetworkOrder(n - 1, x / 256, i);
      DivideInTwo(x, Power256(n - 2 - i));
    }
  }

  lemma DivideInTwo(x: nat, p: nat)
    requires p > 0
    ensures x / 256 / p == x / (256 * p)
  {
    var a, b := x / 256, x / 256 / p;
    var low := x - 256 * (p * b);
    assert low == 256 * (a % p) + x % 256 by {
      assert a == p * b + a % p;
    }
    QuotientIs(x, 256 * p, b, low);
  }

  lemma QuotientIs(x: nat, d: nat, q: nat, r: nat)
    requires d > 0 && x == d * q + r && r < d
    ensures x / d == q
  {
    var k := x / d;
    assert x == d * k + x % d;
    assert k + 1 <= q ==> d * (k + 1) <= d * q;
    assert q + 1 <= k ==> d * (q + 1) <= d * k;
  }

  /** A signed integer of `n` bytes in two's complement. */
  predicate Fits(n: nat, i: int) {
    n > 0 && -(Power256(n) / 2) <= i < Power256(n) / 2
  }

  function EncodeInt(n: nat, i: int): (b: Bytes)
    requires Fits(n, i)
    ensures |b| == n
  {
    Encode(n, if i < 0 then i + Power256(n) else i)
  }

  function DecodeInt(b: Bytes): int {
    var u := Decode(b);
    if u >= Power256(|b|) / 2 && b != [] then u - Power256(|b|) else u
  }

  lemma HalfPower(n: nat)
    requires n > 0
    ensures Power256(n) == 2 * (Power256(n) / 2)
  {
  }

  /** Appending an integer of any width and peeking it gives it back, also a negative one. */
  lemma PeekUndoesAppend(n: nat, i: int)
    requires Fits(n, i)
    ensures DecodeInt(EncodeInt(n, i)) == i
  {
    HalfPower(n);
    DecodeEncode(n, if i < 0 then i + Power256(n) else i);
  }

  /** Peeking an integer and appending it gives the same bytes back. */
  lemma AppendUndoesPeek(b: Bytes)
    requires b != []
    ensures Fits(|b|, DecodeInt(b)) && EncodeInt(|b|, DecodeInt(b)) == b
  {
    HalfPower(|b|);
    DecodeRange(b);
    EncodeDecode(b);
  }

  // Little endian.

  function EncodeLittle(n: nat, x: nat): (b: Bytes)
    ensures |b| == n
  {
    if n == 0 then [] else [x % 256] + EncodeLittle(n - 1, x / 256)
  }

  function DecodeLittle(b: Bytes): nat {
    if b == [] then 0 else b[0] + 256 * DecodeLittle(b[1..])
  }

  lemma {:induction false} LittleIsReversed(n: nat, x: nat, i: nat)
    requires i < n
    ensures EncodeLittle(n, x)[i] == Encode(n, x)[n - 1 - i]
  {
    if i > 0 {
      LittleIsReversed(n - 1, x / 256, i - 1);
    }
  }

  lemma {:induction false} DecodeLittleRange(b: Bytes)
    ensures DecodeLittle(b) < Power256(|b|)
  {
    if b != [] {
      DecodeLittleRange(b[1..]);
    }
  }

  lemma {:induction false} DecodeEncodeLittle(n: nat, x: nat)
    requires x < Power256(n)
    ensures DecodeLittle(EncodeLittle(n, x)) == x
  {
    if n > 0 {
      DecodeEncodeLittle(n - 1, x / 256);
      assert EncodeLittle(n, x)[1..] == EncodeLittle(n - 1, x / 256);
    }
  }

  lemma {:induction false} EncodeDecodeLittle(b: Bytes)
    ensures EncodeLittle(|b|, DecodeLittle(b)) == b
  {
    if b != [] {
      EncodeDecodeLittle(b[1..]);
      LowByte(b[0], DecodeLittle(b[1..]));
      assert b == [b[0]] + b[1..];
    }
  }

  lemma LowByte(b: Byte, rest: nat)
    ensures (b + 256 * rest) % 256 == b && (b + 256 * rest) / 256 == rest
  {
  }
}
