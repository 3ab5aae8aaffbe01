/** Integers written as text (muduo/base/LogStream.cc): digits come out last first, with a table that also serves
    the negative remainders of truncating division, and are reversed in place. */
module LogStreams {
  import opened Streams
  import opened Calendar

  const MINUS: Byte := 45

  /** `digits`; `zero` points at its middle. */
  const DIGITS: seq<Byte> := [57, 56, 55, 54, 53, 52, 51, 50, 49, 48, 49, 50, 51, 52, 53, 54, 55, 56, 57]
  const DECIMAL: seq<Byte> := [48, 49, 50, 51, 52, 53, 54, 55, 56, 57]
  const HEXADECIMAL: seq<Byte> := [48, 49, 50, 51, 52, 53, 54, 55, 56, 57, 65, 66, 67, 68, 69, 70]

  /** The positional numeral of `n`, without leading zeros, in the digits of the table. */
  function Numeral(table: seq<Byte>, n: nat): (s: Bytes)
    requires |table| >= 2
    ensures s != []
  {
    if n < |table| then [table[n]] else Numeral(table, n / |table|) + [table[n % |table|]]
  }

  function Decimal(i: int): Bytes {
    if i < 0 then [MINUS] + Numeral(DECIMAL, -i) else Numeral(DECIMAL, i)
  }

  predicate IsDigit(b: Byte) {
    48 <= b <= 57
  }

  /** What a sequence of decimal digits stands for. */
  function Number(s: Bytes): int {
    if s == [] then 0 else Number(s[..|s| - 1]) * 10 + (s[|s| - 1] as int - 48)
  }

  /** The numeral reads as the number, has only digits, and starts with 0 only if it is 0. */
  lemma {:induction false} NumeralIsTheNumber(n: nat)
    ensures var s := Numeral(DECIMAL, n);
            Number(s) == n && (forall i :: 0 <= i < |s| ==> IsDigit(s[i])) && (s[0] == 48 <==> n == 0)
  {
    var s := Numeral(DECIMAL, n);
    assert DECIMAL[n % 10] == 48 + n % 10;
    if n >= 10 {
      NumeralIsTheNumber(n / 10);
      assert s[..|s| - 1] == Numeral(DECIMAL, n / 10);
    } else {
      assert s[..0] == [];
      assert Number(s) == Number(s[..0]) * 10 + (s[0] as int - 48);
    }
  }

  function Power10(k: nat): nat {
    if k == 0 then 1 else 10 * Power10(k - 1)
  }

  lemma {:induction false} NumeralLength(n: nat, k: nat)
    requires n < Power10(k) && k > 0
    ensures |Numeral(DECIMAL, n)| <= k
  {
    if n >= 10 {
      assert Power10(1) == 10;
      NumeralLength(n / 10, k - 1);
    }
  }

  /** Any 64-bit integer, signed or not, takes at most 20 characters: less than the 32 that `formatInteger` asks for. */
  lemma DecimalFits(i: int)
    requires -0x8000_0000_0000_0000 <= i < 0x1_0000_0000_0000_0000
    ensures |Decimal(i)| <= 20
  {
    assert Power10(5) == 100_000;
    assert Power10(10) == 10_000_000_000;
    assert Power10(15) == 1_000_000_000_000_000;
    assert Power10(19) == 10_000_000_000_000_000_000;
    assert Power10(20) == 100_000_000_000_000_000_000;
    if i < 0 {
      NumeralLength(-i, 19);
    } else {
      NumeralLength(i, 20);
    }
  }

  function Abs(i: int): nat {
    if i < 0 then -i else i
  }

  function Reversed(s: Bytes): (r: Bytes)
    ensures |r| == |s|
  {
    if s == [] then [] else [s[|s| - 1]] + Reversed(s[..|s| - 1])
  }

  lemma ReversedAppend(s: Bytes, b: Byte)
    ensures Reversed(s + [b]) == [b] + Reversed(s)
  {
    assert (s + [b])[..|s|] == s;
  }

  lemma {:induction false} ByteFromTheEnd(s: Bytes, k: nat)
    requires k < |s|
    ensures Reversed(s)[k] == s[|s| - 1 - k]
  {
    if k > 0 {
      ByteFromTheEnd(s[..|s| - 1], k - 1);
    }
  }

  /** `std::reverse(buf, buf + n)`. */
  method ReverseFront(buf: array<Byte>, n: nat)
    requires n <= buf.Length
    modifies buf
    ensures buf[..n] == Reversed(old(buf[..n])) && buf[n..] == old(buf[n..])
  {
    for i := 0 to n / 2
      invariant forall k :: 0 <= k < i ==> buf[k] == old(buf[n - 1 - k]) && buf[n - 1 - k] == old(buf[k])
      invariant forall k :: i <= k < n - i || n <= k < buf.Length ==> buf[k] == old(buf[k])
    {
      buf[i], buf[n - 1 - i] := buf[n - 1 - i], buf[i];
    }
    ghost var digits := old(buf[..n]);
    forall k | 0 <= k < n
      ensures buf[..n][k] == Reversed(digits)[k]
    {
      ByteFromTheEnd(digits, k);
    }
  }

  /** One digit is taken from the low end of the number. */
  lemma LastDigit(i: int)
    ensures -9 <= TruncMod(i, 10) <= 9
    ensures var d := DIGITS[9 + TruncMod(i, 10)];
            Numeral(DECIMAL, Abs(i))
                == (if TruncDiv(i, 10) != 0 then Numeral(DECIMAL, Abs(TruncDiv(i, 10))) else []) + [d]
  {
    assert Abs(TruncDiv(i, 10)) == Abs(i) / 10;
    assert Abs(TruncMod(i, 10)) == Abs(i) % 10;
    assert DIGITS[9 + TruncMod(i, 10)] == DECIMAL[Abs(i) % 10];
  }

  /** `*p++ = b`. */
  method Put(buf: array<Byte>, p: nat, b: Byte)
    requires p < buf.Length
    modifies buf
    ensures Reversed(buf[..p + 1]) == [b] + Reversed(old(buf[..p])) && buf[p + 1..] == old(buf[p + 1..])
  {
    ghost var before := buf[..p];
    buf[p] := b;
    assert buf[..p + 1] == before + [b];
    ReversedAppend(before, b);
  }

  /** The terminating zero, and the reversal. */
  method Terminate(buf: array<Byte>, p: nat)
    requires p < buf.Length
    modifies buf
    ensures buf[..p] == Reversed(old(buf[..p])) && buf[p] == 0
  {
    ghost var before := buf[..p];
    buf[p] := 0;
    assert buf[..p] == before;
    ReverseFront(buf, p);
    assert buf[p..][0] == 0;
  }

  /** The part of the numeral that is still to be written. */
  function Rest(table: seq<Byte>, n: nat, more: bool): Bytes
    requires |table| >= 2
  {
    if more then Numeral(table, n) else []
  }

  method DecimalBackwards(buf: array<Byte>, value: int) returns (p: nat)
    requires buf.Length > |Numeral(DECIMAL, Abs(value))|
    modifies buf
    ensures p <= buf.Length && Reversed(buf[..p]) == Numeral(DECIMAL, Abs(value))
  {
    hide Numeral, Reversed, TruncDiv, TruncMod, Abs;
    var i, more := value, true;
    p := 0;
    ghost var all := Numeral(DECIMAL, Abs(value));
    ReversedEmpty(buf[..0]);
    while more
      invariant p <= |all| && (more <==> p == 0 || i != 0) && all == Rest(DECIMAL, Abs(i), more) + Reversed(buf[..p])
      decreases Abs(i), more
    {
      LastDigit(i);
      TowardsZero(i);
      var d := DIGITS[9 + TruncMod(i, 10)];
      i := TruncDiv(i, 10);
      more := i != 0;
      ghost var before := Reversed(buf[..p]);
      assert all == Rest(DECIMAL, Abs(i), more) + [d] + before;
      Put(buf, p, d);
      p := p + 1;
      assert all == Rest(DECIMAL, Abs(i), more) + ([d] + before);
    }
  }

  lemma ReversedEmpty(s: Bytes)
    requires s == []
    ensures Reversed(s) == []
  {
  }

  lemma TowardsZero(i: int)
    ensures i != 0 ==> Abs(TruncDiv(i, 10)) < Abs(i)
    ensures i == 0 ==> TruncDiv(i, 10) == 0
  {
  }

  /** `convert`. */
  method Convert(buf: array<Byte>, value: int) returns (len: nat)
    requires buf.Length > |Decimal(value)|
    modifies buf
    ensures len == |Decimal(value)| && buf[..len] == Decimal(value) && buf[len] == 0
  {
    var p := DecimalBackwards(buf, value);
    if value < 0 {
      Put(buf, p, MINUS);
      p := p + 1;
    }
    Terminate(buf, p);
    len := p;
  }

  /** `convertHex`. */
  method ConvertHex(buf: array<Byte>, value: nat) returns (len: nat)
    requires buf.Length > |Numeral(HEXADECIMAL, value)|
    modifies buf
    ensures len == |Numeral(HEXADECIMAL, value)| && buf[..len] == Numeral(HEXADECIMAL, value) && buf[len] == 0
  {
    hide Numeral, Reversed;
    var i, p, more := value, 0, true;
    ghost var all := Numeral(HEXADECIMAL, value);
    ReversedEmpty(buf[..0]);
    while more
      invariant p <= |all| && (more <==> p == 0 || i != 0) && all == Rest(HEXADECIMAL, i, more) + Reversed(buf[..p])
      decreases i, more
    {
      LastHexDigit(i);
      var d := HEXADECIMAL[i % 16];
      i := i / 16;
      more := i != 0;
      ghost var before := Reversed(buf[..p]);
      assert all == Rest(HEXADECIMAL, i, more) + [d] + before;
      Put(buf, p, d);
      p := p + 1;
      assert all == Rest(HEXADECIMAL, i, more) + ([d] + before);
    }
    Terminate(buf, p);
    len := p;
  }

  lemma LastHexDigit(i: nat)
    ensures Numeral(HEXADECIMAL, i) == Rest(HEXADECIMAL, i / 16, i / 16 != 0) + [HEXADECIMAL[i % 16]]
  {
  }
}
