/** The byte buffer of muduo/net/Buffer.h and Buffer.cc: one vector with two indices, of which a user sees only the
    readable bytes. */
module Buffers {
  import opened Streams
  import Endian

  const CHEAP_PREPEND: nat := 8
  const INITIAL_SIZE: nat := 1024
  const EXTRA_BUF: nat := 65536

  predicate CrlfAt(s: Bytes, i: nat) {
    i + 1 < |s| && s[i] == CR && s[i + 1] == LF
  }

  /** Where the first CR LF begins, or the length of the sequence if there is none. */
  function FindCrlf(s: Bytes): (n: nat)
    ensures n <= |s| && (n < |s| ==> CrlfAt(s, n)) && forall i :: 0 <= i < n ==> !CrlfAt(s, i)
  {
    if s == [] || CrlfAt(s, 0) then 0
    else
      var n := FindCrlf(s[1..]);
      assert forall i :: 0 < i < n + 1 ==> CrlfAt(s, i) == CrlfAt(s[1..], i - 1);
      n + 1
  }

  /** A line end that was found stays the first one when more bytes arrive. */
  lemma CrlfIsStable(a: Bytes, b: Bytes)
    requires FindCrlf(a) < |a|
    ensures FindCrlf(a + b) == FindCrlf(a)
  {
    var n, m := FindCrlf(a), FindCrlf(a + b);
    assert CrlfAt(a + b, n);
    assert m < n ==> CrlfAt(a, m) == CrlfAt(a + b, m);
  }

  /** When none was found, the first one ends after what had arrived. */
  lemma CrlfComesLater(a: Bytes, b: Bytes)
    requires FindCrlf(a) == |a|
    ensures FindCrlf(a + b) + 1 >= |a|
  {
    var m := FindCrlf(a + b);
    assert m + 1 < |a| ==> CrlfAt(a + b, m) == CrlfAt(a, m);
  }

  lemma NoCrlf(s: Bytes)
    requires CR !in s
    ensures FindCrlf(s) == |s| && (s != [] ==> s[|s| - 1] != CR)
  {
    forall i | 0 <= i < |s|
      ensures s[i] != CR
    {
      assert s[i] in s;
    }
  }

  /** The first line end of a line without one. */
  lemma CrlfAfterLine(line: Bytes, rest: Bytes)
    requires FindCrlf(line) == |line| && (line == [] || line[|line| - 1] != CR)
    ensures FindCrlf(line + [CR, LF] + rest) == |line|
  {
    var s := line + [CR, LF] + rest;
    assert CrlfAt(s, |line|);
    forall i | 0 <= i < |line|
      ensures !CrlfAt(s, i)
    {
      assert s[i] == line[i];
      assert i + 1 < |line| ==> CrlfAt(line, i) == CrlfAt(s, i);
    }
  }

  class Buffer {
    var buffer: Bytes
    var readerIndex: nat
    var writerIndex: nat

    predicate Valid()
      reads this
    {
      CHEAP_PREPEND <= |buffer| && readerIndex <= writerIndex <= |buffer|
    }

    /** What a user sees. */
    function Contents(): Bytes
      requires Valid()
      reads this
    {
      buffer[readerIndex..writerIndex]
    }

    function WritableBytes(): nat
      requires Valid()
      reads this
    {
      |buffer| - writerIndex
    }

    constructor (initialSize: nat)
      ensures Valid() && Contents() == [] && readerIndex == CHEAP_PREPEND && WritableBytes() == initialSize
    {
      buffer := seq(CHEAP_PREPEND + initialSize, _ => 0);
      readerIndex, writerIndex := CHEAP_PREPEND, CHEAP_PREPEND;
    }

    method FindCRLF() returns (at: nat)
      requires Valid()
      ensures at == FindCrlf(Contents())
    {
      var s := Contents();
      at := 0;
      while at < |s| && !CrlfAt(s, at)
        invariant at <= |s| && forall i :: 0 <= i < at ==> !CrlfAt(s, i)
      {
        at := at + 1;
      }
    }

    method RetrieveAll()
      requires Valid()
      modifies this
      ensures Valid() && Contents() == [] && readerIndex == CHEAP_PREPEND && buffer == old(buffer)
    {
      readerIndex, writerIndex := CHEAP_PREPEND, CHEAP_PREPEND;
    }

    method Retrieve(len: nat)
      requires Valid() && len <= |Contents()|
      modifies this
      ensures Valid() && Contents() == old(Contents())[len..] && buffer == old(buffer)
    {
      if len < writerIndex - readerIndex {
        readerIndex := readerIndex + len;
      } else {
        RetrieveAll();
      }
    }

    method RetrieveAsString(len: nat) returns (s: Bytes)
      requires Valid() && len <= |Contents()|
      modifies this
      ensures Valid() && s == old(Contents())[..len] && Contents() == old(Contents())[len..]
    {
      s := buffer[readerIndex..readerIndex + len];
      Retrieve(len);
    }

    /** Moves the readable bytes to the front, one by one in ascending order as the copy may overlap. */
    method MoveToFront()
      requires Valid() && CHEAP_PREPEND < readerIndex
      modifies this
      ensures Valid() && Contents() == old(Contents()) && readerIndex == CHEAP_PREPEND && |buffer| == |old(buffer)|
    {
      var readable := writerIndex - readerIndex;
      for i := 0 to readable
        invariant readerIndex == old(readerIndex) && writerIndex == old(writerIndex) && |buffer| == |old(buffer)|
        invariant buffer[CHEAP_PREPEND..CHEAP_PREPEND + i] == old(buffer)[readerIndex..readerIndex + i]
        invariant buffer[CHEAP_PREPEND + i..] == old(buffer)[CHEAP_PREPEND + i..]
      {
        ghost var was := buffer;
        assert was[readerIndex + i] == old(buffer)[readerIndex + i] by {
          assert was[CHEAP_PREPEND + i..][readerIndex - CHEAP_PREPEND]
              == old(buffer)[CHEAP_PREPEND + i..][readerIndex - CHEAP_PREPEND];
        }
        buffer := buffer[CHEAP_PREPEND + i := buffer[readerIndex + i]];
        assert buffer[CHEAP_PREPEND..CHEAP_PREPEND + i + 1]
            == was[CHEAP_PREPEND..CHEAP_PREPEND + i] + [was[readerIndex + i]];
        assert buffer[CHEAP_PREPEND + i + 1..] == was[CHEAP_PREPEND + i..][1..];
      }
      readerIndex := CHEAP_PREPEND;
      writerIndex := readerIndex + readable;
    }

    /** `makeSpace`, which is called only when the room at the end does not do. */
    method MakeSpace(len: nat)
      requires Valid() && WritableBytes() < len
      modifies this
      ensures Valid() && Contents() == old(Contents()) && WritableBytes() >= len
      ensures |buffer| == if old(WritableBytes() + readerIndex) < len + CHEAP_PREPEND then old(writerIndex) + len
          else |old(buffer)|
      ensures readerIndex == if old(WritableBytes() + readerIndex) < len + CHEAP_PREPEND then old(readerIndex)
          else CHEAP_PREPEND
    {
      if |buffer| - writerIndex + readerIndex < len + CHEAP_PREPEND {
        buffer := buffer + seq(writerIndex + len - |buffer|, _ => 0);
      } else {
        assert CHEAP_PREPEND < readerIndex;
        MoveToFront();
      }
    }

    method EnsureWritableBytes(len: nat)
      requires Valid()
      modifies this
      ensures Valid() && Contents() == old(Contents()) && WritableBytes() >= len
      ensures readerIndex == old(readerIndex) || readerIndex == CHEAP_PREPEND
      ensures old(WritableBytes()) >= len ==> buffer == old(buffer) && writerIndex == old(writerIndex)
    {
      if |buffer| - writerIndex < len {
        MakeSpace(len);
      }
    }

    /** Writes at the end of the readable bytes, where there is room. */
    method Write(data: Bytes)
      requires Valid() && |data| <= WritableBytes()
      modifies this
      ensures Valid() && Contents() == old(Contents()) + data && |buffer| == |old(buffer)|
          && readerIndex == old(readerIndex)
    {
      buffer := buffer[..writerIndex] + data + buffer[writerIndex + |data|..];
      writerIndex := writerIndex + |data|;
    }

    method Append(data: Bytes)
      requires Valid()
      modifies this
      ensures Valid() && Contents() == old(Contents()) + data
      ensures readerIndex == old(readerIndex) || readerIndex == CHEAP_PREPEND
    {
      EnsureWritableBytes(|data|);
      Write(data);
    }

    method Unwrite(len: nat)
      requires Valid() && len <= |Contents()|
      modifies this
      ensures Valid() && Contents() == old(Contents())[..|old(Contents())| - len]
    {
      writerIndex := writerIndex - len;
    }

    method Prepend(data: Bytes)
      requires Valid() && |data| <= readerIndex
      modifies this
      ensures Valid() && Contents() == data + old(Contents()) && readerIndex == old(readerIndex) - |data|
    {
      readerIndex := readerIndex - |data|;
      buffer := buffer[..readerIndex] + data + buffer[readerIndex + |data|..];
    }

    /** `shrink` copies into a new buffer and swaps: what is left over is the room asked for, or the initial size. */
    method Shrink(reserve: nat)
      requires Valid()
      modifies this
      ensures Valid() && Contents() == old(Contents()) && readerIndex == CHEAP_PREPEND
      ensures |buffer| == CHEAP_PREPEND + if |Contents()| + reserve > INITIAL_SIZE then |Contents()| + reserve
          else INITIAL_SIZE
    {
      var s := Contents();
      var other := new Buffer(INITIAL_SIZE);
      if other.WritableBytes() < |s| + reserve {
        other.MakeSpace(|s| + reserve);
      }
      other.Write(s);
      buffer, readerIndex, writerIndex := other.buffer, other.readerIndex, other.writerIndex;
    }

    /** How many bytes one `readFd` can take: with the second segment in use less than 128 KiB. */
    function ReadLimit(): (n: nat)
      requires Valid()
      reads this
      ensures EXTRA_BUF <= n && (WritableBytes() < EXTRA_BUF ==> n <= 2 * EXTRA_BUF - 1)
    {
      WritableBytes() + if WritableBytes() < EXTRA_BUF then EXTRA_BUF else 0
    }

    /** `readFd` when the kernel hands over `got`: the first part goes into the buffer, the rest into the second
        segment. */
    method ReadFd(got: Bytes) returns (n: nat)
      requires Valid() && |got| <= ReadLimit()
      modifies this
      ensures Valid() && n == |got| && Contents() == old(Contents()) + got
    {
      var writable := WritableBytes();
      n := |got|;
      if n <= writable {
        Write(got);
      } else {
        Write(got[..writable]);
        assert writerIndex == |buffer|;
        Append(got[writable..]);
        assert got == got[..writable] + got[writable..];
      }
    }

    method AppendInt(width: nat, x: int)
      requires Valid() && Endian.Fits(width, x)
      modifies this
      ensures Valid() && Contents() == old(Contents()) + Endian.EncodeInt(width, x)
    {
      Append(Endian.EncodeInt(width, x));
    }

    method PrependInt(width: nat, x: int)
      requires Valid() && Endian.Fits(width, x) && width <= readerIndex
      modifies this
      ensures Valid() && Contents() == Endian.EncodeInt(width, x) + old(Contents())
    {
      Prepend(Endian.EncodeInt(width, x));
    }

    function PeekInt(width: nat): int
      requires Valid() && width <= |Contents()|
      reads this
    {
      Endian.DecodeInt(Contents()[..width])
    }

    /** An integer that was put first, or appended to an empty buffer, is read back. */
    method ReadInt(width: nat) returns (x: int)
      requires Valid() && 0 < width <= |Contents()|
      modifies this
      ensures Valid() && Endian.Fits(width, x) && old(Contents()) == Endian.EncodeInt(width, x) + Contents()
    {
      x := PeekInt(width);
      Endian.AppendUndoesPeek(Contents()[..width]);
      Retrieve(width);
    }
  }
}
