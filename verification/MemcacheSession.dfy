/** One client of the memcached server (examples/memcached/server/Session.cc): the text protocol, parsed as it
    arrives, against the store. */
module MemcacheSession {
  import opened Machines
  import opened Streams
  import opened Buffers
  import opened MemcacheStore
  import opened LogStreams

  const LONGEST_KEY: nat := 250
  const LONGEST_LINE: nat := 1024
  const LARGEST_VALUE: int := 1024 * 1024
  const MONTH: int := 60 * 60 * 24 * 30

  datatype Phase = NewCommand | ReceiveValue | DiscardValue

  /** `currItem_`, of which `received` is the value so far. */
  datatype Incoming = Incoming(key: Bytes, flags: nat, exptime: int, valuelen: nat, cas: nat, received: Bytes)

  /** `open` says that the connection still sends; `sent` is all that was sent. */
  datatype Session = Session(phase: Phase, command: Bytes, noreply: bool, policy: Option<Policy>,
      currItem: Option<Incoming>,
                             bytesToDiscard: nat, outputBuf: Bytes, requests: nat, startTime: int,
                             open: bool, stopped: bool, store: Store, sent: Bytes)

  function Start(startTime: int, store: Store): Session {
    Session(NewCommand, [], false, None, None, 0, [], 0, startTime, true, false, store, [])
  }

  function Ascii(s: string): Bytes {
    seq(|s|, i requires 0 <= i < |s| => (s[i] as int) % 256)
  }

  function Reply(s: Session, msg: Bytes): Session {
    if s.noreply || !s.open then s else s.(sent := s.sent + msg)
  }

  function SendOutput(s: Session): Session {
    if s.open then s.(sent := s.sent + s.outputBuf, outputBuf := []) else s
  }

  function ResetRequest(s: Session): Session {
    s.(command := [], noreply := false, policy := None, currItem := None, bytesToDiscard := 0)
  }

  /** What `processRequest` asserts: nothing is left of the last request. */
  predicate Clean(s: Session) {
    s.command == [] && !s.noreply && s.policy == None && s.currItem == None && s.bytesToDiscard == 0
  }

  // Words.

  function SkipSpaces(s: Bytes): (t: Bytes)
    ensures |t| <= |s| && (t != [] ==> t[0] != SPACE)
  {
    if s != [] && s[0] == SPACE then SkipSpaces(s[1..]) else s
  }

  /** The tokenizer with `SpaceSeparator`. */
  function Tokens(s: Bytes): seq<Bytes>
    decreases |s|
  {
    var t := SkipSpaces(s);
    if t == [] then []
    else
      var n := Find(t, SPACE);
      [t[..n]] + Tokens(t[n..])
  }

  /** `strtoull`, when it ends with the token. */
  function ReadNumber(token: Bytes): Option<nat> {
    var t := TrimLeft(token);
    var signed := t != [] && (t[0] == MINUS || t[0] == 43);
    var digits := if signed then t[1..] else t;
    if digits == [] || exists i :: 0 <= i < |digits| && !IsDigit(digits[i]) then None
    else
      var v := Number(digits);
      if v < 0 || v >= 0x1_0000_0000_0000_0000 then Some(0xffff_ffff_ffff_ffff)
      else if signed && t[0] == MINUS then Some((0x1_0000_0000_0000_0000 - v) % 0x1_0000_0000_0000_0000)
      else Some(v)
  }

  /** Casts to narrower or signed integers. */
  function ToUnsigned32(x: int): nat {
    x % 0x1_0000_0000
  }

  function ToSigned32(x: int): int {
    var u := x % 0x1_0000_0000;
    if u >= 0x8000_0000 then u - 0x1_0000_0000 else u
  }

  function ToSigned64(x: int): int {
    var u := x % 0x1_0000_0000_0000_0000;
    if u >= 0x8000_0000_0000_0000 then u - 0x1_0000_0000_0000_0000 else u
  }

  // Requests.

  /** A request is dealt with, or waits for its data, or is one for which the source does not define what happens. */
  datatype Outcome = Done(s: Session) | Pending(s: Session) | Undefined

  function PolicyOf(command: Bytes): Option<Policy> {
    if command == Ascii("set") then Some(Set)
    else if command == Ascii("add") then Some(Add)
    else if command == Ascii("replace") then Some(Replace)
    else if command == Ascii("append") then Some(Append)
    else if command == Ascii("prepend") then Some(Prepend)
    else if command == Ascii("cas") then Some(Cas)
    else None
  }

  function RelativeTime(exptime: int, startTime: int): int {
    if exptime > MONTH then
      var r := ToSigned32(exptime - startTime);
      if r < 1 then 1 else r
    else ToSigned32(exptime)
  }

  /** The numbers of a storage command: flags, expiry time, byte count, and for `cas` the number. */
  datatype Arguments = Arguments(flags: nat, exptime: int, bytes: int, cas: nat)

  function ReadArguments(words: seq<Bytes>, policy: Policy): Option<Arguments> {
    if |words| < 3 || (policy == Cas && |words| < 4) then None
    else
      match (ReadNumber(words[0]), ReadNumber(words[1]), ReadNumber(words[2]))
      case (Some(f), Some(e), Some(b)) =>
        if policy != Cas then Some(Arguments(ToUnsigned32(f), ToSigned64(e), ToSigned32(b), 0))
        else if ReadNumber(words[3]).None? then None
        else Some(Arguments(ToUnsigned32(f), ToSigned64(e), ToSigned32(b), ReadNumber(words[3]).value))
      case _ => None
  }

  /** `doUpdate`. It reads a key that must be there; a negative byte count fails an assertion, and one within 2 of
      the largest `int` overflows. */
  function DoUpdate(s: Session, policy: Policy, words: seq<Bytes>): Outcome {
    var t := s.(policy := Some(policy));
    if words == [] then Undefined
    else
      var key := words[0];
      var args := if |key| <= LONGEST_KEY then ReadArguments(words[1..], policy) else None;
      if args.None? then Done(Reply(t, Ascii("CLIENT_ERROR bad command line format\r\n")))
      else
        var a := args.value;
        if a.bytes < 0 || a.bytes > 0x7fff_ffff - 2 then Undefined
        else if a.bytes > LARGEST_VALUE then
          var u := Reply(t, Ascii("SERVER_ERROR object too large for cache\r\n"));
          Pending(u.(store := AfterDelete(u.store, key), bytesToDiscard := a.bytes + 2, phase := DiscardValue))
        else
          Pending(t.(currItem := Some(Incoming(key, a.flags, RelativeTime(a.exptime, t.startTime), a.bytes + 2, a.cas,
              [])),
                     phase := ReceiveValue))
  }

  /** `Item::output`. */
  function Output(item: Item, needCas: bool): Bytes {
    Ascii("VALUE ") + item.key + [SPACE] + Decimal(item.flags) + [SPACE] + Decimal(|item.value| - 2)
    + (if needCas then [SPACE] + Decimal(item.cas) else []) + Ascii("\r\n") + item.value
  }

  /** `get` and `gets`: what was found before a key that is too long stays in the output buffer. */
  function DoGet(s: Session, keys: seq<Bytes>, needCas: bool): Session
    decreases |keys|
  {
    if keys == [] then SendOutput(s.(outputBuf := s.outputBuf + Ascii("END\r\n")))
    else if |keys[0]| > LONGEST_KEY then Reply(s, Ascii("CLIENT_ERROR bad command line format\r\n"))
    else
      var found := if keys[0] in s.store.items then Output(s.store.items[keys[0]], needCas) else [];
      DoGet(s.(outputBuf := s.outputBuf + found), keys[1..], needCas)
  }

  /** `doDelete`, which also reads a key that must be there. */
  function DoDelete(s: Session, words: seq<Bytes>): Outcome {
    if words == [] then Undefined
    else if |words[0]| > LONGEST_KEY then Done(Reply(s, Ascii("CLIENT_ERROR bad command line format\r\n")))
    else if |words| > 1 && words[1] != Ascii("0") then
      Done(Reply(s, Ascii("CLIENT_ERROR bad command line format.  Usage: delete <key> [noreply]\r\n")))
    else if words[0] in s.store.items then
      Done(Reply(s.(store := AfterDelete(s.store, words[0])), Ascii("DELETED\r\n")))
    else Done(Reply(s, Ascii("NOT_FOUND\r\n")))
  }

  /** The commands. */
  function Execute(s: Session, words: seq<Bytes>): Outcome
    requires words != []
  {
    if PolicyOf(words[0]).Some? then DoUpdate(s, PolicyOf(words[0]).value, words[1..])
    else if words[0] == Ascii("get") || words[0] == Ascii("gets") then
        Done(DoGet(s, words[1..], words[0] == Ascii("gets")))
    else if words[0] == Ascii("delete") then DoDelete(s, words[1..])
    else if words[0] == Ascii("version") then Done(Reply(s, Ascii("VERSION 0.01 muduo\r\n")))
    else if words[0] == Ascii("quit") then Done(s.(open := false))
    else if words[0] == Ascii("shutdown") then Done(s.(open := false, stopped := true))
    else Done(Reply(s, Ascii("ERROR\r\n")))
  }

  predicate Quiet(line: Bytes) {
    |line| >= 8 && line[|line| - 8..] == Ascii(" noreply")
  }

  function Words(line: Bytes): seq<Bytes> {
    Tokens(if Quiet(line) then line[..|line| - 8] else line)
  }

  function ProcessRequest(s: Session, line: Bytes): Outcome {
    var t, words := s.(requests := s.requests + 1, noreply := Quiet(line)), Words(line);
    if words == [] then Done(Reply(t, Ascii("ERROR\r\n"))) else Execute(t.(command := words[0]), words)
  }

  // Data.

  function Verdict(stored: bool, policy: Policy, existed: bool): Bytes {
    if stored then Ascii("STORED\r\n")
    else if policy == Cas then if existed then Ascii("EXISTS\r\n") else Ascii("NOT_FOUND\r\n")
    else Ascii("NOT_STORED\r\n")
  }

  /** The last byte of the value has arrived. */
  function Finish(s: Session, i: Incoming, policy: Policy): Session
    requires |i.received| >= 2 && (i.key in s.store.items ==> |s.store.items[i.key].value| >= 2)
  {
    var item := Item(i.key, i.flags, i.exptime, i.received, i.cas);
    var t := if EndsWithCrlf(i.received) then
               Reply(s.(store := AfterStore(s.store, item, policy)),
                     Verdict(Stores(s.store, item, policy), policy, i.key in s.store.items))
             else Reply(s, Ascii("CLIENT_ERROR bad data chunk\r\n"));
    ResetRequest(t).(phase := NewCommand)
  }

  predicate Receiving(s: Session) {
    && s.currItem.Some? && s.policy.Some? && |s.currItem.value.received| < s.currItem.value.valuelen
    && s.currItem.value.valuelen >= 2
    && (s.currItem.value.key in s.store.items ==> |s.store.items[s.currItem.value.key].value| >= 2)
  }

  function Received(s: Session, data: Bytes): Session
    requires Receiving(s) && |s.currItem.value.received| + |data| <= s.currItem.value.valuelen
  {
    var i := s.currItem.value.(received := s.currItem.value.received + data);
    if |i.received| == i.valuelen then Finish(s, i, s.policy.value) else s.(currItem := Some(i))
  }

  function Min(a: nat, b: nat): nat {
    if a < b then a else b
  }

  function ReceiveRound(s: Session, buf: Bytes): Round<Session> {
    if !Receiving(s) then GiveUp
    else if buf == [] then Wait
    else
      var avail := Min(|buf|, s.currItem.value.valuelen - |s.currItem.value.received|);
      Took(avail, Received(s, buf[..avail]))
  }

  function DiscardRound(s: Session, buf: Bytes): Round<Session> {
    if s.currItem.Some? || s.bytesToDiscard == 0 then GiveUp
    else if buf == [] then Wait
    else if |buf| < s.bytesToDiscard then Took(|buf|, s.(bytesToDiscard := s.bytesToDiscard - |buf|))
    else Took(s.bytesToDiscard, ResetRequest(s).(phase := NewCommand))
  }

  /** A line is taken when it is complete. A request that is undefined ends the analysis. */
  function CommandRound(s: Session, buf: Bytes): Round<Session> {
    var n := FindCrlf(buf);
    if n == |buf| then Wait
    else if !Clean(s) then GiveUp
    else match ProcessRequest(s, buf[..n])
      case Done(t) => Took(n + 2, ResetRequest(t))
      case Pending(t) => Took(n + 2, t)
      case Undefined => GiveUp
  }

  function OneRound(s: Session, buf: Bytes): Round<Session> {
    match s.phase
    case NewCommand => CommandRound(s, buf)
    case ReceiveValue => ReceiveRound(s, buf)
    case DiscardValue => DiscardRound(s, buf)
  }

  predicate TooLong(s: Session, buf: Bytes) {
    s.phase.NewCommand? && FindCrlf(buf) == |buf| > LONGEST_LINE
  }

  function ShutIfTooLong(s: Session, buf: Bytes): Session {
    if TooLong(s, buf) then s.(open := false) else s
  }

  /** `onMessage`: rounds, and a command that is still incomplete after 1024 bytes shuts the connection down. */
  function Handled(s: Session, buf: Bytes): (Session, Bytes) {
    var (t, rest) := Drain(OneRound, s, buf);
    (ShutIfTooLong(t, rest), rest)
  }

  /** The calls of `onMessage` as the chunks arrive. */
  function Serve(s: Session, buf: Bytes, chunks: seq<Bytes>): (Session, Bytes)
    decreases |chunks|
  {
    if chunks == [] then (s, buf)
    else
      var (t, rest) := Handled(s, buf + chunks[0]);
      Serve(t, rest, chunks[1..])
  }

  // Chunks.

  lemma CommandIsStable(s: Session, a: Bytes, b: Bytes)
    requires s.phase.NewCommand?
    ensures StableAt(OneRound, s, a, b)
  {
    hide ProcessRequest, Clean;
    if FindCrlf(a) < |a| {
      CrlfIsStable(a, b);
      assert (a + b)[..FindCrlf(a)] == a[..FindCrlf(a)];
    } else {
      CrlfComesLater(a, b);
    }
  }

  lemma FinishForgets(s: Session, currItem: Option<Incoming>, i: Incoming, policy: Policy)
    requires |i.received| >= 2 && (i.key in s.store.items ==> |s.store.items[i.key].value| >= 2)
    ensures Finish(s.(currItem := currItem), i, policy) == Finish(s, i, policy)
  {
  }

  /** Data taken in two portions are taken as in one. */
  lemma ReceiveIsStable(s: Session, a: Bytes, b: Bytes)
    requires s.phase.ReceiveValue?
    ensures StableAt(OneRound, s, a, b)
  {
    hide Finish;
    if Receiving(s) && a != [] {
      var needed := s.currItem.value.valuelen - |s.currItem.value.received|;
      if |a| >= needed {
        assert (a + b)[..needed] == a[..needed];
      } else if b == [] {
        assert a + b == a;
      } else {
        var t := Received(s, a);
        var k := Min(|b|, needed - |a|);
        assert a[..|a|] == a && t.phase.ReceiveValue? && Receiving(t);
        assert (a + b)[..|a| + k] == a + b[..k];
        assert t.currItem.value.received + b[..k] == s.currItem.value.received + (a + b[..k]);
        var i := s.currItem.value.(received := s.currItem.value.received + (a + b[..k]));
        if |i.received| == i.valuelen {
          FinishForgets(s, t.currItem, i, s.policy.value);
        }
      }
    }
  }

  lemma DiscardIsStable(s: Session, a: Bytes, b: Bytes)
    requires s.phase.DiscardValue?
    ensures StableAt(OneRound, s, a, b)
  {
    if b == [] {
      assert a + b == a;
    }
  }

  lemma RoundIsStable()
    ensures Stable(OneRound)
  {
    hide OneRound;
    forall s, a, b
      ensures StableAt(OneRound, s, a, b)
    {
      match s.phase {
        case NewCommand => CommandIsStable(s, a, b);
        case ReceiveValue => ReceiveIsStable(s, a, b);
        case DiscardValue => DiscardIsStable(s, a, b);
      }
    }
  }

  /** Every request line that is complete is shorter than the longest one. */
  predicate ShortLines(s: Session, buf: Bytes)
    decreases |buf|
  {
    && (s.phase.NewCommand? && FindCrlf(buf) < |buf| ==> FindCrlf(buf) < LONGEST_LINE)
    && match OneRound(s, buf)
       case Took(n, t) => 0 < n <= |buf| ==> ShortLines(t, buf[n..])
       case _ => true
  }

  /** Where a round takes more when more has arrived, it is not for a command. */
  lemma OnlyDataAreMerged(s: Session, a: Bytes, b: Bytes)
    requires OneRound(s, a).Took?
    ensures OneRound(s, a + b) == OneRound(s, a) || !OneRound(s, a).s.phase.NewCommand?
  {
    hide ProcessRequest, Clean, Finish;
    match s.phase {
      case NewCommand =>
        CrlfIsStable(a, b);
        assert (a + b)[..FindCrlf(a)] == a[..FindCrlf(a)];
      case ReceiveValue =>
        var needed := s.currItem.value.valuelen - |s.currItem.value.received|;
        assert |a| >= needed ==> (a + b)[..needed] == a[..needed];
      case DiscardValue =>
    }
  }

  lemma {:induction false} ShortInTwo(s: Session, a: Bytes, b: Bytes)
    requires Stable(OneRound) && ShortLines(s, a + b)
    ensures var (t, rest) := Drain(OneRound, s, a); ShortLines(t, rest + b)
    decreases |a|
  {
    hide OneRound;
    assert StableAt(OneRound, s, a, b);
    match OneRound(s, a) {
      case Took(n, t) =>
        if OneRound(s, a + b) == Took(n, t) {
          assert (a + b)[n..] == a[n..] + b;
          ShortInTwo(t, a[n..], b);
        } else {
          OnlyDataAreMerged(s, a, b);
          var r := OneRound(t, b);
          assert a[n..] == [] && a[n..] + b == b;
          assert (a + b)[|a| + r.n..] == b[r.n..];
          ShortInTwo(t, a[n..], b);
        }
      case _ =>
    }
  }

  /** A connection that was shut down for a long line waits for ever: that line cannot become a short one. */
  lemma ShutForGood(s: Session, a: Bytes, b: Bytes)
    requires TooLong(s, a) && ShortLines(s, a + b)
    ensures TooLong(s, a + b) && OneRound(s, a + b) == Wait && OneRound(s.(open := false), a + b) == Wait
  {
    CrlfComesLater(a, b);
    WaitsWhenTooLong(s, a + b);
  }

  lemma CallsInTwo(s: Session, a: Bytes, b: Bytes)
    requires ShortLines(s, a + b)
    ensures var (t, rest) := Handled(s, a);
            Handled(s, a + b) == Handled(t, rest + b) && ShortLines(t, rest + b) && Handled(t, rest) == (t, rest)
  {
    hide OneRound;
    RoundIsStable();
    DrainInTwo(OneRound, s, a, b);
    ShortInTwo(s, a, b);
    Drained(OneRound, s, a);
    var (t, rest) := Drain(OneRound, s, a);
    if TooLong(t, rest) {
      ShutForGood(t, rest, b);
      WaitsWhenTooLong(t, rest);
    }
  }

  lemma WaitsWhenTooLong(s: Session, buf: Bytes)
    requires TooLong(s, buf)
    ensures OneRound(s, buf) == Wait && OneRound(s.(open := false), buf) == Wait
  {
  }

  lemma {:induction false} ServeIsOneCall(s: Session, buf: Bytes, chunks: seq<Bytes>)
    requires ShortLines(s, buf + Concat(chunks)) && Handled(s, buf) == (s, buf)
    ensures Serve(s, buf, chunks) == Handled(s, buf + Concat(chunks))
    decreases |chunks|
  {
    hide OneRound, Handled, ShortLines;
    if chunks == [] {
      assert buf + Concat(chunks) == buf;
    } else {
      var a, b := buf + chunks[0], Concat(chunks[1..]);
      assert a + b == buf + Concat(chunks);
      CallsInTwo(s, a, b);
      var (t, rest) := Handled(s, a);
      ServeIsOneCall(t, rest, chunks[1..]);
    }
  }

  /** What is stored and what is sent depend on the bytes that arrived, not on how they were cut, when every complete
      line is shorter than 1024 bytes. */
  lemma SessionIgnoresChunks(s: Session, chunks: seq<Bytes>)
    requires ShortLines(s, Concat(chunks))
    ensures Serve(s, [], chunks) == Handled(s, Concat(chunks))
  {
    assert [] + Concat(chunks) == Concat(chunks);
    NothingOfNothing(s);
    ServeIsOneCall(s, [], chunks);
  }

  lemma NothingOfNothing(s: Session)
    ensures Handled(s, []) == (s, [])
  {
  }

  // Longer lines.

  /** What a round takes it takes without what follows. */
  lemma TookFromPrefix(s: Session, buf: Bytes)
    requires OneRound(s, buf).Took?
    ensures var n := OneRound(s, buf).n; 0 < n <= |buf| && OneRound(s, buf[..n]) == OneRound(s, buf)
  {
    hide ProcessRequest, Clean, Finish;
    var n := OneRound(s, buf).n;
    match s.phase {
      case NewCommand =>
        CrlfOfPrefix(buf);
        assert buf[..n][..n - 2] == buf[..n - 2];
      case ReceiveValue =>
        assert buf[..n][..n] == buf[..n];
      case DiscardValue =>
    }
  }

  lemma FirstCrlf(s: Bytes, n: nat)
    requires CrlfAt(s, n) && forall i :: 0 <= i < n ==> !CrlfAt(s, i)
    ensures FindCrlf(s) == n
  {
    hide FindCrlf;
    var m := FindCrlf(s);
    assert m < |s| ==> CrlfAt(s, m);
  }

  lemma NoCrlfFound(s: Bytes)
    requires forall i :: 0 <= i < |s| ==> !CrlfAt(s, i)
    ensures FindCrlf(s) == |s|
  {
    hide FindCrlf;
    var _ := FindCrlf(s);
  }

  lemma CrlfOfPrefix(buf: Bytes)
    requires FindCrlf(buf) < |buf|
    ensures var n := FindCrlf(buf); n + 2 <= |buf| && FindCrlf(buf[..n + 2]) == n && FindCrlf(buf[..n + 1]) == n + 1
  {
    hide FindCrlf;
    var n := FindCrlf(buf);
    assert CrlfAt(buf, n);
    var whole, part := buf[..n + 2], buf[..n + 1];
    forall i | 0 <= i < n
      ensures !CrlfAt(whole, i) && !CrlfAt(part, i)
    {
      assert !CrlfAt(buf, i);
    }
    FirstCrlf(whole, n);
    NoCrlfFound(part);
  }

  /** A session whose connection was shut down does not open it again. */
  lemma RoundKeepsShut(s: Session, buf: Bytes)
    requires !s.open && OneRound(s, buf).Took?
    ensures !OneRound(s, buf).s.open
  {
    hide DoUpdate, DoDelete, Execute, ProcessRequest, Ascii, Clean;
    if s.phase.NewCommand? {
      RequestKeepsShut(s, buf[..FindCrlf(buf)]);
    }
  }

  lemma UpdateKeepsShut(s: Session, policy: Policy, words: seq<Bytes>)
    requires !s.open && !DoUpdate(s, policy, words).Undefined?
    ensures !DoUpdate(s, policy, words).s.open
  {
    hide Ascii, ReadArguments, RelativeTime, AfterDelete;
  }

  lemma RequestKeepsShut(s: Session, line: Bytes)
    requires !s.open && !ProcessRequest(s, line).Undefined?
    ensures !ProcessRequest(s, line).s.open
  {
    hide Ascii, Words, Quiet, AfterDelete, PolicyOf, DoUpdate, DoGet;
    var t, words := s.(requests := s.requests + 1, noreply := Quiet(line)), Words(line);
    if words != [] {
      var u := t.(command := words[0]);
      if PolicyOf(words[0]).Some? {
        UpdateKeepsShut(u, PolicyOf(words[0]).value, words[1..]);
      } else {
        GetKeeps(u, words[1..], words[0] == Ascii("gets"));
      }
    }
  }

  lemma {:induction false} ServeKeepsShut(s: Session, buf: Bytes, chunks: seq<Bytes>)
    requires !s.open
    ensures !Serve(s, buf, chunks).0.open
    decreases |chunks|
  {
    hide OneRound;
    if chunks != [] {
      forall s: Session, buf | !s.open && OneRound(s, buf).Took?
        ensures !OneRound(s, buf).s.open
      {
        RoundKeepsShut(s, buf);
      }
      var shut := (s: Session) => !s.open;
      KeptByDrain(OneRound, shut, s, buf + chunks[0]);
      var (t, rest) := Handled(s, buf + chunks[0]);
      ServeKeepsShut(t, rest, chunks[1..]);
    }
  }

  /** Chunks of which one ends within the line end of a longer line. */
  lemma {:induction false} LongLineShuts(s: Session, buf: Bytes) returns (chunks: seq<Bytes>)
    requires !ShortLines(s, buf)
    ensures Concat(chunks) == buf && !Serve(s, [], chunks).0.open
    decreases |buf|
  {
    hide OneRound, FindCrlf;
    var n := FindCrlf(buf);
    if s.phase.NewCommand? && LONGEST_LINE <= n < |buf| {
      chunks := [buf[..n + 1], buf[n + 1..]];
      CutShuts(s, buf, n);
    } else {
      TookFromPrefix(s, buf);
      var n, t := OneRound(s, buf).n, OneRound(s, buf).s;
      var more := LongLineShuts(t, buf[n..]);
      chunks := [buf[..n]] + more;
      OneMoreChunk(s, buf[..n], t, more);
      assert buf == buf[..n] + buf[n..] && chunks[1..] == more;
    }
  }

  lemma CutShuts(s: Session, buf: Bytes, n: nat)
    requires s.phase.NewCommand? && LONGEST_LINE <= FindCrlf(buf) == n < |buf|
    ensures Concat([buf[..n + 1], buf[n + 1..]]) == buf && !Serve(s, [], [buf[..n + 1], buf[n + 1..]]).0.open
  {
    hide *;
    CutIsTooLong(s, buf, n);
    var a, b := buf[..n + 1], buf[n + 1..];
    ShutsWhenTooLong(s, a);
    ServeKeepsShut(s.(open := false), a, [b]);
    InTwo(a, b);
    FirstCall(s, a, [b]);
    assert a + b == buf && [a] + [b] == [a, b];
  }

  lemma CutIsTooLong(s: Session, buf: Bytes, n: nat)
    requires s.phase.NewCommand? && LONGEST_LINE <= FindCrlf(buf) == n < |buf|
    ensures TooLong(s, buf[..n + 1])
  {
    hide FindCrlf;
    CrlfOfPrefix(buf);
  }

  lemma InTwo(a: Bytes, b: Bytes)
    ensures Concat([a, b]) == a + b
  {
    assert [a, b][1..] == [b];
    assert Concat([b]) == b + Concat([b][1..]) == b;
  }

  lemma FirstCall(s: Session, a: Bytes, chunks: seq<Bytes>)
    ensures Serve(s, [], [a] + chunks) == var (t, rest) := Handled(s, a); Serve(t, rest, chunks)
  {
    hide Handled;
    assert [] + a == a && ([a] + chunks)[1..] == chunks;
  }

  lemma ShutsWhenTooLong(s: Session, buf: Bytes)
    requires TooLong(s, buf)
    ensures Handled(s, buf) == (s.(open := false), buf)
  {
    WaitsWhenTooLong(s, buf);
    hide OneRound, FindCrlf;
  }

  lemma OneMoreChunk(s: Session, a: Bytes, t: Session, chunks: seq<Bytes>)
    requires OneRound(s, a) == Took(|a|, t) && a != []
    ensures Serve(s, [], [a] + chunks) == Serve(t, [], chunks)
  {
    assert a[|a|..] == [];
    FirstCall(s, a, chunks);
    NothingOfNothing(t);
    hide OneRound, Serve;
  }

  /** A stream that leaves the connection open when it arrives at once is served alike in all chunks exactly when
      every line is shorter than 1024 bytes. */
  lemma LongLinesDependOnChunks(s: Session, stream: Bytes)
    requires Handled(s, stream).0.open
    ensures (forall chunks | Concat(chunks) == stream :: Serve(s, [], chunks) == Handled(s, stream))
        <==> ShortLines(s, stream)
  {
    hide Handled, Serve, ShortLines;
    if ShortLines(s, stream) {
      forall chunks | Concat(chunks) == stream
        ensures Serve(s, [], chunks) == Handled(s, stream)
      {
        SessionIgnoresChunks(s, chunks);
      }
    } else {
      var chunks := LongLineShuts(s, stream);
    }
  }

  lemma LineIsServed(s: Session, line: Bytes)
    requires s.phase.NewCommand? && Clean(s) && CR !in line
    requires !ProcessRequest(s, line).Undefined? && ProcessRequest(s, line).s.open
    ensures Handled(s, line + [CR, LF]).0.open && (ShortLines(s, line + [CR, LF]) <==> |line| < LONGEST_LINE)
  {
    hide ProcessRequest, Clean, FindCrlf;
    var stream := line + [CR, LF];
    NoCrlf(line);
    CrlfAfterLine(line, []);
    assert line + [CR, LF] + [] == stream;
    assert stream[..|line|] == line && stream[|line| + 2..] == [];
    var t := OneRound(s, stream).s;
    NothingOfNothing(t);
    assert Handled(s, stream) == (t, []);
    NoLinesInNothing(t);
  }

  /** For a single line, whatever it asks for. */
  lemma OneLineIsCut(s: Session, line: Bytes)
    requires s.phase.NewCommand? && Clean(s) && CR !in line
    requires !ProcessRequest(s, line).Undefined? && ProcessRequest(s, line).s.open
    ensures var stream := line + [CR, LF];
            (forall chunks | Concat(chunks) == stream :: Serve(s, [], chunks) == Handled(s, stream))
                <==> |line| < LONGEST_LINE
  {
    hide *;
    LineIsServed(s, line);
    LongLinesDependOnChunks(s, line + [CR, LF]);
  }

  lemma NoLinesInNothing(s: Session)
    ensures ShortLines(s, [])
  {
  }

  // What holds between rounds.

  /** A new command finds nothing of the last one; one that receives has an unfinished item; one that discards has
      not. */
  predicate Orderly(s: Session) {
    && Inv(s.store)
    && match s.phase
       case NewCommand => Clean(s)
       case ReceiveValue => Receiving(s) && s.bytesToDiscard == 0
       case DiscardValue => s.currItem == None && s.bytesToDiscard > 0
  }

  lemma {:induction false} GetKeeps(s: Session, keys: seq<Bytes>, needCas: bool)
    ensures var t := DoGet(s, keys, needCas); t.store == s.store && t.phase == s.phase && t.open == s.open
    decreases |keys|
  {
    if keys != [] && |keys[0]| <= LONGEST_KEY {
      var found := if keys[0] in s.store.items then Output(s.store.items[keys[0]], needCas) else [];
      GetKeeps(s.(outputBuf := s.outputBuf + found), keys[1..], needCas);
    }
  }

  lemma UpdateKeeps(s: Session, policy: Policy, words: seq<Bytes>)
    requires Inv(s.store) && s.currItem == None && s.bytesToDiscard == 0 && s.phase.NewCommand?
    ensures match DoUpdate(s, policy, words)
            case Done(t) => t.store == s.store && t.phase.NewCommand?
            case Pending(t) => Orderly(t) && !t.phase.NewCommand?
            case Undefined => true
  {
    hide ReadArguments, Ascii, RelativeTime;
  }

  lemma DeleteKeeps(s: Session, words: seq<Bytes>)
    requires Inv(s.store) && s.phase.NewCommand?
    ensures match DoDelete(s, words)
            case Done(t) => Inv(t.store) && t.phase.NewCommand?
            case Pending(_) => false
            case Undefined => true
  {
    hide Ascii, Inv, AfterDelete, Reply;
    if words != [] {
      DeleteKeepsInv(s.store, words[0]);
      ReplyKeeps(s, Ascii("CLIENT_ERROR bad command line format\r\n"));
      ReplyKeeps(s, Ascii("CLIENT_ERROR bad command line format.  Usage: delete <key> [noreply]\r\n"));
      ReplyKeeps(s.(store := AfterDelete(s.store, words[0])), Ascii("DELETED\r\n"));
      ReplyKeeps(s, Ascii("NOT_FOUND\r\n"));
    }
  }

  lemma ReplyKeeps(s: Session, msg: Bytes)
    ensures Reply(s, msg) == s.(sent := Reply(s, msg).sent)
  {
  }

  lemma ExecuteKeeps(s: Session, words: seq<Bytes>)
    requires Inv(s.store) && s.currItem == None && s.bytesToDiscard == 0 && s.phase.NewCommand? && words != []
    ensures match Execute(s, words)
            case Done(t) => Inv(t.store) && t.phase.NewCommand?
            case Pending(t) => Orderly(t) && !t.phase.NewCommand?
            case Undefined => true
  {
    hide DoUpdate, DoGet, DoDelete, Ascii, Inv, PolicyOf, Receiving;
    if PolicyOf(words[0]).Some? {
      UpdateKeeps(s, PolicyOf(words[0]).value, words[1..]);
    } else {
      GetKeeps(s, words[1..], words[0] == Ascii("gets"));
      DeleteKeeps(s, words[1..]);
    }
  }

  lemma RequestKeeps(s: Session, line: Bytes)
    requires Inv(s.store) && Clean(s) && s.phase.NewCommand?
    ensures match ProcessRequest(s, line)
            case Done(t) => Inv(t.store) && t.phase.NewCommand?
            case Pending(t) => Orderly(t) && !t.phase.NewCommand?
            case Undefined => true
  {
    hide Execute, Words, Quiet;
    var t, words := s.(requests := s.requests + 1, noreply := Quiet(line)), Words(line);
    if words != [] {
      ExecuteKeeps(t.(command := words[0]), words);
    }
  }

  lemma FinishKeeps(s: Session, i: Incoming, policy: Policy)
    requires Inv(s.store) && |i.received| >= 2 && (i.key in s.store.items ==> |s.store.items[i.key].value| >= 2)
    ensures Orderly(Finish(s, i, policy)) && Finish(s, i, policy).phase.NewCommand?
  {
    if EndsWithCrlf(i.received) {
      StoreKeepsInv(s.store, Item(i.key, i.flags, i.exptime, i.received, i.cas), policy);
    }
  }

  lemma CommandKeeps(s: Session, buf: Bytes)
    requires Orderly(s) && s.phase.NewCommand? && CommandRound(s, buf).Took?
    ensures Orderly(CommandRound(s, buf).s)
  {
    RequestKeeps(s, buf[..FindCrlf(buf)]);
    hide ProcessRequest, Inv, FindCrlf;
  }

  lemma ReceiveKeeps(s: Session, buf: Bytes)
    requires Orderly(s) && s.phase.ReceiveValue? && ReceiveRound(s, buf).Took?
    ensures Orderly(ReceiveRound(s, buf).s)
  {
    hide Finish, Inv;
    var avail := Min(|buf|, s.currItem.value.valuelen - |s.currItem.value.received|);
    var i := s.currItem.value.(received := s.currItem.value.received + buf[..avail]);
    if |i.received| == i.valuelen {
      FinishKeeps(s, i, s.policy.value);
    }
  }

  lemma RoundKeeps(s: Session, buf: Bytes)
    requires Orderly(s) && OneRound(s, buf).Took?
    ensures Orderly(OneRound(s, buf).s)
  {
    hide CommandRound, ReceiveRound, Inv, Receiving;
    match s.phase {
      case NewCommand => CommandKeeps(s, buf);
      case ReceiveValue => ReceiveKeeps(s, buf);
      case DiscardValue =>
    }
  }

  lemma CallKeeps(s: Session, buf: Bytes)
    requires Orderly(s)
    ensures Orderly(Handled(s, buf).0)
  {
    hide OneRound, Inv;
    forall s, buf | Orderly(s) && OneRound(s, buf).Took?
      ensures Orderly(OneRound(s, buf).s)
    {
      RoundKeeps(s, buf);
    }
    KeptByDrain(OneRound, Orderly, s, buf);
  }

  lemma {:induction false} ServeKeeps(s: Session, buf: Bytes, chunks: seq<Bytes>)
    requires Orderly(s)
    ensures Orderly(Serve(s, buf, chunks).0)
    decreases |chunks|
  {
    hide Orderly, Handled;
    if chunks != [] {
      CallKeeps(s, buf + chunks[0]);
      var (t, rest) := Handled(s, buf + chunks[0]);
      ServeKeeps(t, rest, chunks[1..]);
    }
  }

  /** The fields of a request are clean at every new command, and the store stays in order. */
  lemma EverySessionIsOrderly(startTime: int, store: Store, chunks: seq<Bytes>)
    requires Inv(store)
    ensures Orderly(Serve(Start(startTime, store), [], chunks).0)
  {
    ServeKeeps(Start(startTime, store), [], chunks);
  }

  predicate AllShort(keys: seq<Bytes>) {
    forall i :: 0 <= i < |keys| ==> |keys[i]| <= LONGEST_KEY
  }

  predicate FoundAt(store: Store, keys: seq<Bytes>, i: nat) {
    i < |keys| && keys[i] in store.items && forall j :: 0 <= j <= i ==> |keys[j]| <= LONGEST_KEY
  }

  /** A key before the first one that is too long is stored. */
  predicate Hit(store: Store, keys: seq<Bytes>) {
    exists i :: 0 <= i < |keys| && FoundAt(store, keys, i)
  }

  lemma OutputIsSomething(store: Store, key: Bytes, needCas: bool)
    requires key in store.items
    ensures Output(store.items[key], needCas) != []
  {
    assert |Ascii("VALUE ")| == 6;
  }

  lemma HitInRest(store: Store, keys: seq<Bytes>)
    requires keys != [] && |keys[0]| <= LONGEST_KEY
    ensures Hit(store, keys) <==> keys[0] in store.items || Hit(store, keys[1..])
  {
    var rest := keys[1..];
    assert keys[0] in store.items ==> FoundAt(store, keys, 0);
    if Hit(store, rest) {
      var i :| 0 <= i < |rest| && FoundAt(store, rest, i);
      assert FoundAt(store, keys, i + 1) by {
        assert forall j :: 0 < j <= i + 1 ==> keys[j] == rest[j - 1];
      }
    }
    if Hit(store, keys) && keys[0] !in store.items {
      var i :| 0 <= i < |keys| && FoundAt(store, keys, i);
      assert FoundAt(store, rest, i - 1) by {
        assert forall j :: 0 <= j < i ==> rest[j] == keys[j + 1];
      }
    }
  }

  /** `get` leaves its output buffer empty exactly when all keys are short and it is sent, or a key is too long and
      nothing was found before it. What is left over is sent with the answer to a later `get`. */
  lemma {:induction false} OutputLeftOver(s: Session, keys: seq<Bytes>, needCas: bool)
    ensures DoGet(s, keys, needCas).outputBuf == []
            <==> if AllShort(keys) then s.open else s.outputBuf == [] && !Hit(s.store, keys)
    decreases |keys|
  {
    hide Output;
    if keys != [] && |keys[0]| <= LONGEST_KEY {
      var found := if keys[0] in s.store.items then Output(s.store.items[keys[0]], needCas) else [];
      var t, rest := s.(outputBuf := s.outputBuf + found), keys[1..];
      OutputLeftOver(t, rest, needCas);
      assert AllShort(keys) <==> AllShort(rest) by {
        assert forall i :: 0 < i < |keys| ==> keys[i] == rest[i - 1];
      }
      if keys[0] in s.store.items {
        OutputIsSomething(s.store, keys[0], needCas);
      }
      HitInRest(s.store, keys);
    }
  }

  /** For instance, the item that was found before a key that is too long. */
  lemma StaleOutput(s: Session, found: Bytes, tooLong: Bytes, needCas: bool)
    requires found in s.store.items && |found| <= LONGEST_KEY < |tooLong|
    ensures DoGet(s, [found, tooLong], needCas).outputBuf == s.outputBuf + Output(s.store.items[found], needCas)
  {
    hide Output, Ascii;
    assert [found, tooLong][1..] == [tooLong];
  }

  // A storage command with its data.

  /** A line that asks to store so many bytes. */
  predicate Accepted(s: Session, line: Bytes, t: Session) {
    ProcessRequest(s, line) == Pending(t) && t.phase.ReceiveValue?
  }

  /** An accepted storage command takes its line, and of what follows exactly the announced bytes and two more;
      it stores them exactly when the two are a line end, and leaves the session ready for a command. */
  lemma StorageTakesItsData(s: Session, line: Bytes, t: Session, data: Bytes, rest: Bytes)
    requires Orderly(s) && s.phase.NewCommand? && CR !in line && Accepted(s, line, t)
    requires |data| == t.currItem.value.valuelen
    ensures var i := t.currItem.value.(received := data);
            var z := Finish(t, i, t.policy.value);
            && Drain(OneRound, s, line + [CR, LF] + data + rest) == Drain(OneRound, z, rest)
            && Orderly(z) && z.phase.NewCommand?
            && z.store == if EndsWithCrlf(data) then
                AfterStore(s.store, Item(i.key, i.flags, i.exptime, data, i.cas), t.policy.value) else s.store
  {
    AcceptedReceives(s, line, t);
    AcceptedIsEmpty(s, line, t);
    hide Accepted, Finish, Drain, OneRound, Inv;
    assert line + [CR, LF] + data + rest == line + [CR, LF] + (data + rest);
    LineIsTaken(s, line, t, data + rest);
    ValueIsTaken(t, data, rest);
    var i := t.currItem.value.(received := data);
    FinishKeeps(t, i, t.policy.value);
    FinishStores(t, i, t.policy.value);
  }

  lemma AcceptedReceives(s: Session, line: Bytes, t: Session)
    requires Orderly(s) && s.phase.NewCommand? && Accepted(s, line, t)
    ensures Orderly(t) && t.phase.ReceiveValue? && Receiving(t) && Inv(t.store)
  {
    RequestKeeps(s, line);
    hide ProcessRequest, Inv;
  }

  lemma LineIsTaken(s: Session, line: Bytes, t: Session, more: Bytes)
    requires Orderly(s) && s.phase.NewCommand? && CR !in line && Accepted(s, line, t)
    ensures Drain(OneRound, s, line + [CR, LF] + more) == Drain(OneRound, t, more)
  {
    hide ProcessRequest, FindCrlf, Inv;
    var buf := line + [CR, LF] + more;
    NoCrlf(line);
    CrlfAfterLine(line, more);
    assert buf[..|line|] == line && buf[|line| + 2..] == more;
    assert OneRound(s, buf) == Took(|line| + 2, t);
  }

  lemma ValueIsTaken(t: Session, data: Bytes, rest: Bytes)
    requires t.phase.ReceiveValue? && Receiving(t) && t.currItem.value.received == []
    requires |data| == t.currItem.value.valuelen
    ensures Drain(OneRound, t, data + rest)
        == Drain(OneRound, Finish(t, t.currItem.value.(received := data), t.policy.value), rest)
  {
    hide Finish;
    assert [] + data == data;
    assert (data + rest)[..|data|] == data && (data + rest)[|data|..] == rest;
    assert OneRound(t, data + rest) == Took(|data|, Finish(t, t.currItem.value.(received := data), t.policy.value));
  }

  lemma AcceptedIsEmpty(s: Session, line: Bytes, t: Session)
    requires Accepted(s, line, t)
    ensures t.currItem.Some? && t.currItem.value.received == [] && t.store == s.store
  {
    hide ReadArguments, Words, PolicyOf, DoGet, Ascii, RelativeTime, Quiet;
  }

  lemma FinishStores(s: Session, i: Incoming, policy: Policy)
    requires |i.received| >= 2 && (i.key in s.store.items ==> |s.store.items[i.key].value| >= 2)
    ensures Finish(s, i, policy).store
            == if EndsWithCrlf(i.received) then
                AfterStore(s.store, Item(i.key, i.flags, i.exptime, i.received, i.cas), policy) else s.store
  {
  }

  // What a client writes.

  function Joined(words: seq<Bytes>): Bytes {
    if words == [] then [] else if |words| == 1 then words[0] else words[0] + [SPACE] + Joined(words[1..])
  }

  predicate IsWord(w: Bytes) {
    w != [] && SPACE !in w
  }

  lemma OneToken(w: Bytes)
    requires IsWord(w)
    ensures Tokens(w) == [w]
  {
    hide Find;
    assert w[0] in w;
    NoneFound(w, SPACE);
    assert w[..|w|] == w && w[|w|..] == [];
  }

  lemma TokenThen(w: Bytes, tail: Bytes)
    requires IsWord(w)
    ensures Tokens(w + [SPACE] + tail) == [w] + Tokens(tail)
  {
    hide Find;
    var s := w + [SPACE] + tail;
    assert s[0] == w[0] && w[0] in w;
    FindAfter(w, SPACE, tail);
    assert s[..|w|] == w && s[|w|..] == [SPACE] + tail;
    TokensAfterSpace(tail);
  }

  lemma JoinedWords(words: seq<Bytes>)
    requires words != []
    ensures |words| == 1 ==> Joined(words) == words[0] && words == [words[0]]
    ensures |words| > 1 ==> Joined(words) == words[0] + [SPACE] + Joined(words[1..]) && words == [words[0]] + words[1..]
  {
  }

  lemma TailWords(words: seq<Bytes>)
    requires words != [] && forall w :: w in words ==> IsWord(w)
    ensures IsWord(words[0]) && forall w :: w in words[1..] ==> IsWord(w)
  {
    hide IsWord;
    assert words[0] in words;
  }

  /** Words joined by spaces are the tokens. */
  lemma {:induction false} TokensOfWords(words: seq<Bytes>)
    requires forall w :: w in words ==> IsWord(w)
    ensures Tokens(Joined(words)) == words
    decreases |words|
  {
    if words == [] {
    } else {
      JoinedWords(words);
      TailWords(words);
      hide *;
      if |words| == 1 {
        OneToken(words[0]);
      } else {
        TokensOfWords(words[1..]);
        TokenThen(words[0], Joined(words[1..]));
      }
    }
  }

  lemma TokensAfterSpace(s: Bytes)
    ensures Tokens([SPACE] + s) == Tokens(s)
  {
    assert ([SPACE] + s)[1..] == s;
  }

  /** A number written in decimal is read back. */
  lemma NumberIsReadBack(n: nat)
    requires n < 0x1_0000_0000_0000_0000
    ensures ReadNumber(Numeral(DECIMAL, n)) == Some(n) && IsWord(Numeral(DECIMAL, n))
  {
    NumeralIsTheNumber(n);
    var t := Numeral(DECIMAL, n);
    assert IsDigit(t[0]) && TrimLeft(t) == t;
    forall i | 0 <= i < |t|
      ensures t[i] != SPACE
    {
      assert IsDigit(t[i]);
    }
  }

  lemma {:induction false} LastOfJoined(words: seq<Bytes>)
    requires words != [] && words[|words| - 1] != []
    ensures var w, s := words[|words| - 1], Joined(words); s != [] && s[|s| - 1] == w[|w| - 1]
    decreases |words|
  {
    if |words| > 1 {
      LastOfJoined(words[1..]);
    }
  }

  /** A line whose last byte is a digit does not end with the word that silences replies. */
  lemma NotQuiet(line: Bytes)
    requires line != [] && IsDigit(line[|line| - 1])
    ensures !Quiet(line)
  {
    assert Ascii(" noreply")[7] == 121;
    assert |line| >= 8 ==> line[|line| - 8..][7] == line[|line| - 1];
  }

  lemma SetIsNoOther()
    ensures PolicyOf(Ascii("set")) == Some(Set) && IsWord(Ascii("set"))
  {
    assert Ascii("set")[0] == 115 && Ascii("set")[1] == 101 && Ascii("set")[2] == 116;
  }

  /** A line as a client writes it, accepted as it was meant. */
  lemma SetIsAccepted(s: Session, key: Bytes, flags: nat, exptime: nat, bytes: nat)
    requires s.phase.NewCommand? && IsWord(key) && |key| <= LONGEST_KEY && flags < 0x1_0000_0000 && exptime <= MONTH
        && bytes <= LARGEST_VALUE
    ensures var t := s.(requests := s.requests + 1, noreply := false, command := Ascii("set"), policy := Some(Set),
                        currItem := Some(Incoming(key, flags, exptime, bytes + 2, 0, [])), phase := ReceiveValue);
            var line := Joined([Ascii("set"), key, Decimal(flags), Decimal(exptime), Decimal(bytes)]);
            Accepted(s, line, t)
  {
    var words := [Ascii("set"), key, Decimal(flags), Decimal(exptime), Decimal(bytes)];
    var line := Joined(words);
    NumberIsReadBack(flags);
    NumberIsReadBack(exptime);
    NumberIsReadBack(bytes);
    NumeralIsTheNumber(bytes);
    SetIsNoOther();
    TokensOfWords(words);
    LastOfJoined(words);
    NotQuiet(line);
    hide Tokens, Joined, ReadNumber, Ascii, Quiet, PolicyOf, DoUpdate;
    SetUpdates(s.(requests := s.requests + 1, noreply := false, command := Ascii("set")), key, flags, exptime, bytes,
        words[1..]);
  }

  lemma CastsKeep(x: nat)
    ensures x < 0x1_0000_0000 ==> ToUnsigned32(x) == x
    ensures x < 0x8000_0000 ==> ToSigned32(x) == x && ToSigned64(x) == x
  {
  }

  lemma ArgumentsAreRead(words: seq<Bytes>, flags: nat, exptime: nat, bytes: nat)
    requires flags < 0x1_0000_0000 && exptime <= MONTH && bytes <= LARGEST_VALUE
    requires |words| == 3 && words[0] == Decimal(flags) && words[1] == Decimal(exptime) && words[2] == Decimal(bytes)
    ensures ReadArguments(words, Set) == Some(Arguments(flags, exptime, bytes, 0))
  {
    hide ReadNumber, Numeral, ToUnsigned32, ToSigned32, ToSigned64;
    NumberIsReadBack(flags);
    NumberIsReadBack(exptime);
    NumberIsReadBack(bytes);
    CastsKeep(flags);
    CastsKeep(exptime);
    CastsKeep(bytes);
  }

  lemma SetUpdates(s: Session, key: Bytes, flags: nat, exptime: nat, bytes: nat, words: seq<Bytes>)
    requires |key| <= LONGEST_KEY && flags < 0x1_0000_0000 && exptime <= MONTH && bytes <= LARGEST_VALUE
    requires |words| == 4 && words[0] == key && words[1] == Decimal(flags) && words[2] == Decimal(exptime)
        && words[3] == Decimal(bytes)
    ensures DoUpdate(s, Set, words)
            == Pending(s.(policy := Some(Set), currItem := Some(Incoming(key, flags, exptime, bytes + 2, 0, [])),
                phase := ReceiveValue))
  {
    hide ReadArguments, Ascii, Decimal, ToSigned32;
    ArgumentsAreRead(words[1..], flags, exptime, bytes);
    CastsKeep(exptime);
  }

  // The object.

  /** One round took something. */
  ghost predicate Advanced(s: Session, before: Bytes, t: Session, after: Bytes) {
    exists n: nat :: 0 < n <= |before| && OneRound(s, before) == Took(n, t) && after == before[n..]
  }

  lemma AdvancedDrains(s: Session, before: Bytes, t: Session, after: Bytes)
    requires Orderly(s) && Advanced(s, before, t, after)
    ensures Drain(OneRound, s, before) == Drain(OneRound, t, after) && |after| < |before| && Orderly(t)
  {
    RoundKeeps(s, before);
  }

  lemma NothingWaits(s: Session)
    requires Orderly(s)
    ensures OneRound(s, []) == Wait
  {
  }

  lemma TooLongOnlyWaits(s: Session, buf: Bytes)
    requires Orderly(s) && s.phase.NewCommand?
    ensures OneRound(s, buf) == Wait ==> FindCrlf(buf) == |buf|
    ensures OneRound(s, buf) == Wait ==> OneRound(s.(open := false), buf) == Wait
    ensures OneRound(s, buf) == GiveUp ==> !TooLong(s, buf)
    ensures Orderly(s.(open := false))
  {
    hide ProcessRequest;
  }

  class Client {
    var session: Session

    constructor (startTime: int, store: Store)
      ensures session == Start(startTime, store)
    {
      session := Start(startTime, store);
    }

    /** `receiveValue`: takes what there is of the value, and no more than is missing. */
    method ReceiveFrom(buf: Buffer)
      requires buf.Valid() && buf.Contents() != [] && session.phase.ReceiveValue? && Orderly(session)
      modifies this, buf
      ensures buf.Valid() && Advanced(old(session), old(buf.Contents()), session, buf.Contents())
    {
      hide Finish, Inv;
      assert session.currItem.Some?;
      var item := session.currItem.value;
      var avail := Min(|buf.Contents()|, item.valuelen - |item.received|);
      var s := buf.RetrieveAsString(avail);
      item := item.(received := item.received + s);
      if |item.received| == item.valuelen {
        session := Finish(session, item, session.policy.value);
      } else {
        session := session.(currItem := Some(item));
      }
      assert OneRound(old(session), old(buf.Contents())) == Took(avail, session);
    }

    /** `discardValue`. */
    method DiscardFrom(buf: Buffer)
      requires buf.Valid() && buf.Contents() != [] && session.phase.DiscardValue? && Orderly(session)
      modifies this, buf
      ensures buf.Valid() && Advanced(old(session), old(buf.Contents()), session, buf.Contents())
    {
      hide Inv;
      assert session.currItem == None;
      if |buf.Contents()| < session.bytesToDiscard {
        session := session.(bytesToDiscard := session.bytesToDiscard - |buf.Contents()|);
        assert OneRound(old(session), old(buf.Contents())) == Took(|old(buf.Contents())|, session);
        buf.RetrieveAll();
      } else {
        assert OneRound(old(session), old(buf.Contents()))
            == Took(session.bytesToDiscard, ResetRequest(session).(phase := NewCommand));
        buf.Retrieve(session.bytesToDiscard);
        session := ResetRequest(session).(phase := NewCommand);
      }
    }

    /** The branch of `onMessage` for a new command. */
    method CommandFrom(buf: Buffer) returns (taken: bool, defined: bool)
      requires buf.Valid() && session.phase.NewCommand? && Orderly(session)
      modifies this, buf
      ensures buf.Valid()
      ensures taken ==> Advanced(old(session), old(buf.Contents()), session, buf.Contents())
      ensures !taken ==> session == old(session) && buf.Contents() == old(buf.Contents())
                         && OneRound(session, buf.Contents()) == if defined then Wait else GiveUp
      ensures taken ==> defined
    {
      hide ProcessRequest, Inv;
      taken, defined := false, true;
      var crlf := buf.FindCRLF();
      if crlf == |buf.Contents()| {
        return;
      }
      assert Clean(session);
      match ProcessRequest(session, buf.Contents()[..crlf]) {
        case Done(t) =>
          session := ResetRequest(t);
        case Pending(t) =>
          session := t;
        case Undefined =>
          defined := false;
          return;
      }
      taken := true;
      assert OneRound(old(session), old(buf.Contents())) == Took(crlf + 2, session);
      buf.Retrieve(crlf + 2);
    }

    /** `onMessage`. The result says that every request was defined. */
    method OnMessage(buf: Buffer) returns (defined: bool)
      requires buf.Valid() && Orderly(session)
      modifies this, buf
      ensures buf.Valid() && Orderly(session)
      ensures (session, buf.Contents()) == Handled(old(session), old(buf.Contents()))
      ensures defined <==> OneRound(session, buf.Contents()) != GiveUp
    {
      hide OneRound, Orderly, Advanced;
      defined := true;
      while |buf.Contents()| > 0
        invariant buf.Valid() && Orderly(session) && defined
        invariant Drain(OneRound, session, buf.Contents()) == Drain(OneRound, old(session), old(buf.Contents()))
        decreases |buf.Contents()|
      {
        ghost var was, before := session, buf.Contents();
        match session.phase {
          case NewCommand =>
            var taken;
            taken, defined := CommandFrom(buf);
            if !taken {
              TooLongOnlyWaits(session, buf.Contents());
              if defined && |buf.Contents()| > LONGEST_LINE {
                session := session.(open := false);
              }
              return;
            }
          case ReceiveValue =>
            ReceiveFrom(buf);
          case DiscardValue =>
            DiscardFrom(buf);
        }
        AdvancedDrains(was, before, session, buf.Contents());
      }
      NothingWaits(session);
    }
  }
}
