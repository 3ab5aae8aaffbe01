/** What the clients of the memcached server see (examples/memcached/server/Session.cc): lines as they write them, what
    each does to the store, and what is answered. */
module MemcacheCommands {
  import opened Machines
  import opened Streams
  import opened Buffers
  import opened MemcacheStore
  import opened LogStreams
  import opened MemcacheSession

  // Lines.

  predicate Plain(w: Bytes) {
    IsWord(w) && CR !in w
  }

  predicate AllPlain(words: seq<Bytes>) {
    forall i :: 0 <= i < |words| ==> Plain(words[i])
  }

  /** The words, and if it is asked for the one that silences the answer. */
  function LineOf(words: seq<Bytes>, quiet: bool): Bytes {
    Joined(words + if quiet then [Ascii("noreply")] else [])
  }

  /** A line that ends in `noreply` is always taken to ask for silence. */
  predicate Sayable(words: seq<Bytes>, quiet: bool) {
    words != [] && AllPlain(words) && (quiet || |words| == 1 || words[|words| - 1] != Ascii("noreply"))
  }

  lemma NoreplyIsPlain()
    ensures |Ascii("noreply")| == 7 && Plain(Ascii("noreply")) && Ascii(" noreply") == [SPACE] + Ascii("noreply")
    ensures forall i :: 0 < i < 8 ==> Ascii(" noreply")[i] != SPACE
  {
    assert forall i :: 0 <= i < 7 ==> Ascii("noreply")[i] != SPACE && Ascii("noreply")[i] != CR;
  }

  lemma {:induction false} JoinedLast(words: seq<Bytes>, last: Bytes)
    requires words != []
    ensures Joined(words + [last]) == Joined(words) + [SPACE] + last
    decreases |words|
  {
    var all := words + [last];
    JoinedWords(all);
    JoinedWords(words);
    if |words| == 1 {
      assert all[1..] == [last];
      JoinedWords([last]);
    } else {
      assert all[1..] == words[1..] + [last];
      JoinedLast(words[1..], last);
      hide Joined;
    }
  }

  lemma {:induction false} JoinedHasNoCr(words: seq<Bytes>)
    requires AllPlain(words)
    ensures CR !in Joined(words)
    decreases |words|
  {
    if words != [] {
      JoinedWords(words);
      assert Plain(words[0]) && AllPlain(words[1..]);
      JoinedHasNoCr(words[1..]);
    }
  }

  lemma QuietByItsEnd(front: Bytes, last: Bytes)
    requires IsWord(last)
    ensures Quiet(front + [SPACE] + last) <==> last == Ascii("noreply")
  {
    NoreplyIsPlain();
    hide Ascii;
    var line := front + [SPACE] + last;
    var n := |line| - 8;
    if |last| == 7 {
      assert line[n..] == [SPACE] + last;
      assert ([SPACE] + last)[1..] == last && ([SPACE] + Ascii("noreply"))[1..] == Ascii("noreply");
    } else if |last| > 7 {
      assert line[n] == last[|last| - 8] && last[|last| - 8] in last;
      assert line[n..][0] == line[n];
    } else if n >= 0 {
      assert line[n..][7 - |last|] == SPACE;
    }
  }

  lemma AloneIsNotQuiet(w: Bytes)
    requires IsWord(w)
    ensures !Quiet(w)
  {
    NoreplyIsPlain();
    hide Ascii;
    if |w| >= 8 {
      assert w[|w| - 8..][0] == w[|w| - 8] && w[|w| - 8] in w;
    }
  }

  lemma PlainWords(words: seq<Bytes>)
    requires AllPlain(words)
    ensures forall w :: w in words ==> IsWord(w)
  {
  }

  /** The words of the line are read as they were written, and silence when it was asked for. */
  lemma LineIsRead(words: seq<Bytes>, quiet: bool)
    requires Sayable(words, quiet)
    ensures var line := LineOf(words, quiet); Words(line) == words && Quiet(line) == quiet && CR !in line
  {
    NoreplyIsPlain();
    PlainWords(words);
    TokensOfWords(words);
    var line, n := LineOf(words, quiet), |words| - 1;
    if quiet {
      JoinedHasNoCr(words + [Ascii("noreply")]);
      JoinedLast(words, Ascii("noreply"));
      QuietByItsEnd(Joined(words), Ascii("noreply"));
      SilentFront(Joined(words));
    } else {
      assert words + [] == words;
      JoinedHasNoCr(words);
      if n == 0 {
        JoinedWords(words);
        AloneIsNotQuiet(words[0]);
      } else {
        assert words == words[..n] + [words[n]];
        JoinedLast(words[..n], words[n]);
        QuietByItsEnd(Joined(words[..n]), words[n]);
      }
    }
    hide *;
  }

  lemma SilentFront(front: Bytes)
    ensures var line := front + [SPACE] + Ascii("noreply"); line[..|line| - 8] == front
  {
  }

  /** The session as the command finds it. */
  function Asked(s: Session, words: seq<Bytes>, quiet: bool): Session
    requires words != []
  {
    s.(requests := s.requests + 1, noreply := quiet, command := words[0])
  }

  lemma RequestIs(s: Session, words: seq<Bytes>, quiet: bool)
    requires Sayable(words, quiet)
    ensures ProcessRequest(s, LineOf(words, quiet)) == Execute(Asked(s, words, quiet), words)
  {
    LineIsRead(words, quiet);
    hide Execute, LineOf, Words, Quiet;
  }

  /** A request that is dealt with leaves the session clean, and nothing in the buffer. */
  lemma DoneIsServed(s: Session, line: Bytes, u: Session)
    requires s.phase.NewCommand? && Clean(s) && CR !in line && ProcessRequest(s, line) == Done(u) && u.phase.NewCommand?
    ensures Handled(s, line + [CR, LF]) == (ResetRequest(u), [])
  {
    hide ProcessRequest, Clean, FindCrlf;
    var stream := line + [CR, LF];
    NoCrlf(line);
    CrlfAfterLine(line, []);
    assert line + [CR, LF] + [] == stream;
    assert stream[..|line|] == line && stream[|line| + 2..] == [];
    NothingOfNothing(ResetRequest(u));
    assert OneRound(s, stream) == Took(|line| + 2, ResetRequest(u));
  }

  lemma WordsAreServed(s: Session, words: seq<Bytes>, quiet: bool, u: Session)
    requires s.phase.NewCommand? && Clean(s) && Sayable(words, quiet)
    requires Execute(Asked(s, words, quiet), words) == Done(u) && u.phase.NewCommand?
    ensures Handled(s, LineOf(words, quiet) + [CR, LF]) == (ResetRequest(u), [])
  {
    hide *;
    RequestIs(s, words, quiet);
    LineIsRead(words, quiet);
    DoneIsServed(s, LineOf(words, quiet), u);
  }

  /** What the client has been sent when it is answered. */
  function Told(s: Session, quiet: bool, answer: Bytes): Bytes {
    s.sent + if quiet || !s.open then [] else answer
  }

  lemma ReplyTells(s: Session, words: seq<Bytes>, quiet: bool, answer: Bytes)
    requires words != []
    ensures var u := Asked(s, words, quiet); Reply(u, answer) == u.(sent := Told(s, quiet, answer))
  {
    assert s.sent + [] == s.sent;
  }

  /** Ready for the next command. */
  predicate Ready(s: Session) {
    s.phase.NewCommand? && Clean(s)
  }

  // The words of the protocol.

  function SpelledOf(p: Policy): Bytes {
    match p
    case Set => [115, 101, 116]
    case Add => [97, 100, 100]
    case Replace => [114, 101, 112, 108, 97, 99, 101]
    case Append => [97, 112, 112, 101, 110, 100]
    case Prepend => [112, 114, 101, 112, 101, 110, 100]
    case Cas => [99, 97, 115]
  }

  const GET: Bytes := [103, 101, 116]
  const GETS: Bytes := [103, 101, 116, 115]
  const DELETE: Bytes := [100, 101, 108, 101, 116, 101]
  const VERSION: Bytes := [118, 101, 114, 115, 105, 111, 110]
  const QUIT: Bytes := [113, 117, 105, 116]
  const SHUTDOWN: Bytes := [115, 104, 117, 116, 100, 111, 119, 110]

  lemma Spelling()
    ensures Ascii("set") == SpelledOf(Set) && Ascii("add") == SpelledOf(Add) && Ascii("replace") == SpelledOf(Replace)
    ensures Ascii("append") == SpelledOf(Append) && Ascii("prepend") == SpelledOf(Prepend)
    ensures Ascii("cas") == SpelledOf(Cas)
  {
  }

  lemma SpellingOfOthers()
    ensures Ascii("get") == GET && Ascii("gets") == GETS && Ascii("delete") == DELETE && Ascii("version") == VERSION
    ensures Ascii("quit") == QUIT && Ascii("shutdown") == SHUTDOWN
  {
  }

  /** The six storage words, and no other, stand for the six ways to store. */
  lemma SixStorageWords(w: Bytes, p: Policy)
    ensures PolicyOf(w) == Some(p) <==> w == SpelledOf(p)
  {
    Spelling();
    hide Ascii;
    assert SpelledOf(Set)[0] == 115 && SpelledOf(Add)[0] == 97 && SpelledOf(Cas)[0] == 99;
    assert SpelledOf(Replace)[0] == 114 && SpelledOf(Prepend)[0] == 112;
  }

  lemma NoStorageWord(w: Bytes)
    requires w in {GET, GETS, DELETE, VERSION, QUIT, SHUTDOWN}
    ensures PolicyOf(w).None? && Plain(w)
  {
    var o := PolicyOf(w);
    if o.Some? {
      SixStorageWords(w, o.value);
      SpelledUnlike(w, o.value);
    }
  }

  lemma SpelledUnlike(w: Bytes, p: Policy)
    requires w in {GET, GETS, DELETE, VERSION, QUIT, SHUTDOWN}
    ensures w != SpelledOf(p)
  {
    assert |w| != |SpelledOf(p)| || w[0] != SpelledOf(p)[0];
  }

  /** Which command the other words stand for. */
  lemma Dispatch(s: Session, words: seq<Bytes>)
    requires words != []
    ensures words[0] == GET ==> Execute(s, words) == Done(DoGet(s, words[1..], false))
    ensures words[0] == GETS ==> Execute(s, words) == Done(DoGet(s, words[1..], true))
    ensures words[0] == DELETE ==> Execute(s, words) == DoDelete(s, words[1..])
    ensures words[0] == VERSION ==> Execute(s, words) == Done(Reply(s, Ascii("VERSION 0.01 muduo\r\n")))
    ensures words[0] == QUIT ==> Execute(s, words) == Done(s.(open := false))
    ensures words[0] == SHUTDOWN ==> Execute(s, words) == Done(s.(open := false, stopped := true))
    ensures forall p :: words[0] == SpelledOf(p) ==> Execute(s, words) == DoUpdate(s, p, words[1..])
  {
    SpellingOfOthers();
    hide Ascii, DoGet, DoDelete, DoUpdate, PolicyOf, Reply;
    if words[0] in {GET, GETS, DELETE, VERSION, QUIT, SHUTDOWN} {
      NoStorageWord(words[0]);
    }
    forall p | words[0] == SpelledOf(p)
      ensures Execute(s, words) == DoUpdate(s, p, words[1..])
    {
      SixStorageWords(words[0], p);
    }
    assert GET[0] == 103 && QUIT[0] == 113 && |GETS| == 4 && |DELETE| == 6 && VERSION[0] == 118;
  }

  // delete

  /** `delete`: exactly the key goes, and the answer says whether it was there. */
  lemma DeleteIsServed(s: Session, key: Bytes, quiet: bool)
    requires Ready(s) && Plain(key) && |key| <= LONGEST_KEY && (quiet || key != Ascii("noreply"))
    ensures var (t, rest) := Handled(s, LineOf([DELETE, key], quiet) + [CR, LF]);
            && rest == [] && Ready(t) && At(t.store, key).None? && OthersKept(s.store, t.store, key)
            && t.sent == Told(s, quiet, if key in s.store.items then Ascii("DELETED\r\n") else Ascii("NOT_FOUND\r\n"))
  {
    var words := [DELETE, key];
    NoStorageWord(DELETE);
    var u := Asked(s, words, quiet);
    Dispatch(u, words);
    assert words[1..] == [key];
    DeleteLeaves(s.store, key);
    ReplyTells(s, words, quiet, Ascii("NOT_FOUND\r\n"));
    DeletedTells(s, words, quiet, key);
    hide Ascii, OthersKept, Reply, Execute, Handled, LineOf, At, Told;
    var d := DoDelete(u, [key]);
    WordsAreServed(s, words, quiet, d.s);
  }

  lemma DeletedTells(s: Session, words: seq<Bytes>, quiet: bool, key: Bytes)
    requires words != []
    ensures var u := Asked(s, words, quiet).(store := AfterDelete(s.store, key));
            Reply(u, Ascii("DELETED\r\n")) == u.(sent := Told(s, quiet, Ascii("DELETED\r\n")))
  {
    assert s.sent + [] == s.sent;
  }

  /** A key that is called `noreply` cannot be deleted with an answer: the line is one without a key, for which the
      source reads a key that is not there. */
  lemma NoreplyIsNoKey(s: Session)
    ensures ProcessRequest(s, LineOf([DELETE, Ascii("noreply")], false)) == Undefined
  {
    NoStorageWord(DELETE);
    var line := LineOf([DELETE, Ascii("noreply")], false);
    assert [DELETE] + [Ascii("noreply")] == [DELETE, Ascii("noreply")] + [];
    assert line == LineOf([DELETE], true);
    RequestIs(s, [DELETE], true);
    Dispatch(Asked(s, [DELETE], true), [DELETE]);
  }

  // Commands without a key.

  lemma VersionIsServed(s: Session, quiet: bool)
    requires Ready(s)
    ensures var (t, rest) := Handled(s, LineOf([VERSION], quiet) + [CR, LF]);
            rest == [] && Ready(t) && t.store == s.store && t.sent == Told(s, quiet, Ascii("VERSION 0.01 muduo\r\n"))
  {
    NoStorageWord(VERSION);
    Dispatch(Asked(s, [VERSION], quiet), [VERSION]);
    ReplyTells(s, [VERSION], quiet, Ascii("VERSION 0.01 muduo\r\n"));
    hide Ascii, Reply, Execute, Handled, LineOf, Told;
    WordsAreServed(s, [VERSION], quiet, Reply(Asked(s, [VERSION], quiet), Ascii("VERSION 0.01 muduo\r\n")));
  }

  /** `quit` and `shutdown` close the connection, `shutdown` stops the server, and neither is answered. */
  lemma QuitIsServed(s: Session, down: bool, quiet: bool)
    requires Ready(s)
    ensures var (t, rest) := Handled(s, LineOf([if down then SHUTDOWN else QUIT], quiet) + [CR, LF]);
            && rest == [] && Ready(t) && t.store == s.store && t.sent == s.sent
            && !t.open && t.stopped == (s.stopped || down)
  {
    var words := [if down then SHUTDOWN else QUIT];
    NoStorageWord(words[0]);
    var u := Asked(s, words, quiet);
    Dispatch(u, words);
    hide Execute, Handled, LineOf;
    WordsAreServed(s, words, quiet, if down then u.(open := false, stopped := true) else u.(open := false));
  }

  /** A key of more than 250 bytes is refused, and the store left alone. */
  lemma LongKeyIsRefused(s: Session, key: Bytes, quiet: bool)
    requires Ready(s) && Plain(key) && |key| > LONGEST_KEY
    ensures var (t, rest) := Handled(s, LineOf([DELETE, key], quiet) + [CR, LF]);
            && rest == [] && Ready(t) && t.store == s.store
            && t.sent == Told(s, quiet, Ascii("CLIENT_ERROR bad command line format\r\n"))
  {
    var words := [DELETE, key];
    NoStorageWord(DELETE);
    NoreplyIsPlain();
    var u := Asked(s, words, quiet);
    Dispatch(u, words);
    assert words[1..] == [key];
    ReplyTells(s, words, quiet, Ascii("CLIENT_ERROR bad command line format\r\n"));
    hide Ascii, Reply, Execute, Handled, LineOf, Told;
    WordsAreServed(s, words, quiet, DoDelete(u, [key]).s);
  }

  // Storage commands.

  function StorageWords(p: Policy, key: Bytes, flags: nat, exptime: nat, bytes: nat, cas: nat): seq<Bytes> {
    [SpelledOf(p), key, Decimal(flags), Decimal(exptime), Decimal(bytes)] + if p.Cas? then [Decimal(cas)] else []
  }

  /** The numbers that a client may write. */
  predicate Numbers(flags: nat, exptime: nat, bytes: nat, cas: nat) {
    flags < 0x1_0000_0000 && exptime <= MONTH && bytes <= 0x7fff_fffd && cas < 0x1_0000_0000_0000_0000
  }

  lemma NumberIsPlain(n: nat)
    requires n < 0x1_0000_0000_0000_0000
    ensures ReadNumber(Decimal(n)) == Some(n) && Plain(Decimal(n)) && Decimal(n) != Ascii("noreply")
  {
    NumberIsReadBack(n);
    NumeralIsTheNumber(n);
    assert IsDigit(Decimal(n)[0]) && Ascii("noreply")[0] == 110;
    forall i | 0 <= i < |Decimal(n)|
      ensures Decimal(n)[i] != CR
    {
      assert IsDigit(Decimal(n)[i]);
    }
  }

  lemma StorageIsSayable(p: Policy, key: Bytes, flags: nat, exptime: nat, bytes: nat, cas: nat, quiet: bool)
    requires Plain(key) && Numbers(flags, exptime, bytes, cas)
    ensures Sayable(StorageWords(p, key, flags, exptime, bytes, cas), quiet)
  {
    hide Ascii, Decimal, Plain, SpelledOf;
    NumberIsPlain(flags);
    NumberIsPlain(exptime);
    NumberIsPlain(bytes);
    NumberIsPlain(cas);
    SpelledIsPlain(p);
    var words := StorageWords(p, key, flags, exptime, bytes, cas);
    assert words[|words| - 1] == Decimal(if p.Cas? then cas else bytes);
  }

  lemma SpelledIsPlain(p: Policy)
    ensures Plain(SpelledOf(p))
  {
  }

  lemma StorageIsRead(p: Policy, key: Bytes, flags: nat, exptime: nat, bytes: nat, cas: nat)
    requires Numbers(flags, exptime, bytes, cas)
    ensures var words := StorageWords(p, key, flags, exptime, bytes, cas);
            ReadArguments(words[1..][1..], p) == Some(Arguments(flags, exptime, bytes, if p.Cas? then cas else 0))
  {
    NumberIsPlain(flags);
    NumberIsPlain(exptime);
    NumberIsPlain(bytes);
    NumberIsPlain(cas);
    CastsKeep(flags);
    CastsKeep(exptime);
    CastsKeep(bytes);
    hide Ascii, Decimal, Plain, SpelledOf, ReadNumber, ToUnsigned32, ToSigned32, ToSigned64;
    var words := StorageWords(p, key, flags, exptime, bytes, cas);
    assert words[1..][1..] == [Decimal(flags), Decimal(exptime), Decimal(bytes)] + if p.Cas? then [Decimal(cas)]
        else [];
  }

  /** The session while it waits for the data. */
  function Awaiting(s: Session, p: Policy, key: Bytes, flags: nat, exptime: nat, bytes: nat, cas: nat,
      quiet: bool): Session {
    s.(requests := s.requests + 1, noreply := quiet, command := SpelledOf(p), policy := Some(p),
       currItem := Some(Incoming(key, flags, exptime, bytes + 2, if p.Cas? then cas else 0, [])), phase := ReceiveValue)
  }

  /** Each of the six commands is taken as it is written. */
  lemma StorageIsAccepted(s: Session, p: Policy, key: Bytes, flags: nat, exptime: nat, bytes: nat, cas: nat,
      quiet: bool)
    requires s.phase.NewCommand? && Plain(key) && |key| <= LONGEST_KEY && Numbers(flags, exptime, bytes, cas)
    requires bytes <= LARGEST_VALUE
    ensures var line := LineOf(StorageWords(p, key, flags, exptime, bytes, cas), quiet);
            Accepted(s, line, Awaiting(s, p, key, flags, exptime, bytes, cas, quiet)) && CR !in line
  {
    hide LineOf, Execute, ProcessRequest, StorageWords, ReadArguments, Ascii, ToSigned32, SpelledOf, DoUpdate, Plain;
    var words := StorageWords(p, key, flags, exptime, bytes, cas);
    StorageIsSayable(p, key, flags, exptime, bytes, cas, quiet);
    RequestIs(s, words, quiet);
    LineIsRead(words, quiet);
    StorageUpdates(Asked(s, words, quiet), p, key, flags, exptime, bytes, cas);
    Dispatch(Asked(s, words, quiet), words);
  }

  lemma StorageUpdates(s: Session, p: Policy, key: Bytes, flags: nat, exptime: nat, bytes: nat, cas: nat)
    requires |key| <= LONGEST_KEY && Numbers(flags, exptime, bytes, cas) && bytes <= LARGEST_VALUE
    ensures var words := StorageWords(p, key, flags, exptime, bytes, cas);
            && words[0] == SpelledOf(p)
            && DoUpdate(s, p, words[1..])
               == Pending(s.(policy := Some(p), phase := ReceiveValue,
                             currItem := Some(Incoming(key, flags, exptime, bytes + 2, if p.Cas? then cas else 0, []))))
  {
    hide ReadArguments, Ascii, ToSigned32, SpelledOf, Decimal, AfterDelete;
    StorageIsRead(p, key, flags, exptime, bytes, cas);
    CastsKeep(exptime);
    assert StorageWords(p, key, flags, exptime, bytes, cas)[1..][0] == key;
  }

  /** What is answered when the data have come. */
  function Answer(s: Session, t: Session, p: Policy, key: Bytes, tail: Bytes): Bytes {
    if tail != [CR, LF] then Ascii("CLIENT_ERROR bad data chunk\r\n")
    else if At(t.store, key) != At(s.store, key) then Ascii("STORED\r\n")
    else if p != Cas then Ascii("NOT_STORED\r\n")
    else if key in s.store.items then Ascii("EXISTS\r\n")
    else Ascii("NOT_FOUND\r\n")
  }

  /** A storage command with its data. When the data end with a line end, the store does what the policy says with
      the item that was sent, and the client is told whether its key has another item now, and else why not; when
      they do not, nothing is stored. */
  lemma StorageIsServed(s: Session, p: Policy, key: Bytes, flags: nat, exptime: nat, data: Bytes, tail: Bytes, cas: nat,
      quiet: bool)
    requires Orderly(s) && s.phase.NewCommand? && Plain(key) && |key| <= LONGEST_KEY && |tail| == 2
    requires Numbers(flags, exptime, |data|, cas) && |data| <= LARGEST_VALUE
    ensures var line := LineOf(StorageWords(p, key, flags, exptime, |data|, cas), quiet);
            var (t, rest) := Handled(s, line + [CR, LF] + (data + tail));
            var item := Item(key, flags, exptime, data + tail, if p.Cas? then cas else 0);
            && rest == [] && Ready(t) && Orderly(t)
            && (tail == [CR, LF] <==> EndsWithCrlf(item.value))
            && (tail == [CR, LF] ==>
                  (item.key in s.store.items ==> |s.store.items[item.key].value| >= 2)
                  && t.store == AfterStore(s.store, item, p))
            && (tail != [CR, LF] ==> t.store == s.store)
            && t.sent == Told(s, quiet, Answer(s, t, p, key, tail))
  {
    var line := LineOf(StorageWords(p, key, flags, exptime, |data|, cas), quiet);
    var w := Awaiting(s, p, key, flags, exptime, |data|, cas, quiet);
    StorageIsAccepted(s, p, key, flags, exptime, |data|, cas, quiet);
    StorageTakesItsData(s, line, w, data + tail, []);
    TailDecides(data, tail);
    StoreIsWhole(s);
    FinishTells(s, p, key, flags, exptime, data + tail, cas, quiet);
    hide LineOf, StorageWords, Accepted, Ascii, EndsWithCrlf, Finish, At, Told, AfterStore, Inv, Orderly, SpelledOf;
    var z := Finish(w, w.currItem.value.(received := data + tail), p);
    assert line + [CR, LF] + (data + tail) + [] == line + [CR, LF] + (data + tail);
    NothingOfNothing(z);
    OneCall(s, line + [CR, LF] + (data + tail), z);
  }

  lemma OneCall(s: Session, buf: Bytes, z: Session)
    requires Drain(OneRound, s, buf) == Drain(OneRound, z, [])
    ensures Handled(s, buf) == (z, [])
  {
    NothingOfNothing(z);
    hide OneRound;
  }

  lemma TailDecides(data: Bytes, tail: Bytes)
    requires |tail| == 2
    ensures EndsWithCrlf(data + tail) <==> tail == [CR, LF]
  {
    assert (data + tail)[|data|..] == tail;
  }

  lemma StoreIsWhole(s: Session)
    requires Orderly(s)
    ensures Inv(s.store) && forall k :: k in s.store.items ==> |s.store.items[k].value| >= 2
  {
  }

  lemma FinishTells(s: Session, p: Policy, key: Bytes, flags: nat, exptime: nat, value: Bytes, cas: nat, quiet: bool)
    requires Orderly(s) && s.phase.NewCommand? && |value| >= 2
    ensures var w := Awaiting(s, p, key, flags, exptime, |value| - 2, cas, quiet);
            var z := Finish(w, w.currItem.value.(received := value), p);
            && Ready(z)
            && z.sent == Told(s, quiet, Answer(s, z, p, key, if EndsWithCrlf(value) then [CR, LF] else []))
  {
    hide EndsWithCrlf, Inv, AfterStore, Stores, Ascii, OthersKept, SpelledOf;
    var w := Awaiting(s, p, key, flags, exptime, |value| - 2, cas, quiet);
    StoreIsWhole(s);
    if EndsWithCrlf(value) {
      StoredMeansChanged(s.store, Item(key, flags, exptime, value, if p.Cas? then cas else 0), p);
    }
    assert s.sent + [] == s.sent;
  }

  /** A value that is too large: the key loses its item, the data are passed over, and the client is told. */
  lemma LargeIsDiscarded(s: Session, p: Policy, key: Bytes, flags: nat, exptime: nat, data: Bytes, cas: nat,
      quiet: bool)
    requires Ready(s) && Plain(key) && |key| <= LONGEST_KEY && |data| >= 2
    requires Numbers(flags, exptime, |data| - 2, cas) && |data| - 2 > LARGEST_VALUE
    ensures var line := LineOf(StorageWords(p, key, flags, exptime, |data| - 2, cas), quiet);
            var (t, rest) := Handled(s, line + [CR, LF] + data);
            && rest == [] && Ready(t) && At(t.store, key).None? && OthersKept(s.store, t.store, key)
            && t.sent == Told(s, quiet, Ascii("SERVER_ERROR object too large for cache\r\n"))
  {
    hide LineOf, Execute, ProcessRequest, StorageWords, Ascii, SpelledOf, DoUpdate, Plain, Reply, OthersKept, At;
    var words := StorageWords(p, key, flags, exptime, |data| - 2, cas);
    var line := LineOf(words, quiet);
    StorageIsSayable(p, key, flags, exptime, |data| - 2, cas, quiet);
    RequestIs(s, words, quiet);
    LineIsRead(words, quiet);
    LargeUpdates(s, p, key, flags, exptime, |data| - 2, cas, quiet);
    Dispatch(Asked(s, words, quiet), words);
    var w := Discarding(s, p, key, |data| - 2, quiet);
    LineWaits(s, line, w, data);
    AllDiscarded(w, data);
    DeleteLeaves(s.store, key);
    OneCall(s, line + [CR, LF] + data, ResetRequest(w).(phase := NewCommand));
    ResetIsReady(w);
  }

  function Discarding(s: Session, p: Policy, key: Bytes, bytes: nat, quiet: bool): Session {
    s.(requests := s.requests + 1, noreply := quiet, command := SpelledOf(p), policy := Some(p),
       sent := Told(s, quiet, Ascii("SERVER_ERROR object too large for cache\r\n")),
       store := AfterDelete(s.store, key), bytesToDiscard := bytes + 2, phase := DiscardValue)
  }

  lemma LargeUpdates(s: Session, p: Policy, key: Bytes, flags: nat, exptime: nat, bytes: nat, cas: nat, quiet: bool)
    requires |key| <= LONGEST_KEY && Numbers(flags, exptime, bytes, cas) && bytes > LARGEST_VALUE
    ensures var words := StorageWords(p, key, flags, exptime, bytes, cas);
            && words[0] == SpelledOf(p)
            && DoUpdate(Asked(s, words, quiet), p, words[1..]) == Pending(Discarding(s, p, key, bytes, quiet))
  {
    hide ReadArguments, Ascii, ToSigned32, SpelledOf, Decimal, AfterDelete;
    StorageIsRead(p, key, flags, exptime, bytes, cas);
    assert StorageWords(p, key, flags, exptime, bytes, cas)[1..][0] == key;
    assert s.sent + [] == s.sent;
  }

  lemma LineWaits(s: Session, line: Bytes, w: Session, more: Bytes)
    requires Ready(s) && CR !in line && ProcessRequest(s, line) == Pending(w)
    ensures Drain(OneRound, s, line + [CR, LF] + more) == Drain(OneRound, w, more)
  {
    hide ProcessRequest, FindCrlf, Clean;
    var buf := line + [CR, LF] + more;
    NoCrlf(line);
    CrlfAfterLine(line, more);
    assert buf[..|line|] == line && buf[|line| + 2..] == more;
    assert OneRound(s, buf) == Took(|line| + 2, w);
  }

  lemma AllDiscarded(w: Session, data: Bytes)
    requires w.phase.DiscardValue? && w.currItem.None? && w.bytesToDiscard == |data| > 0
    ensures Drain(OneRound, w, data) == Drain(OneRound, ResetRequest(w).(phase := NewCommand), [])
  {
    assert data[|data|..] == [];
    assert OneRound(w, data) == Took(|data|, ResetRequest(w).(phase := NewCommand));
  }

  lemma ResetIsReady(w: Session)
    ensures Ready(ResetRequest(w).(phase := NewCommand))
  {
  }

  /** Times of up to thirty days are from now on; later ones are points in time, at least one second from the start. */
  lemma LaterTimesAreRelative(exptime: nat, startTime: nat)
    requires exptime < 0x8000_0000 && startTime < 0x8000_0000
    ensures RelativeTime(exptime, startTime)
            == if exptime <= MONTH then exptime else if exptime - startTime < 1 then 1 else exptime - startTime
  {
  }

  // get

  /** An item as the client sees it. */
  datatype Shown = Shown(key: Bytes, flags: nat, cas: Option<nat>, payload: Bytes)

  const VALUE: Bytes := [86, 65, 76, 85, 69]
  const END: Bytes := [69, 78, 68]

  /** How a client reads the answer to `get` or `gets`: blocks of a line and so many bytes, up to the end. */
  function ReadReply(b: Bytes, withCas: bool): Option<seq<Shown>>
    decreases |b|
  {
    var n := FindCrlf(b);
    if n + 2 > |b| then None
    else
      var words, rest := Tokens(b[..n]), b[n + 2..];
      if words == [END] then if rest == [] then Some([]) else None
      else if |words| != (if withCas then 5 else 4) || words[0] != VALUE then None
      else
        var flags, len := ReadNumber(words[2]), ReadNumber(words[3]);
        var cas := if withCas then ReadNumber(words[4]) else Some(0);
        if flags.None? || len.None? || cas.None? then None
        else if len.value + 2 > |rest| || rest[len.value..len.value + 2] != [CR, LF] then None
        else
          match ReadReply(rest[len.value + 2..], withCas)
          case None => None
          case Some(more) =>
            Some([Shown(words[1], flags.value, if withCas then cas else None, rest[..len.value])] + more)
  }

  function ShownOf(item: Item, withCas: bool): Shown
    requires |item.value| >= 2
  {
    Shown(item.key, item.flags, if withCas then Some(item.cas) else None, Payload(item.value))
  }

  /** The items of the keys that are there, in the order of the keys. */
  function FoundIn(store: Store, keys: seq<Bytes>, withCas: bool): seq<Shown>
    requires Inv(store)
  {
    if keys == [] then []
    else
      HasItem(store, keys[0]);
      (if keys[0] in store.items then [ShownOf(store.items[keys[0]], withCas)] else [])
          + FoundIn(store, keys[1..], withCas)
  }

  lemma HasItem(store: Store, key: Bytes)
    requires Inv(store)
    ensures key in store.items ==>
              var i := store.items[key]; i.key == key && EndsWithCrlf(i.value) && |i.value| >= 2
  {
  }

  /** The numbers fit into the types of the source. */
  predicate Fits(item: Item) {
    item.flags < 0x1_0000_0000_0000_0000 && item.cas < 0x1_0000_0000_0000_0000 && |item.value| < 0x1_0000_0000_0000_0000
  }

  function HeadWords(item: Item, withCas: bool): seq<Bytes>
    requires |item.value| >= 2
  {
    [VALUE, item.key, Decimal(item.flags), Decimal(|item.value| - 2)] + if withCas then [Decimal(item.cas)] else []
  }

  lemma OutputIs(item: Item, withCas: bool)
    requires |item.value| >= 2
    ensures Output(item, withCas) == Joined(HeadWords(item, withCas)) + [CR, LF] + item.value
  {
    ValueWord();
    hide Ascii, Decimal;
    var words := HeadWords(item, withCas);
    JoinedWords(words);
    JoinedWords(words[1..]);
    JoinedWords(words[1..][1..]);
    JoinedWords(words[1..][1..][1..]);
    if withCas {
      JoinedWords(words[1..][1..][1..][1..]);
    }
    hide Joined;
    var line := VALUE + [SPACE] + (item.key + [SPACE] + (Decimal(item.flags) + [SPACE] + (Decimal(|item.value| - 2)
        + if withCas then [SPACE] + Decimal(item.cas) else [])));
    assert Joined(words) == line;
  }

  lemma ValueWord()
    ensures Ascii("VALUE ") == VALUE + [SPACE] && Ascii("\r\n") == [CR, LF] && Ascii("END\r\n") == END + [CR, LF]
    ensures Plain(VALUE) && Plain(END)
  {
  }

  lemma HeadIsPlain(item: Item, withCas: bool)
    requires |item.value| >= 2 && Plain(item.key) && Fits(item)
    ensures AllPlain(HeadWords(item, withCas))
    ensures ReadNumber(Decimal(item.flags)) == Some(item.flags) && ReadNumber(Decimal(item.cas)) == Some(item.cas)
    ensures ReadNumber(Decimal(|item.value| - 2)) == Some(|item.value| - 2)
  {
    hide Ascii, Decimal, Plain;
    ValueWord();
    NumberIsPlain(item.flags);
    NumberIsPlain(item.cas);
    NumberIsPlain(|item.value| - 2);
  }

  /** A line, then what follows it. */
  lemma LineThen(words: seq<Bytes>, rest: Bytes)
    requires words != [] && AllPlain(words)
    ensures var b := Joined(words) + [CR, LF] + rest;
            var n := FindCrlf(b);
            n + 2 <= |b| && Tokens(b[..n]) == words && b[n + 2..] == rest
  {
    JoinedHasNoCr(words);
    PlainWords(words);
    TokensOfWords(words);
    hide FindCrlf, Tokens, Joined, Plain;
    var line := Joined(words);
    NoCrlf(line);
    CrlfAfterLine(line, rest);
    assert (line + [CR, LF] + rest)[..|line|] == line && (line + [CR, LF] + rest)[|line| + 2..] == rest;
  }

  lemma BlockIsRead(item: Item, withCas: bool, rest: Bytes)
    requires EndsWithCrlf(item.value) && Plain(item.key) && Fits(item)
    ensures |item.value| >= 2
    ensures ReadReply(Output(item, withCas) + rest, withCas)
            == match ReadReply(rest, withCas)
               case None => None
               case Some(more) => Some([ShownOf(item, withCas)] + more)
  {
    hide Output, Tokens, FindCrlf, Joined, Decimal, ReadNumber, Plain, EndsWithCrlf, Fits;
    PayloadAndCrlf(item.value);
    OutputIs(item, withCas);
    HeadIsPlain(item, withCas);
    var words, len := HeadWords(item, withCas), |item.value| - 2;
    var after := item.value + rest;
    assert Output(item, withCas) + rest == Joined(words) + [CR, LF] + after;
    LineThen(words, after);
    assert after[..len] == Payload(item.value) && after[len..len + 2] == [CR, LF] && after[len + 2..] == rest;
    assert words[0] == VALUE && words[1] == item.key && words[2] == Decimal(item.flags) && words[3] == Decimal(len);
    assert withCas ==> words[4] == Decimal(item.cas);
  }

  lemma EndIsRead(withCas: bool)
    ensures ReadReply(Ascii("END\r\n"), withCas) == Some([])
  {
    ValueWord();
    hide Tokens, FindCrlf, Plain, Ascii;
    JoinedWords([END]);
    hide Joined;
    LineThen([END], []);
    assert Ascii("END\r\n") == Joined([END]) + [CR, LF] + [];
  }

  /** What `get` writes. */
  function Written(store: Store, keys: seq<Bytes>, withCas: bool): Bytes {
    if keys == [] then Ascii("END\r\n")
    else (if keys[0] in store.items then Output(store.items[keys[0]], withCas) else [])
         + Written(store, keys[1..], withCas)
  }

  lemma {:induction false} GetWrites(s: Session, keys: seq<Bytes>, withCas: bool)
    requires AllShort(keys) && s.open
    ensures DoGet(s, keys, withCas)
        == s.(sent := s.sent + (s.outputBuf + Written(s.store, keys, withCas)), outputBuf := [])
    decreases |keys|
  {
    hide Output, Ascii;
    if keys != [] {
      var found := if keys[0] in s.store.items then Output(s.store.items[keys[0]], withCas) else [];
      assert AllShort(keys[1..]) by {
        assert forall i :: 0 <= i < |keys| - 1 ==> keys[1..][i] == keys[i + 1];
      }
      GetWrites(s.(outputBuf := s.outputBuf + found), keys[1..], withCas);
      assert s.outputBuf + found + Written(s.store, keys[1..], withCas)
          == s.outputBuf + (found + Written(s.store, keys[1..], withCas));
    }
  }

  /** The client reads exactly the items that were found. */
  lemma {:induction false} WrittenIsRead(store: Store, keys: seq<Bytes>, withCas: bool)
    requires Inv(store) && AllPlain(keys) && forall k :: k in store.items ==> Fits(store.items[k])
    ensures ReadReply(Written(store, keys, withCas), withCas) == Some(FoundIn(store, keys, withCas))
    decreases |keys|
  {
    hide Output, Ascii, ReadReply, Plain, Fits, EndsWithCrlf, Inv;
    if keys == [] {
      EndIsRead(withCas);
    } else {
      assert AllPlain(keys[1..]) && Plain(keys[0]);
      WrittenIsRead(store, keys[1..], withCas);
      if keys[0] in store.items {
        HasItem(store, keys[0]);
        BlockIsRead(store.items[keys[0]], withCas, Written(store, keys[1..], withCas));
      } else {
        assert [] + Written(store, keys[1..], withCas) == Written(store, keys[1..], withCas);
        assert [] + FoundIn(store, keys[1..], withCas) == FoundIn(store, keys[1..], withCas);
      }
    }
  }

  /** `get` and `gets`: the store is left alone, and the client reads one block for every key that is there. */
  lemma GetIsServed(s: Session, keys: seq<Bytes>, withCas: bool)
    requires Ready(s) && s.open && s.outputBuf == [] && AllPlain(keys) && AllShort(keys)
    requires keys != [] ==> keys[|keys| - 1] != Ascii("noreply")
    requires Inv(s.store) && forall k :: k in s.store.items ==> Fits(s.store.items[k])
    ensures var (t, rest) := Handled(s, LineOf([if withCas then GETS else GET] + keys, false) + [CR, LF]);
            && rest == [] && Ready(t) && t.store == s.store && t.outputBuf == [] && t.open
            && s.sent <= t.sent
            && ReadReply(t.sent[|s.sent|..], withCas) == Some(FoundIn(s.store, keys, withCas))
  {
    hide Ascii, Execute, Handled, LineOf, ReadReply, FoundIn, Written, DoGet, Plain, Inv, Fits, AllShort;
    var words := [if withCas then GETS else GET] + keys;
    NoStorageWord(words[0]);
    assert words[1..] == keys;
    var u := Asked(s, words, false);
    Dispatch(u, words);
    GetWrites(u, keys, withCas);
    WrittenIsRead(s.store, keys, withCas);
    WordsAreServed(s, words, false, DoGet(u, keys, withCas));
    assert [] + Written(s.store, keys, withCas) == Written(s.store, keys, withCas);
    assert (s.sent + Written(s.store, keys, withCas))[|s.sent|..] == Written(s.store, keys, withCas);
  }
}
