/** The timing wheel of examples/idleconnection/echo.cc: a ring of buckets that share entries; an entry dies with the
    last bucket that holds it, and then shuts its connection down. */
module IdleConnections {
  import opened Machines

  type Conn = nat

  // The wheel.

  /** `buckets` from the oldest to the newest; `live` are the connections whose objects still exist; every tick adds
      to `shutdowns` the set of connections it shut down. */
  datatype Wheel = Wheel(buckets: seq<set<Conn>>, live: set<Conn>, shutdowns: seq<set<Conn>>)

  datatype Step = Connect(c: Conn) | Message(c: Conn) | Disconnect(c: Conn) | Tick

  predicate Exists(buckets: seq<set<Conn>>, c: Conn) {
    exists i :: 0 <= i < |buckets| && c in buckets[i]
  }

  /** An insertion into the newest bucket. */
  function Inserted(buckets: seq<set<Conn>>, c: Conn): seq<set<Conn>>
    requires buckets != []
  {
    buckets[|buckets| - 1 := buckets[|buckets| - 1] + {c}]
  }

  /** `push_back` of an empty bucket on the full ring: the oldest goes. */
  function Turned(buckets: seq<set<Conn>>): seq<set<Conn>>
    requires buckets != []
  {
    buckets[1..] + [{}]
  }

  /** The entries that no bucket holds any more after a turn. */
  function Dying(buckets: seq<set<Conn>>): set<Conn>
    requires buckets != []
  {
    set c | c in buckets[0] && !Exists(Turned(buckets), c)
  }

  function ApplyWheel(w: Wheel, step: Step): Wheel
    requires w.buckets != []
  {
    match step
    case Connect(c) => w.(buckets := Inserted(w.buckets, c), live := w.live + {c})
    case Message(c) => if Exists(w.buckets, c) then w.(buckets := Inserted(w.buckets, c)) else w
    case Disconnect(c) => w.(live := w.live - {c})
    case Tick => w.(buckets := Turned(w.buckets), shutdowns := w.shutdowns + [Dying(w.buckets) * w.live])
  }

  // The specification: a counter for every connection.

  /** How many ticks have passed since the last activity of a connection; `None` once it was too many. */
  datatype Counters = Counters(n: nat, ticks: map<Conn, Option<nat>>, live: set<Conn>, shutdowns: seq<set<Conn>>)

  function Later(n: nat, k: Option<nat>): Option<nat> {
    if k.Some? && k.value + 1 < n then Some(k.value + 1) else None
  }

  /** The live connections for which the next tick is the `n`-th. */
  function Idle(p: Counters): set<Conn> {
    set c | c in p.ticks && c in p.live && p.ticks[c] == Some(p.n - 1)
  }

  function Apply(p: Counters, step: Step): Counters {
    match step
    case Connect(c) => p.(ticks := p.ticks[c := Some(0)], live := p.live + {c})
    case Message(c) => if c in p.ticks && p.ticks[c].Some? then p.(ticks := p.ticks[c := Some(0)]) else p
    case Disconnect(c) => p.(live := p.live - {c})
    case Tick =>
      p.(ticks := map c | c in p.ticks :: Later(p.n, p.ticks[c]),
         shutdowns := p.shutdowns + [Idle(p)])
  }

  /** A connection connects once; only a live one sends or goes down. */
  predicate Enabled(p: Counters, step: Step) {
    match step
    case Connect(c) => c !in p.ticks
    case Message(c) => c in p.live
    case Disconnect(c) => c in p.live
    case Tick => true
  }

  /** The newest bucket that holds the entry tells how long ago the last activity was. */
  predicate Placed(w: Wheel, c: Conn, k: nat) {
    var last := |w.buckets| - 1 - k;
    0 <= last && c in w.buckets[last] && forall j :: last < j < |w.buckets| ==> c !in w.buckets[j]
  }

  predicate PlacedAs(w: Wheel, p: Counters, c: Conn)
    requires c in p.ticks
  {
    if p.ticks[c].Some? then Placed(w, c, p.ticks[c].value) else !Exists(w.buckets, c)
  }

  ghost predicate Represents(w: Wheel, p: Counters) {
    && |w.buckets| == p.n > 0 && w.live == p.live && w.shutdowns == p.shutdowns
    && (forall c :: c in p.ticks ==> PlacedAs(w, p, c))
    && (forall c :: Exists(w.buckets, c) ==> c in p.ticks)
  }

  /** The entry of a connection exists exactly while fewer than `n` ticks have passed since its last activity. */
  lemma EntryExistsWhileCounting(w: Wheel, p: Counters, c: Conn)
    requires Represents(w, p) && c in p.ticks
    ensures Exists(w.buckets, c) <==> p.ticks[c].Some?
    ensures p.ticks[c].Some? ==> p.ticks[c].value < p.n
  {
    assert PlacedAs(w, p, c);
  }

  lemma InsertKeeps(w: Wheel, p: Counters, c: Conn)
    requires Represents(w, p)
    ensures Represents(w.(buckets := Inserted(w.buckets, c)), p.(ticks := p.ticks[c := Some(0)]))
  {
    var x, q := w.(buckets := Inserted(w.buckets, c)), p.(ticks := p.ticks[c := Some(0)]);
    forall d | d in q.ticks
      ensures PlacedAs(x, q, d)
    {
      if d != c {
        assert PlacedAs(w, p, d);
        assert Exists(x.buckets, d) ==> Exists(w.buckets, d);
      }
    }
    forall d | Exists(x.buckets, d)
      ensures d in q.ticks
    {
      assert d != c ==> Exists(w.buckets, d);
    }
  }

  lemma TurnedAt(buckets: seq<set<Conn>>, j: nat)
    requires j < |buckets|
    ensures Turned(buckets)[j] == if j + 1 < |buckets| then buckets[j + 1] else {}
  {
  }

  lemma TurnKeeps(w: Wheel, p: Counters, c: Conn)
    requires Represents(w, p) && c in p.ticks
    ensures PlacedAs(w.(buckets := Turned(w.buckets)), p.(ticks := map[c := Later(p.n, p.ticks[c])]), c)
    ensures c in Dying(w.buckets) <==> p.ticks[c] == Some(p.n - 1)
  {
    assert PlacedAs(w, p, c);
    var t := Turned(w.buckets);
    if p.ticks[c].Some? {
      var k := p.ticks[c].value;
      var last := p.n - 1 - k;
      if k + 1 < p.n {
        TurnedAt(w.buckets, last - 1);
        assert c in t[last - 1];
      } else {
        assert last == 0;
      }
    }
  }

  /** The wheel does what the counters do. */
  lemma StepRefines(w: Wheel, p: Counters, step: Step)
    requires Represents(w, p) && Enabled(p, step)
    ensures Represents(ApplyWheel(w, step), Apply(p, step))
  {
    match step {
      case Connect(c) => InsertKeeps(w, p, c);
      case Message(c) =>
        if Exists(w.buckets, c) {
          EntryExistsWhileCounting(w, p, c);
          InsertKeeps(w, p, c);
        } else if c in p.ticks {
          EntryExistsWhileCounting(w, p, c);
        }
      case Disconnect(c) =>
        LiveIsApart(w, p, p.live - {c});
      case Tick => TickRefines(w, p);
    }
  }

  lemma LiveIsApart(w: Wheel, p: Counters, live: set<Conn>)
    requires Represents(w, p)
    ensures Represents(w.(live := live), p.(live := live))
  {
    var x, q := w.(live := live), p.(live := live);
    assert x.buckets == w.buckets && q.ticks == p.ticks;
    forall c | c in q.ticks
      ensures PlacedAs(x, q, c)
    {
      assert PlacedAs(w, p, c);
    }
    forall c | Exists(x.buckets, c)
      ensures c in q.ticks
    {
      assert Exists(w.buckets, c);
    }
  }

  lemma TickRefines(w: Wheel, p: Counters)
    requires Represents(w, p)
    ensures Represents(ApplyWheel(w, Tick), Apply(p, Tick))
  {
    var x, q := ApplyWheel(w, Tick), Apply(p, Tick);
    forall c | c in q.ticks
      ensures PlacedAs(x, q, c)
    {
      TurnKeeps(w, p, c);
    }
    forall c | Exists(x.buckets, c)
      ensures c in q.ticks
    {
      var j :| 0 <= j < |x.buckets| && c in x.buckets[j];
      TurnedAt(w.buckets, j);
      assert c in w.buckets[j + 1];
    }
    forall c
      ensures c in Dying(w.buckets) * w.live <==> c in p.ticks && c in p.live && p.ticks[c] == Some(p.n - 1)
    {
      if c in p.ticks {
        TurnKeeps(w, p, c);
      } else {
        assert c in w.buckets[0] ==> Exists(w.buckets, c);
      }
    }
    assert Dying(w.buckets) * w.live == Idle(p);
  }

  // Runs.

  datatype Both = Both(w: Wheel, p: Counters)

  function Start(n: nat): Both {
    Both(Wheel(seq(n, _ => {}), {}, []), Counters(n, map[], {}, []))
  }

  function Next(b: Both, step: Step): Option<Both> {
    if b.w.buckets != [] && Enabled(b.p, step) then Some(Both(ApplyWheel(b.w, step), Apply(b.p, step))) else None
  }

  /** How often a connection was shut down. */
  function Shutdowns(s: seq<set<Conn>>, c: Conn): nat {
    if s == [] then 0 else Shutdowns(s[..|s| - 1], c) + if c in s[|s| - 1] then 1 else 0
  }

  /** A connection that is counted has not been shut down; no connection is shut down twice. */
  predicate OnceAt(p: Counters, c: Conn) {
    if c in p.ticks && p.ticks[c].None? then Shutdowns(p.shutdowns, c) <= 1 else Shutdowns(p.shutdowns, c) == 0
  }

  ghost predicate Inv(b: Both) {
    && Represents(b.w, b.p)
    && (forall c :: OnceAt(b.p, c))
    && (forall c :: c in b.p.live ==> c in b.p.ticks)
  }

  lemma StepKeeps(b: Both, step: Step)
    requires Inv(b) && Next(b, step).Some?
    ensures Inv(Next(b, step).value)
  {
    StepRefines(b.w, b.p, step);
    hide Represents, ApplyWheel;
    var p, q := b.p, Apply(b.p, step);
    forall c
      ensures OnceAt(q, c)
    {
      assert OnceAt(p, c);
      if step.Tick? {
        assert q.shutdowns[..|p.shutdowns|] == p.shutdowns;
      }
    }
  }

  lemma StartInv(n: nat)
    requires n > 0
    ensures Inv(Start(n))
  {
    forall c
      ensures OnceAt(Start(n).p, c)
    {
    }
  }

  lemma EveryRunKeeps(n: nat, steps: seq<Step>)
    requires n > 0 && Run(Next, Start(n), steps).Some?
    ensures Inv(Run(Next, Start(n), steps).value)
  {
    hide Run, Inv, Next;
    forall b, step | Inv(b) && Next(b, step).Some?
      ensures Inv(Next(b, step).value)
    {
      StepKeeps(b, step);
    }
    StartInv(n);
    KeptByRuns(Next, Inv, Start(n), steps);
  }

  /** Over every run the wheel and the counters agree, and no connection is shut down more than once. */
  lemma EveryRunAgrees(n: nat, steps: seq<Step>)
    requires n > 0 && Run(Next, Start(n), steps).Some?
    ensures var b := Run(Next, Start(n), steps).value;
            Represents(b.w, b.p) && b.w.shutdowns == b.p.shutdowns && forall c :: Shutdowns(b.w.shutdowns, c) <= 1
  {
    EveryRunKeeps(n, steps);
    AtMostOnce(Run(Next, Start(n), steps).value);
  }

  lemma AtMostOnce(b: Both)
    requires Inv(b)
    ensures Represents(b.w, b.p) && b.w.shutdowns == b.p.shutdowns && forall c :: Shutdowns(b.w.shutdowns, c) <= 1
  {
    forall c
      ensures Shutdowns(b.w.shutdowns, c) <= 1
    {
      assert OnceAt(b.p, c);
    }
  }

  // Silence.

  function Ticks(steps: seq<Step>): nat {
    if steps == [] then 0 else Ticks(steps[..|steps| - 1]) + if steps[|steps| - 1].Tick? then 1 else 0
  }

  predicate Silent(steps: seq<Step>, c: Conn) {
    forall i :: 0 <= i < |steps| ==> steps[i] != Message(c) && steps[i] != Connect(c) && steps[i] != Disconnect(c)
  }

  /** What a silent connection's counter shows, and how often it was shut down. */
  lemma {:induction false} SilenceIsCounted(b: Both, steps: seq<Step>, c: Conn)
    requires Inv(b) && c in b.p.live && c in b.p.ticks && b.p.ticks[c] == Some(0)
    requires Silent(steps, c) && Run(Next, b, steps).Some?
    ensures var z := Run(Next, b, steps).value;
            && Inv(z) && z.p.n == b.p.n && c in z.p.live && c in z.p.ticks
            && z.p.ticks[c] == (if Ticks(steps) < b.p.n then Some(Ticks(steps)) else None)
            && Shutdowns(z.p.shutdowns, c) == (if Ticks(steps) < b.p.n then 0 else 1)
  {
    hide Inv, Next, Shutdowns, Apply;
    CountersCount(b, c);
    if steps != [] {
      var init, last := steps[..|steps| - 1], steps[|steps| - 1];
      assert steps == init + [last];
      if Run(Next, b, init).None? {
        StuckStaysStuck(Next, b, init, [last]);
      }
      SilenceIsCounted(b, init, c);
      StepAfterRun(Next, b, init, last);
      var y := Run(Next, b, init).value;
      StepKeeps(y, last);
      NextCounts(y, last);
      assert steps[|steps| - 1] == last;
      SilentStep(y.p, last, c);
    }
  }

  lemma CountersCount(b: Both, c: Conn)
    requires Inv(b)
    ensures b.p.n > 0 && b.w.shutdowns == b.p.shutdowns
    ensures c in b.p.ticks && b.p.ticks[c].Some? ==> Shutdowns(b.p.shutdowns, c) == 0
  {
    assert OnceAt(b.p, c);
  }

  lemma NextCounts(b: Both, step: Step)
    requires Next(b, step).Some?
    ensures Next(b, step).value.p == Apply(b.p, step)
  {
  }

  lemma SilentStep(p: Counters, step: Step, c: Conn)
    requires c in p.ticks && c in p.live && step != Message(c) && step != Connect(c) && step != Disconnect(c)
    ensures var q := Apply(p, step);
            && q.n == p.n && c in q.live && c in q.ticks
            && q.ticks[c] == (if step.Tick? then Later(p.n, p.ticks[c]) else p.ticks[c])
            && Shutdowns(q.shutdowns, c)
               == Shutdowns(p.shutdowns, c) + if step.Tick? && p.ticks[c] == Some(p.n - 1) then 1 else 0
  {
    if step.Tick? {
      assert Apply(p, step).shutdowns[..|p.shutdowns|] == p.shutdowns;
    }
  }

  /** It connects, or it sends while it has an entry. */
  predicate Active(w: Wheel, step: Step, c: Conn) {
    step == Connect(c) || (step == Message(c) && Exists(w.buckets, c))
  }

  /** In every run of the wheel: a connection that falls silent has an entry until the `n`-th tick after its last
      activity; on that tick, and on no other, it is shut down. */
  lemma SilentConnections(n: nat, before: seq<Step>, last: Step, steps: seq<Step>, c: Conn)
    requires n > 0 && Run(Next, Start(n), before).Some? && Run(Next, Start(n), before + [last] + steps).Some?
    requires Active(Run(Next, Start(n), before).value.w, last, c) && Silent(steps, c)
    ensures var w := Run(Next, Start(n), before + [last] + steps).value.w;
            && (Exists(w.buckets, c) <==> Ticks(steps) < n)
            && Shutdowns(w.shutdowns, c) == (if Ticks(steps) < n then 0 else 1)
  {
    hide Run, Inv, Exists, Silent;
    EveryRunKeeps(n, before);
    var b := Run(Next, Start(n), before).value;
    if Run(Next, Start(n), before + [last]).None? {
      StuckStaysStuck(Next, Start(n), before + [last], steps);
    }
    StepAfterRun(Next, Start(n), before, last);
    StepKeeps(b, last);
    var d := Next(b, last).value;
    BeginsAtZero(b, last, c);
    RunsCompose(Next, Start(n), before + [last], steps);
    SilenceIsCounted(d, steps, c);
    SizeStays(n, before, last);
    var z := Run(Next, d, steps).value;
    CountersCount(z, c);
    EntryShows(z, c);
  }

  lemma BeginsAtZero(b: Both, step: Step, c: Conn)
    requires Inv(b) && Active(b.w, step, c) && Next(b, step).Some?
    ensures var d := Next(b, step).value; c in d.p.live && c in d.p.ticks && d.p.ticks[c] == Some(0)
  {
    if step.Message? {
      EntryExistsWhileCounting(b.w, b.p, c);
    }
  }

  lemma EntryShows(b: Both, c: Conn)
    requires Inv(b) && c in b.p.live
    ensures c in b.p.ticks && (Exists(b.w.buckets, c) <==> b.p.ticks[c].Some?)
  {
    EntryExistsWhileCounting(b.w, b.p, c);
  }

  /** The number of buckets does not change. */
  lemma SizeStays(n: nat, before: seq<Step>, last: Step)
    requires Run(Next, Start(n), before + [last]).Some?
    ensures Run(Next, Start(n), before + [last]).value.p.n == n
  {
    hide Run;
    var same := (b: Both) => b.p.n == n;
    KeptByRuns(Next, same, Start(n), before + [last]);
  }

  // A connection that went down by itself.

  predicate Gone(p: Counters, c: Conn, k: nat) {
    c in p.ticks && c !in p.live && Shutdowns(p.shutdowns, c) == k
  }

  lemma GoneStays(p: Counters, step: Step, c: Conn, k: nat)
    requires Gone(p, c, k) && Enabled(p, step)
    ensures Gone(Apply(p, step), c, k)
  {
    if step.Tick? {
      assert Apply(p, step).shutdowns[..|p.shutdowns|] == p.shutdowns;
    }
  }

  lemma DisconnectTakesOut(b: Both, c: Conn)
    requires Inv(b) && Next(b, Disconnect(c)).Some?
    ensures Gone(Next(b, Disconnect(c)).value.p, c, Shutdowns(b.w.shutdowns, c))
  {
  }

  /** In every run of the wheel: a connection that went down is not shut down any more, although its entry is still in
      the buckets. */
  lemma GoneIsLeftAlone(n: nat, before: seq<Step>, steps: seq<Step>, c: Conn)
    requires n > 0 && Run(Next, Start(n), before).Some? && Run(Next, Start(n), before + [Disconnect(c)] + steps).Some?
    ensures var w, z := Run(Next, Start(n), before).value.w,
                        Run(Next, Start(n), before + [Disconnect(c)] + steps).value.w;
            Shutdowns(z.shutdowns, c) == Shutdowns(w.shutdowns, c)
  {
    hide Run, Inv, Gone, Enabled, Apply, Shutdowns;
    EveryRunKeeps(n, before);
    EveryRunAgrees(n, before + [Disconnect(c)] + steps);
    var b := Run(Next, Start(n), before).value;
    if Run(Next, Start(n), before + [Disconnect(c)]).None? {
      StuckStaysStuck(Next, Start(n), before + [Disconnect(c)], steps);
    }
    StepAfterRun(Next, Start(n), before, Disconnect(c));
    RunsCompose(Next, Start(n), before + [Disconnect(c)], steps);
    DisconnectTakesOut(b, c);
    var k := Shutdowns(b.w.shutdowns, c);
    var gone := (x: Both) => Gone(x.p, c, k);
    forall x, step | gone(x) && Next(x, step).Some?
      ensures gone(Next(x, step).value)
    {
      GoneStays(x.p, step, c, k);
    }
    var d := Next(b, Disconnect(c)).value;
    KeptByRuns(Next, gone, d, steps);
    GoneCounts(Run(Next, d, steps).value.p, c, k);
  }

  lemma GoneCounts(p: Counters, c: Conn, k: nat)
    requires Gone(p, c, k)
    ensures Shutdowns(p.shutdowns, c) == k
  {
  }

  /** The server. */
  class EchoServer {
    var connectionBuckets: seq<set<Conn>>
    ghost var live: set<Conn>
    var shutdowns: seq<set<Conn>>

    ghost function Now(): Wheel
      reads this
    {
      Wheel(connectionBuckets, live, shutdowns)
    }

    constructor (idleSeconds: nat)
      requires idleSeconds > 0
      ensures Now() == Start(idleSeconds).w
    {
      connectionBuckets, live, shutdowns := seq(idleSeconds, _ => {}), {}, [];
    }

    method OnConnection(c: Conn, connected: bool)
      requires connectionBuckets != []
      modifies this
      ensures Now() == ApplyWheel(old(Now()), if connected then Connect(c) else Disconnect(c))
    {
      if connected {
        connectionBuckets := Inserted(connectionBuckets, c);
        live := live + {c};
      } else {
        live := live - {c};
      }
    }

    /** A weak pointer leads to the entry exactly while some bucket holds it. */
    method Lock(c: Conn) returns (found: bool)
      ensures found <==> Exists(connectionBuckets, c)
    {
      found := false;
      for i := 0 to |connectionBuckets|
        invariant found <==> exists k :: 0 <= k < i && c in connectionBuckets[k]
      {
        found := found || c in connectionBuckets[i];
      }
    }

    method OnMessage(c: Conn)
      requires connectionBuckets != []
      modifies this
      ensures Now() == ApplyWheel(old(Now()), Message(c))
    {
      var entry := Lock(c);
      if entry {
        connectionBuckets := Inserted(connectionBuckets, c);
      }
    }

    /** `onTimer`, with the destructors that it runs; `alive` are the connections that their weak pointers still
        reach. */
    method OnTimer(alive: set<Conn>)
      requires connectionBuckets != [] && alive == live
      modifies this
      ensures Now() == ApplyWheel(old(Now()), Tick)
    {
      var oldest := connectionBuckets[0];
      connectionBuckets := connectionBuckets[1..] + [{}];
      var down, left := {}, oldest;
      while left != {}
        invariant left <= oldest && Now() == old(Now()).(buckets := Turned(old(connectionBuckets)))
        invariant forall c :: c in down <==> c in oldest - left && c in alive && !Exists(connectionBuckets, c)
        decreases |left|
      {
        var c :| c in left;
        left := left - {c};
        var held := Lock(c);
        if !held && c in alive {
          down := down + {c};
        }
      }
      forall c
        ensures c in down <==> c in Dying(old(connectionBuckets)) * alive
      {
      }
      assert down == Dying(old(connectionBuckets)) * alive;
      shutdowns := shutdowns + [down];
    }
  }
}
