/** The timers of one event loop (muduo/net/TimerQueue.cc): a set ordered by expiration and a set for cancelling, over
    the same heap-allocated timers; expired batches whose callbacks may add and cancel timers; and the timerfd. */
module TimerQueues {
  import opened Machines

  type Addr = nat
  type Time = int

  /** A `Timer` object; `delta` is the interval in microseconds. */
  datatype Timer = Timer(expiration: Time, repeat: bool, delta: nat, sequence: nat)

  datatype Entry = Entry(when: Time, addr: Addr)

  datatype ActiveTimer = ActiveTimer(addr: Addr, sequence: nat)

  /** The last `timerfd_settime`: for which expiration, and at what time. */
  datatype Armed = Armed(when: Time, at: Time)

  /** A callback that was run, and in which expired batch. */
  datatype Call = Call(sequence: nat, batchNo: nat)

  /** `pending` are the timers made by `addTimer` that the loop has not inserted yet. `batch` is the expired batch
      at hand, of which `ran` callbacks were run. `cancelledIn` tells for a timer that was cancelled while it was
      inserted which batch was the last to begin by then. A failed assertion or a dangling pointer is `Crashed`. */
  datatype State = Crashed
    | State(heap: map<Addr, Timer>, pending: set<Addr>, timers: seq<Entry>, active: set<ActiveTimer>,
            calling: bool, canceling: set<ActiveTimer>, batch: seq<Entry>, ran: nat, readAt: Time,
            clock: Time, armed: Option<Armed>, created: nat, batchNo: nat,
            cancelledIn: map<nat, nat>, calls: seq<Call>)

  datatype Step =
    | Tick(clock: Time)
    | Create(addr: Addr, when: Time, repeat: bool, delta: nat)
    | Add(addr: Addr)
    | Cancel(id: ActiveTimer)
    | BeginRead
    | RunNext
    | EndRead

  function Initial(clock: Time): State {
    State(map[], {}, [], {}, false, {}, [], 0, clock, clock, None, 0, 0, map[], [])
  }

  // The ordered set.

  predicate Less(a: Entry, b: Entry) {
    a.when < b.when || (a.when == b.when && a.addr < b.addr)
  }

  predicate Sorted(ts: seq<Entry>) {
    forall i, j :: 0 <= i < j < |ts| ==> Less(ts[i], ts[j])
  }

  function LowerBound(ts: seq<Entry>, e: Entry): (n: nat)
    ensures n <= |ts| && (n < |ts| ==> !Less(ts[n], e))
    ensures forall i :: 0 <= i < n ==> Less(ts[i], e)
  {
    if ts == [] || !Less(ts[0], e) then 0 else 1 + LowerBound(ts[1..], e)
  }

  function Inserted(ts: seq<Entry>, e: Entry): seq<Entry> {
    var n := LowerBound(ts, e);
    ts[..n] + [e] + ts[n..]
  }

  function Removed(ts: seq<Entry>, e: Entry): seq<Entry>
    requires e in ts
  {
    var n := LowerBound(ts, e);
    if n < |ts| then ts[..n] + ts[n + 1..] else ts
  }

  /** `lower_bound` of the sentry, whose pointer is greater than every other. */
  function DueCount(ts: seq<Entry>, now: Time): (n: nat)
    ensures n <= |ts| && (n < |ts| ==> now < ts[n].when)
    ensures forall i :: 0 <= i < n ==> ts[i].when <= now
  {
    if ts == [] || now < ts[0].when then 0 else 1 + DueCount(ts[1..], now)
  }

  function Addrs(ts: seq<Entry>): set<Addr> {
    set e | e in ts :: e.addr
  }

  predicate NoTwice(ts: seq<Entry>) {
    forall i, j :: 0 <= i < j < |ts| ==> ts[i].addr != ts[j].addr
  }

  lemma AddrsConcat(a: seq<Entry>, b: seq<Entry>)
    ensures Addrs(a + b) == Addrs(a) + Addrs(b)
  {
    forall e | e in a + b
      ensures e in a || e in b
    {
    }
    forall e | e in a || e in b
      ensures e in a + b
    {
    }
  }

  lemma AddrsDisjoint(a: seq<Entry>, b: seq<Entry>)
    requires NoTwice(a + b)
    ensures Addrs(a) !! Addrs(b)
  {
    forall x, y | x in a && y in b
      ensures x.addr != y.addr
    {
      var i :| 0 <= i < |a| && a[i] == x;
      var j :| 0 <= j < |b| && b[j] == y;
      assert (a + b)[i] == x && (a + b)[|a| + j] == y;
    }
  }

  lemma InsertedSorted(ts: seq<Entry>, e: Entry)
    requires Sorted(ts) && e.addr !in Addrs(ts)
    ensures Sorted(Inserted(ts, e)) && Addrs(Inserted(ts, e)) == Addrs(ts) + {e.addr}
    ensures forall x :: x in Inserted(ts, e) <==> x in ts || x == e
    ensures Inserted(ts, e)[0] == if ts == [] || Less(e, ts[0]) then e else ts[0]
  {
    var n := LowerBound(ts, e);
    assert Addrs([e]) == {e.addr};
    hide Addrs, Sorted;
    assert ts == ts[..n] + ts[n..];
    AddrsConcat(ts[..n], ts[n..]);
    AddrsConcat(ts[..n], [e]);
    AddrsConcat(ts[..n] + [e], ts[n..]);
    InsertedInOrder(ts, e);
    InsertedMembers(ts, e);
  }

  lemma InsertedMembers(ts: seq<Entry>, e: Entry)
    ensures forall x :: x in Inserted(ts, e) <==> x in ts || x == e
  {
    var n := LowerBound(ts, e);
    forall x
      ensures x in Inserted(ts, e) <==> x in ts || x == e
    {
      assert ts == ts[..n] + ts[n..];
      assert x in ts <==> x in ts[..n] || x in ts[n..];
    }
  }

  lemma InsertedInOrder(ts: seq<Entry>, e: Entry)
    requires Sorted(ts) && e.addr !in Addrs(ts)
    ensures Sorted(Inserted(ts, e))
  {
    var n := LowerBound(ts, e);
    forall i | n <= i < |ts|
      ensures Less(e, ts[i])
    {
      assert ts[n] in ts && ts[n].addr in Addrs(ts);
      assert n < i ==> Less(ts[n], ts[i]);
    }
  }

  lemma RemovedAt(ts: seq<Entry>, e: Entry) returns (k: nat)
    requires Sorted(ts) && e in ts
    ensures k < |ts| && ts[k] == e && Removed(ts, e) == ts[..k] + ts[k + 1..]
    ensures ts == ts[..k] + [e] + ts[k + 1..]
  {
    k :| 0 <= k < |ts| && ts[k] == e;
    assert LowerBound(ts, e) == k;
  }

  lemma RemovedAddrs(a: seq<Entry>, e: Entry, b: seq<Entry>)
    requires NoTwice(a + [e] + b)
    ensures Addrs(a + b) == Addrs(a + [e] + b) - {e.addr}
  {
    assert Addrs([e]) == {e.addr};
    AddrsConcat(a, [e]);
    AddrsConcat(a + [e], b);
    AddrsConcat(a, b);
    AddrsDisjoint(a + [e], b);
    SortedNoTwiceHalf(a + [e], b);
    AddrsDisjoint(a, [e]);
    hide Addrs, NoTwice;
  }

  lemma RemovedInOrder(a: seq<Entry>, e: Entry, b: seq<Entry>)
    requires Sorted(a + [e] + b)
    ensures Sorted(a + b) && (a + b != [] ==> !Less((a + b)[0], (a + [e] + b)[0]))
  {
    var ts := a + [e] + b;
    forall i | 0 <= i < |a + b|
      ensures (a + b)[i] == ts[if i < |a| then i else i + 1]
    {
    }
  }

  lemma RemovedSorted(ts: seq<Entry>, e: Entry)
    requires Sorted(ts) && NoTwice(ts) && e in ts
    ensures Sorted(Removed(ts, e)) && Addrs(Removed(ts, e)) == Addrs(ts) - {e.addr}
    ensures forall x :: x in Removed(ts, e) ==> x in ts
    ensures Removed(ts, e) != [] ==> !Less(Removed(ts, e)[0], ts[0])
  {
    hide Sorted, NoTwice, Addrs, Removed;
    var k := RemovedAt(ts, e);
    RemovedAddrs(ts[..k], e, ts[k + 1..]);
    RemovedInOrder(ts[..k], e, ts[k + 1..]);
  }

  /** The due entries are exactly those that expire by now; the rest come after. */
  lemma DueExactly(ts: seq<Entry>, now: Time)
    requires Sorted(ts)
    ensures var n := DueCount(ts, now);
            && Sorted(ts[..n]) && Sorted(ts[n..]) && ts == ts[..n] + ts[n..]
            && (forall e :: e in ts[..n] <==> e in ts && e.when <= now)
            && (forall e :: e in ts[n..] <==> e in ts && e.when > now)
  {
    var n := DueCount(ts, now);
    assert ts == ts[..n] + ts[n..];
    forall i | n <= i < |ts| ensures ts[i].when > now {
      assert n < i ==> Less(ts[n], ts[i]);
    }
  }

  // The operations.

  function Deadline(a: Armed): Time {
    if a.when - a.at < 100 then a.at + 100 else a.when
  }

  /** `howMuchTimeFromNow`: seconds and nanoseconds. */
  function HowMuchTimeFromNow(when: Time, now: Time): (int, int) {
    var microseconds := if when - now < 100 then 100 else when - now;
    (microseconds / 1_000_000, microseconds % 1_000_000 * 1000)
  }

  lemma TimespecIsTheDeadline(a: Armed)
    ensures var (sec, nsec) := HowMuchTimeFromNow(a.when, a.at);
            0 <= nsec < 1_000_000_000 && a.at * 1000 + sec * 1_000_000_000 + nsec == Deadline(a) * 1000
  {
  }

  function Arm(s: State, when: Time): State
    requires s.State?
  {
    s.(armed := Some(Armed(when, s.clock)))
  }

  function EarliestChanged(s: State, when: Time): bool
    requires s.State?
  {
    s.timers == [] || when < s.timers[0].when
  }

  function Key(s: State, a: Addr): ActiveTimer
    requires s.State? && a in s.heap
  {
    ActiveTimer(a, s.heap[a].sequence)
  }

  /** `insert`, apart from its result. */
  function Insert(s: State, a: Addr): State
    requires s.State? && a in s.heap
  {
    var e := Entry(s.heap[a].expiration, a);
    if e in s.timers || Key(s, a) in s.active then Crashed
    else s.(timers := Inserted(s.timers, e), active := s.active + {Key(s, a)})
  }

  function AddTimer(s: State, a: Addr): State
    requires s.State? && a in s.heap
  {
    var t := Insert(s, a);
    if t.State? && EarliestChanged(s, s.heap[a].expiration) then Arm(t, s.heap[a].expiration) else t
  }

  predicate IsInserted(s: State, id: ActiveTimer)
    requires s.State?
  {
    id.addr in s.heap && s.heap[id.addr].sequence == id.sequence && id.addr in Addrs(s.timers) + Addrs(s.batch)
  }

  function CancelTimer(s: State, id: ActiveTimer): State
    requires s.State?
  {
    var t := if IsInserted(s, id) then s.(cancelledIn := s.cancelledIn[id.sequence := s.batchNo]) else s;
    if id in s.active then
      if id.addr !in s.heap then Crashed
      else
        var e := Entry(s.heap[id.addr].expiration, id.addr);
        if e !in s.timers then Crashed
        else t.(timers := Removed(s.timers, e), heap := s.heap - {id.addr}, active := s.active - {id})
    else if s.calling then t.(canceling := s.canceling + {id})
    else t
  }

  /** `getExpired` takes the keys of the expired entries out of the active set one by one. */
  function Deactivated(s: State, expired: seq<Entry>): State
    requires s.State?
    decreases |expired|
  {
    if expired == [] then s
    else
      var a := expired[0].addr;
      if a !in s.heap || Key(s, a) !in s.active then Crashed
      else Deactivated(s.(active := s.active - {Key(s, a)}), expired[1..])
  }

  /** The first half of `handleRead`: a one-shot timer that has fired is not armed any more. */
  function Begin(s: State): State
    requires s.State?
  {
    var n := DueCount(s.timers, s.clock);
    var t := Deactivated(s.(timers := s.timers[n..]), s.timers[..n]);
    if t.Crashed? then Crashed
    else t.(batch := s.timers[..n], ran := 0, readAt := s.clock, calling := true, canceling := {},
        batchNo := s.batchNo + 1,
            armed := if s.armed.Some? && Deadline(s.armed.value) <= s.clock then None else s.armed)
  }

  /** One round of the loop in `reset`: the timer is restarted and inserted again, or deleted. */
  function ResetOne(s: State): State
    requires s.State? && s.batch != []
  {
    var a, t := s.batch[0].addr, s.(batch := s.batch[1..]);
    if a !in s.heap then Crashed
    else if s.heap[a].repeat && Key(s, a) !in s.canceling then
      Insert(t.(heap := t.heap[a := s.heap[a].(expiration := s.readAt + s.heap[a].delta)]), a)
    else t.(heap := t.heap - {a})
  }

  lemma DeactivatedKeepsTheRest(s: State, expired: seq<Entry>)
    requires s.State?
    ensures var t := Deactivated(s, expired); t.State? ==> t == s.(active := t.active)
    decreases |expired|
  {
    if expired != [] {
      var a := expired[0].addr;
      if a in s.heap && Key(s, a) in s.active {
        DeactivatedKeepsTheRest(s.(active := s.active - {Key(s, a)}), expired[1..]);
      }
    }
  }

  function Reset(s: State): State
    requires s.State?
    decreases |s.batch|
  {
    if s.batch == [] then
      if s.timers != [] && s.timers[0].when > 0 then Arm(s, s.timers[0].when) else s
    else
      var t := ResetOne(s);
      if t.Crashed? then Crashed else assert t.batch == s.batch[1..]; Reset(t)
  }

  predicate Enabled(s: State, step: Step)
    requires s.State?
  {
    match step
    case Tick(clock) => clock >= s.clock
    case Create(addr, when, repeat, delta) => addr !in s.heap
    case Add(addr) => addr in s.pending
    case Cancel(id) => true
    case BeginRead => !s.calling
    case RunNext => s.calling && s.ran < |s.batch|
    case EndRead => s.calling && s.ran == |s.batch|
  }

  function Apply(s: State, step: Step): State
    requires s.State? && Enabled(s, step)
  {
    match step
    case Tick(clock) => s.(clock := clock)
    case Create(addr, when, repeat, delta) =>
      s.(heap := s.heap[addr := Timer(when, repeat, delta, s.created)], pending := s.pending + {addr},
          created := s.created + 1)
    case Add(addr) => if addr !in s.heap then Crashed else AddTimer(s.(pending := s.pending - {addr}), addr)
    case Cancel(id) => CancelTimer(s, id)
    case BeginRead => Begin(s)
    case RunNext =>
      var a := s.batch[s.ran].addr;
      if a !in s.heap then Crashed
      else s.(ran := s.ran + 1, calls := s.calls + [Call(s.heap[a].sequence, s.batchNo)])
    case EndRead => Reset(s.(calling := false))
  }

  function Next(s: State, step: Step): Option<State> {
    if s.State? && Enabled(s, step) then Some(Apply(s, step)) else None
  }

  // What every step keeps.

  predicate Dated(heap: map<Addr, Timer>, ts: seq<Entry>) {
    forall e :: e in ts ==> e.addr in heap && heap[e.addr].expiration == e.when
  }

  /** Every timer, but for some, is in just one place: waiting to be inserted, in the ordered set, or in the batch. */
  predicate PlacedBut(s: State, loose: set<Addr>) {
    && s.State?
    && Sorted(s.timers) && NoTwice(s.batch)
    && Dated(s.heap, s.timers) && Dated(s.heap, s.batch)
    && s.heap.Keys == s.pending + Addrs(s.timers) + Addrs(s.batch) + loose
    && s.pending !! Addrs(s.timers) !! Addrs(s.batch) !! loose
  }

  predicate Placed(s: State) {
    PlacedBut(s, {})
  }

  /** The set for cancelling indexes the timers of the ordered set, no more and no less. */
  ghost predicate Indexed(s: State) {
    && s.State?
    && forall k ::
        k in s.active <==> k.addr in s.heap && k.addr in Addrs(s.timers) && s.heap[k.addr].sequence == k.sequence
  }

  predicate Numbered(s: State) {
    && s.State?
    && (forall a :: a in s.heap ==> s.heap[a].sequence < s.created)
    && (forall a, b :: a in s.heap && b in s.heap && s.heap[a].sequence == s.heap[b].sequence ==> a == b)
    && (forall q :: q in s.cancelledIn ==> q < s.created)
    && (forall i :: 0 <= i < |s.calls| ==> s.calls[i].sequence < s.created && s.calls[i].batchNo <= s.batchNo)
  }

  /** A cancelled timer is in the ordered set no more, and in the batch only to be thrown away. */
  predicate Cancelled(s: State) {
    && s.State?
    && (forall a :: a in s.heap && s.heap[a].sequence in s.cancelledIn ==>
          a in Addrs(s.batch) && Key(s, a) in s.canceling && s.cancelledIn[s.heap[a].sequence] == s.batchNo)
    && (forall i ::
        0 <= i < |s.calls| && s.calls[i].sequence in s.cancelledIn
        ==> s.calls[i].batchNo <= s.cancelledIn[s.calls[i].sequence])
  }

  predicate ArmedFor(s: State, when: Time)
    requires s.State?
  {
    s.armed.Some? && s.armed.value.when <= when
  }

  /** What holds of the clock and the timerfd also while a batch is being dealt with. */
  predicate Watching(s: State) {
    && s.State?
    && s.clock > 0 && s.readAt > 0
    && (s.armed.Some? ==> s.armed.value.at <= s.clock)
    && (s.timers != [] && s.timers[0].when <= 0 ==> ArmedFor(s, s.timers[0].when))
  }

  /** A batch at hand is run in order; with none the timerfd is set for the earliest timer, or for an earlier time. */
  predicate Watched(s: State) {
    && s.State?
    && (if s.calling then s.ran <= |s.batch| else s.batch == [])
    && (!s.calling && s.timers != [] ==> ArmedFor(s, s.timers[0].when))
  }

  ghost predicate Core(s: State) {
    Placed(s) && Indexed(s) && Numbered(s) && Cancelled(s) && Watching(s)
  }

  ghost predicate Inv(s: State) {
    Core(s) && Watched(s)
  }

  // Inserting.

  /** The insertion of a timer that is in none of the places fails no assertion. */
  lemma InsertKeeps(s: State, a: Addr)
    requires PlacedBut(s, {a}) && Indexed(s)
    ensures var t, when := Insert(s, a), s.heap[a].expiration;
            && Placed(t) && Indexed(t) && t == s.(timers := t.timers, active := t.active)
            && t.timers != [] && t.timers[0].when == (if EarliestChanged(s, when) then when else s.timers[0].when)
            && Addrs(t.timers) == Addrs(s.timers) + {a}
  {
    var e := Entry(s.heap[a].expiration, a);
    forall x | x in s.timers
      ensures x.addr in Addrs(s.timers)
    {
    }
    InsertedSorted(s.timers, e);
  }

  lemma CoreButLoose(s: State, t: State, a: Addr)
    requires Core(s) && t.State? && PlacedBut(t, {a}) && Indexed(t)
    requires t.created == s.created && t.cancelledIn == s.cancelledIn && t.calls == s.calls && t.batchNo == s.batchNo
    requires t.canceling == s.canceling && t.clock == s.clock && t.readAt == s.readAt && t.armed == s.armed
        && t.timers == s.timers
    requires t.heap.Keys == s.heap.Keys && (forall b :: b in s.heap ==> t.heap[b].sequence == s.heap[b].sequence)
    requires s.heap[a].sequence !in s.cancelledIn
    requires forall b :: b in Addrs(s.batch) && b != a ==> b in Addrs(t.batch)
    ensures Numbered(t) && Cancelled(t) && Watching(t)
  {
    forall b | b in t.heap && t.heap[b].sequence in t.cancelledIn
      ensures b in Addrs(t.batch) && Key(t, b) in t.canceling && t.cancelledIn[t.heap[b].sequence] == t.batchNo
    {
      assert Key(t, b) == Key(s, b) && b in Addrs(s.batch) && b != a;
    }
  }

  lemma AddKeeps(s: State, a: Addr)
    requires Inv(s) && a in s.pending
    ensures a in s.heap && Inv(AddTimer(s.(pending := s.pending - {a}), a))
  {
    var t := s.(pending := s.pending - {a});
    assert a in s.heap;
    assert t.heap.Keys == t.pending + Addrs(t.timers) + Addrs(t.batch) + {a};
    InsertKeeps(t, a);
    assert s.heap[a].sequence !in s.cancelledIn;
    CoreButLoose(s, t, a);
    var u := Insert(t, a);
    InsertedIsCore(t, u, a);
  }

  lemma NumberedStill(t: State, u: State)
    requires Numbered(t) && Cancelled(t) && u.State? && u == t.(timers := u.timers, active := u.active)
    ensures Numbered(u) && Cancelled(u)
  {
    assert forall a :: a in t.heap ==> Key(u, a) == Key(t, a);
  }

  /** Once the loose timer is inserted, and the timerfd is set for it if it is the earliest, all is well again. */
  lemma InsertedIsCore(t: State, u: State, a: Addr)
    requires PlacedBut(t, {a}) && Numbered(t) && Cancelled(t) && Watching(t) && u == Insert(t, a)
    requires Placed(u) && Indexed(u) && u == t.(timers := u.timers, active := u.active)
    requires u.timers != []
        && u.timers[0].when == (if EarliestChanged(t, t.heap[a].expiration) then t.heap[a].expiration
            else t.timers[0].when)
    ensures t.heap[a].expiration > 0 ==> Core(u)
    ensures Core(if EarliestChanged(t, t.heap[a].expiration) then Arm(u, t.heap[a].expiration) else u)
    ensures Watched(t) ==> Watched(if EarliestChanged(t, t.heap[a].expiration) then Arm(u, t.heap[a].expiration) else u)
  {
    NumberedStill(t, u);
    ArmedStill(u, t.heap[a].expiration);
    hide Numbered, Cancelled, Placed, Indexed, PlacedBut, Insert;
  }

  /** Setting the timerfd changes no set. */
  lemma ArmedStill(u: State, when: Time)
    requires Placed(u) && Indexed(u) && Numbered(u) && Cancelled(u)
    ensures var v := Arm(u, when); Placed(v) && Indexed(v) && Numbered(v) && Cancelled(v)
  {
    assert forall a :: a in u.heap ==> Key(u, a) == Key(Arm(u, when), a);
  }

  // Cancelling.

  lemma CancelKeeps(s: State, id: ActiveTimer)
    requires Inv(s)
    ensures Inv(CancelTimer(s, id))
  {
    if id in s.active {
      CancelActive(s, id);
    } else {
      CancelInactive(s, id);
    }
  }

  lemma EntryOf(s: State, a: Addr)
    requires Placed(s) && a in Addrs(s.timers)
    ensures a in s.heap && Entry(s.heap[a].expiration, a) in s.timers
  {
    var e :| e in s.timers && e.addr == a;
  }

  lemma CancelTakes(s: State, id: ActiveTimer)
    requires Placed(s) && Indexed(s) && id in s.active
    ensures var z := CancelTimer(s, id);
            && z.State? && id.addr in s.heap && s.heap[id.addr].sequence == id.sequence && id.addr in Addrs(s.timers)
            && z == s.(timers := z.timers, heap := s.heap - {id.addr}, active := s.active - {id},
                cancelledIn := s.cancelledIn[id.sequence := s.batchNo])
            && Sorted(z.timers) && Addrs(z.timers) == Addrs(s.timers) - {id.addr}
            && (forall e :: e in z.timers ==> e in s.timers)
            && (z.timers != [] ==> s.timers != [] && z.timers[0].when >= s.timers[0].when)
  {
    EntryOf(s, id.addr);
    SortedNoTwice(s, s.timers);
    RemovedSorted(s.timers, Entry(s.heap[id.addr].expiration, id.addr));
    hide Sorted, NoTwice, Removed;
  }

  lemma CancelActive(s: State, id: ActiveTimer)
    requires Inv(s) && id in s.active
    ensures Inv(CancelTimer(s, id))
  {
    hide Sorted, NoTwice, Removed, CancelTimer, Numbered, Cancelled, IsInserted;
    var z := CancelTimer(s, id);
    CancelTakes(s, id);
    assert id.addr !in s.pending && Addrs(z.batch) == Addrs(s.batch) - {id.addr};
    Forgotten(s, z, id.addr);
  }

  /** The timer is gone from the heap, and from the ordered set or the batch. */
  lemma Forgotten(s: State, z: State, a: Addr)
    requires Core(s) && a in s.heap && z.State? && z.heap == s.heap - {a} && z.pending == s.pending && a !in s.pending
    requires Addrs(z.timers) == Addrs(s.timers) - {a} && Addrs(z.batch) == Addrs(s.batch) - {a} && Sorted(z.timers)
        && NoTwice(z.batch)
    requires (forall e :: e in z.timers ==> e in s.timers) && (forall e :: e in z.batch ==> e in s.batch)
    requires z.canceling == s.canceling && z.created == s.created && z.calls == s.calls && z.batchNo == s.batchNo
    requires z.cancelledIn == s.cancelledIn || z.cancelledIn == s.cancelledIn[s.heap[a].sequence := s.batchNo]
    ensures Placed(z) && Numbered(z) && Cancelled(z)
  {
    forall e | e in z.timers || e in z.batch
      ensures e.addr != a
    {
      assert e.addr in Addrs(z.timers) || e.addr in Addrs(z.batch);
    }
    forall b | b in z.heap && z.heap[b].sequence in z.cancelledIn
      ensures b in Addrs(z.batch) && Key(z, b) in z.canceling && z.cancelledIn[z.heap[b].sequence] == z.batchNo
    {
      assert b in s.heap && b != a && Key(z, b) == Key(s, b);
    }
  }

  lemma CancelInactive(s: State, id: ActiveTimer)
    requires Inv(s) && id !in s.active
    ensures Inv(CancelTimer(s, id))
  {
    var z := CancelTimer(s, id);
    assert IsInserted(s, id) ==> id.addr in Addrs(s.batch) && s.calling;
    forall b | b in z.heap && z.heap[b].sequence in z.cancelledIn
      ensures b in Addrs(z.batch) && Key(z, b) in z.canceling && z.cancelledIn[z.heap[b].sequence] == z.batchNo
    {
      assert Key(z, b) == Key(s, b);
      if IsInserted(s, id) && z.heap[b].sequence == id.sequence {
        assert b == id.addr;
      }
    }
    assert Placed(z) && Indexed(z) && Numbered(z);
  }

  /** Adding puts one entry into the ordered set and leaves everything else; the timerfd is set exactly when the new
      timer is the earliest. */
  lemma AddInserts(s: State, a: Addr)
    requires Inv(s) && a in s.pending
    ensures var z := Apply(s, Add(a));
            && a in s.heap && z.State? && z.heap == s.heap && z.batch == s.batch && z.pending == s.pending - {a}
            && var e := Entry(s.heap[a].expiration, a);
               && (forall x :: x in z.timers <==> x in s.timers || x == e)
               && z.armed == if forall x :: x in s.timers ==> e.when < x.when then Some(Armed(e.when, s.clock))
                   else s.armed
  {
    hide Inv, Inserted, Sorted;
    AddKeeps(s, a);
    EarliestIsFirst(s);
    InsertedMembers(s.timers, Entry(s.heap[a].expiration, a));
    StaysUp(s, a);
  }

  lemma StaysUp(s: State, a: Addr)
    requires Inv(s) && a in s.pending
    ensures a in s.heap && Inv(Apply(s, Add(a))) && Apply(s, Add(a)).State?
  {
    AddKeeps(s, a);
    hide AddTimer;
  }

  lemma EarliestIsFirst(s: State)
    requires Inv(s)
    ensures s.State? && Sorted(s.timers)
    ensures s.timers != [] ==> s.timers[0] in s.timers && forall x :: x in s.timers ==> s.timers[0].when <= x.when
  {
  }

  /** Cancelling a timer that is in the ordered set takes out its entry and the timer; cancelling any other leaves both
      sets, and is remembered while the callbacks run. The timerfd stays as it is. */
  lemma CancelRemoves(s: State, id: ActiveTimer)
    requires Inv(s)
    ensures var z := CancelTimer(s, id);
            && z.State? && z.batch == s.batch && z.pending == s.pending && z.armed == s.armed
            && if id.addr in s.heap && s.heap[id.addr].sequence == id.sequence && id.addr in Addrs(s.timers) then
                 && z.heap == s.heap - {id.addr} && z.canceling == s.canceling
                 && forall x :: x in z.timers <==> x in s.timers && x.addr != id.addr
               else
                 && z.heap == s.heap && z.timers == s.timers
                 && z.canceling == if s.calling then s.canceling + {id} else s.canceling
  {
    if id in s.active {
      CancelTakes(s, id);
      CancelLeavesOthers(s, id);
      hide CancelTimer;
      AddrsHold(s.timers);
      AddrsHold(CancelTimer(s, id).timers);
    }
  }

  lemma AddrsHold(ts: seq<Entry>)
    ensures forall x :: x in ts ==> x.addr in Addrs(ts)
  {
  }

  lemma CancelLeavesOthers(s: State, id: ActiveTimer)
    requires Inv(s) && id in s.active
    ensures var z := CancelTimer(s, id); z.State? && forall x :: x in s.timers && x.addr != id.addr ==> x in z.timers
  {
    CancelTakes(s, id);
    EntryOf(s, id.addr);
    var e := Entry(s.heap[id.addr].expiration, id.addr);
    var k := RemovedAt(s.timers, e);
    hide Sorted, Removed;
    assert s.timers == s.timers[..k] + [s.timers[k]] + s.timers[k + 1..];
  }

  // A batch.

  lemma {:induction false} DeactivatedExactly(s: State, expired: seq<Entry>)
    requires s.State? && NoTwice(expired)
    requires forall e :: e in expired ==> e.addr in s.heap && Key(s, e.addr) in s.active
    ensures var t := Deactivated(s, expired);
            && t.State? && t == s.(active := t.active)
            && forall k :: k in t.active <==> k in s.active && !(k.addr in Addrs(expired) && k == Key(s, k.addr))
    decreases |expired|
  {
    if expired != [] {
      var a, rest := expired[0].addr, expired[1..];
      assert expired[0] in expired;
      forall e | e in rest
        ensures e.addr in s.heap && Key(s, e.addr) in s.active && e.addr != a
      {
        assert e in expired;
      }
      assert NoTwice(rest);
      assert Addrs(expired) == Addrs(rest) + {a} by {
        assert expired == [expired[0]] + rest;
      }
      DeactivatedExactly(s.(active := s.active - {Key(s, a)}), rest);
    } else {
      assert Addrs(expired) == {};
    }
  }

  lemma SortedNoTwice(s: State, ts: seq<Entry>)
    requires s.State? && Sorted(ts) && Dated(s.heap, ts)
    ensures NoTwice(ts)
  {
    forall i, j | 0 <= i < j < |ts|
      ensures ts[i].addr != ts[j].addr
    {
      assert ts[i] in ts && ts[j] in ts && Less(ts[i], ts[j]);
    }
  }

  /** The entries that are due are active, and are taken out of both sets. */
  lemma BeginTakes(s: State)
    requires Inv(s) && !s.calling
    ensures var n, z := DueCount(s.timers, s.clock), Begin(s);
            && z.State? && z.batch == s.timers[..n] && z.timers == s.timers[n..]
            && forall k :: k in z.active <==> k in s.active && !(k.addr in Addrs(z.batch) && k == Key(s, k.addr))
  {
    var n := DueCount(s.timers, s.clock);
    var due, m := s.timers[..n], s.(timers := s.timers[n..]);
    SortedNoTwice(s, s.timers);
    forall e | e in due
      ensures e.addr in s.heap && Key(m, e.addr) in m.active
    {
      assert e in s.timers && e.addr in Addrs(s.timers);
      assert Key(m, e.addr) == Key(s, e.addr);
    }
    DeactivatedExactly(m, due);
  }

  lemma SortedNoTwiceHalf(a: seq<Entry>, b: seq<Entry>)
    requires NoTwice(a + b)
    ensures NoTwice(a)
  {
    forall i, j | 0 <= i < j < |a|
      ensures a[i].addr != a[j].addr
    {
      assert (a + b)[i] == a[i] && (a + b)[j] == a[j];
    }
  }

  lemma BeginPlaced(s: State, z: State)
    requires Inv(s) && !s.calling && z.State? && z.heap == s.heap && z.pending == s.pending
    requires s.timers == z.batch + z.timers && Sorted(z.timers) && Sorted(z.batch)
    ensures Placed(z) && Addrs(s.timers) == Addrs(z.timers) + Addrs(z.batch) && Addrs(z.timers) !! Addrs(z.batch)
  {
    hide Numbered, Cancelled, Indexed, Watching, Sorted;
    SortedNoTwice(s, s.timers);
    AddrsConcat(z.batch, z.timers);
    AddrsDisjoint(z.batch, z.timers);
    SortedNoTwiceHalf(z.batch, z.timers);
    assert Addrs(s.batch) == {};
    forall e | e in z.timers || e in z.batch
      ensures e in s.timers
    {
    }
  }

  lemma BeginWatches(s: State, z: State)
    requires Inv(s) && z.State? && z.clock == s.clock && z.readAt == s.clock && z.calling && z.ran == 0
        && (z.armed == s.armed || z.armed == None)
    requires forall e :: e in z.timers ==> e.when > s.clock
    ensures Watching(z) && Watched(z)
  {
    assert z.timers != [] ==> z.timers[0] in z.timers;
  }

  /** `getExpired` finds every expired timer active, and leaves the two sets with the same timers. */
  lemma BeginKeeps(s: State)
    requires Inv(s) && !s.calling
    ensures Inv(Begin(s))
    ensures Begin(s).batch + Begin(s).timers == s.timers
    ensures forall e :: e in Begin(s).batch <==> e in s.timers && e.when <= s.clock
  {
    var z := Begin(s);
    BeginTakes(s);
    BeginRest(s, z);
    DueExactly(s.timers, s.clock);
    hide Sorted, NoTwice, DueCount, Deactivated, Begin, Numbered, Cancelled, Indexed, Watched, Watching;
    BeginPlaced(s, z);
    BeginIndexed(s, z);
    BeginForgets(s, z);
    BeginWatches(s, z);
  }

  lemma BeginRest(s: State, z: State)
    requires s.State? && z == Begin(s) && z.State?
    ensures z == s.(timers := z.timers, active := z.active, batch := z.batch, ran := 0, readAt := s.clock,
        calling := true,
                    canceling := {}, batchNo := s.batchNo + 1, armed := z.armed)
    ensures z.armed == s.armed || z.armed == None
  {
    var n := DueCount(s.timers, s.clock);
    DeactivatedKeepsTheRest(s.(timers := s.timers[n..]), s.timers[..n]);
  }

  lemma BeginForgets(s: State, z: State)
    requires Inv(s) && !s.calling && z.State?
    requires z == s.(timers := z.timers, active := z.active, batch := z.batch, ran := 0, readAt := s.clock,
        calling := true,
                     canceling := {}, batchNo := s.batchNo + 1, armed := z.armed)
    ensures Numbered(z) && Cancelled(z)
  {
    assert Addrs(s.batch) == {};
    forall a | a in z.heap
      ensures z.heap[a].sequence !in z.cancelledIn
    {
      assert a !in Addrs(s.batch);
    }
  }

  lemma BeginIndexed(s: State, z: State)
    requires Indexed(s) && z.State? && z.heap == s.heap && Addrs(s.timers) == Addrs(z.timers) + Addrs(z.batch)
        && Addrs(z.timers) !! Addrs(z.batch)
    requires forall a :: a in Addrs(z.batch) ==> a in s.heap
    requires forall k :: k in z.active <==> k in s.active && !(k.addr in Addrs(z.batch) && k == Key(s, k.addr))
    ensures Indexed(z)
  {
    forall k
      ensures k in z.active <==> k.addr in z.heap && k.addr in Addrs(z.timers) && z.heap[k.addr].sequence == k.sequence
    {
      if k in s.active && k.addr in Addrs(z.batch) {
        assert k == Key(s, k.addr);
      }
    }
  }

  lemma FirstOfBatch(s: State)
    requires Placed(s) && s.batch != []
    ensures var a, rest := s.batch[0].addr, s.batch[1..];
            && a in s.heap && NoTwice(rest) && Addrs(s.batch) == Addrs(rest) + {a} && a !in Addrs(rest)
            && a !in Addrs(s.timers) && a !in s.pending
            && forall e :: e in rest ==> e in s.batch
  {
    var first, rest := [s.batch[0]], s.batch[1..];
    assert s.batch[0] in s.batch;
    assert s.batch == first + rest;
    AddrsConcat(first, rest);
    AddrsDisjoint(first, rest);
    assert Addrs(first) == {s.batch[0].addr};
  }

  lemma RestartLoose(s: State, a: Addr, rest: seq<Entry>)
    requires Placed(s) && Indexed(s) && a in s.heap && NoTwice(rest) && Addrs(s.batch) == Addrs(rest) + {a}
        && a !in Addrs(rest)
    requires a !in Addrs(s.timers) && a !in s.pending && (forall e :: e in rest ==> e in s.batch)
    ensures var u := s.(batch := rest, heap := s.heap[a := s.heap[a].(expiration := s.readAt + s.heap[a].delta)]);
            PlacedBut(u, {a}) && Indexed(u)
  {
    var u := s.(batch := rest, heap := s.heap[a := s.heap[a].(expiration := s.readAt + s.heap[a].delta)]);
    forall e | e in u.timers || e in u.batch
      ensures e.addr != a
    {
      assert e.addr in Addrs(s.timers) || e.addr in Addrs(rest);
    }
    assert u.heap.Keys == s.heap.Keys;
  }

  lemma RestartKeeps(s: State, a: Addr, rest: seq<Entry>)
    requires Core(s) && a in s.heap && NoTwice(rest) && Addrs(s.batch) == Addrs(rest) + {a} && a !in Addrs(rest)
    requires a !in Addrs(s.timers) && a !in s.pending && (forall e :: e in rest ==> e in s.batch)
        && Key(s, a) !in s.canceling
    ensures Core(Insert(s.(batch := rest, heap := s.heap[a := s.heap[a].(expiration := s.readAt + s.heap[a].delta)]),
        a))
  {
    var u := s.(batch := rest, heap := s.heap[a := s.heap[a].(expiration := s.readAt + s.heap[a].delta)]);
    RestartLoose(s, a, rest);
    hide Sorted, NoTwice;
    InsertKeeps(u, a);
    assert s.heap[a].sequence !in s.cancelledIn;
    CoreButLoose(s, u, a);
    hide Insert;
    InsertedIsCore(u, Insert(u, a), a);
  }

  lemma ForgottenIndexed(s: State, z: State, a: Addr)
    requires Indexed(s) && z.State? && z.heap == s.heap - {a} && a !in Addrs(s.timers) && z.timers == s.timers
        && z.active == s.active
    ensures Indexed(z)
  {
  }

  lemma ResetOneKeeps(s: State)
    requires Core(s) && s.batch != []
    ensures Core(ResetOne(s))
  {
    hide Insert, Indexed, Numbered, Cancelled, Sorted, NoTwice;
    var a, rest := s.batch[0].addr, s.batch[1..];
    FirstOfBatch(s);
    if s.heap[a].repeat && Key(s, a) !in s.canceling {
      RestartKeeps(s, a, rest);
      assert ResetOne(s) == Insert(s.(batch := rest,
          heap := s.heap[a := s.heap[a].(expiration := s.readAt + s.heap[a].delta)]), a);
    } else {
      Forgotten(s, ResetOne(s), a);
      ForgottenIndexed(s, ResetOne(s), a);
    }
  }

  lemma {:induction false} ResetKeeps(s: State)
    requires Core(s) && !s.calling
    ensures Inv(Reset(s))
    decreases |s.batch|
  {
    if s.batch != [] {
      ResetOneKeeps(s);
      var t := ResetOne(s);
      assert t.batch == s.batch[1..] && !t.calling;
      ResetKeeps(t);
    } else {
      assert Core(Reset(s));
    }
  }

  // What becomes of the timers of a batch.

  /** A repeating timer that was not cancelled while its batch ran. */
  predicate Restarts(s: State, a: Addr)
    requires s.State? && a in s.heap
  {
    s.heap[a].repeat && Key(s, a) !in s.canceling
  }

  /** What a timer is after its batch: one that restarts expires an interval after the time at which the batch began. */
  function Restarted(s: State, a: Addr): Timer
    requires s.State? && a in s.heap
  {
    s.heap[a].(expiration := s.readAt + s.heap[a].delta)
  }

  predicate TimerAfter(s: State, z: State, a: Addr)
    requires s.State? && z.State? && a in s.heap
  {
    if a !in Addrs(s.batch) then a in z.heap && z.heap[a] == s.heap[a]
    else if Restarts(s, a) then a in z.heap && z.heap[a] == Restarted(s, a)
    else a !in z.heap
  }

  predicate EntryAfter(s: State, z: State, e: Entry)
    requires s.State? && z.State?
  {
    e in z.timers <==>
      || e in s.timers
      || (e.addr in Addrs(s.batch) && e.addr in s.heap && Restarts(s, e.addr)
          && e.when == Restarted(s, e.addr).expiration)
  }

  ghost predicate BatchSettled(s: State, z: State)
    requires s.State? && z.State?
  {
    && z.heap.Keys <= s.heap.Keys && (forall a | a in s.heap :: TimerAfter(s, z, a))
    && (forall e :: EntryAfter(s, z, e))
    && z.pending == s.pending && z.calls == s.calls && z.created == s.created && z.clock == s.clock
  }

  lemma PlacedOfCore(s: State)
    requires Core(s)
    ensures Placed(s) && Indexed(s)
  {
  }

  /** One timer of the batch is settled, the others stay as they are. */
  lemma FirstSettled(s: State)
    requires Core(s) && s.State? && s.batch != []
    ensures var a, t := s.batch[0].addr, ResetOne(s);
            && a in s.heap && t.State? && t.batch == s.batch[1..] && t.canceling == s.canceling && t.readAt == s.readAt
            && t.pending == s.pending && t.calls == s.calls && t.created == s.created && t.clock == s.clock
            && t.calling == s.calling
            && t.heap == (if Restarts(s, a) then s.heap[a := Restarted(s, a)] else s.heap - {a})
            && forall e ::
                e in t.timers <==> e in s.timers || (Restarts(s, a) && e == Entry(Restarted(s, a).expiration, a))
  {
    hide Core, Placed, Indexed, PlacedBut, Inserted, NoTwice, Addrs, Sorted;
    PlacedOfCore(s);
    FirstOfBatch(s);
    var a, rest := s.batch[0].addr, s.batch[1..];
    var u := s.(batch := rest, heap := s.heap[a := Restarted(s, a)]);
    if Restarts(s, a) {
      RestartLoose(s, a, rest);
      InsertKeeps(u, a);
      InsertedMembers(s.timers, Entry(Restarted(s, a).expiration, a));
    }
  }

  lemma {:induction false} ResetSettles(s: State)
    requires Core(s) && s.State? && !s.calling
    ensures Reset(s).State? && BatchSettled(s, Reset(s)) && Reset(s).batch == []
    decreases |s.batch|
  {
    if s.batch == [] {
      assert Addrs(s.batch) == {};
    } else {
      FirstSettled(s);
      FirstOfBatch(s);
      ResetOneKeeps(s);
      hide Core, ResetOne;
      var t := ResetOne(s);
      ResetSettles(t);
      SettledOnce(s, t, Reset(t));
    }
  }

  /** The first timer, then the others. */
  lemma SettledOnce(s: State, t: State, z: State)
    requires s.State? && t.State? && z.State? && s.batch != [] && s.batch[0].addr in s.heap && BatchSettled(t, z)
    requires var a, rest := s.batch[0].addr, s.batch[1..];
             && t.batch == rest && Addrs(s.batch) == Addrs(rest) + {a} && a !in Addrs(rest)
             && t.canceling == s.canceling && t.readAt == s.readAt
             && t.pending == s.pending && t.calls == s.calls && t.created == s.created && t.clock == s.clock
             && t.heap == (if Restarts(s, a) then s.heap[a := Restarted(s, a)] else s.heap - {a})
             && forall e ::
                 e in t.timers <==> e in s.timers || (Restarts(s, a) && e == Entry(Restarted(s, a).expiration, a))
    ensures BatchSettled(s, z)
  {
    hide Addrs;
    var a := s.batch[0].addr;
    forall b | b in s.heap
      ensures TimerAfter(s, z, b)
    {
      assert b in t.heap ==> TimerAfter(t, z, b);
    }
    forall e
      ensures EntryAfter(s, z, e)
    {
      assert EntryAfter(t, z, e);
    }
  }

  /** When a batch has been run: each of its timers that repeats and was not cancelled meanwhile waits again, for the
      time at which the batch began plus its interval, under the same number; its other timers are deleted; and the
      timers outside the batch are as they were. */
  lemma EndSettles(s: State)
    requires Inv(s) && s.State? && Enabled(s, EndRead)
    ensures var z := Apply(s, EndRead); z.State? && BatchSettled(s, z) && !z.calling && z.batch == []
  {
    NotCalling(s);
    var t := s.(calling := false);
    ResetSettles(t);
    ResetNotCalling(t);
    hide Inv, Core, Reset;
    SameTimers(s, t, Reset(t));
  }

  lemma SameTimers(s: State, t: State, z: State)
    requires s.State? && t.State? && t == s.(calling := t.calling) && z.State? && BatchSettled(t, z)
    ensures BatchSettled(s, z)
  {
    hide Addrs;
    forall b | b in s.heap
      ensures TimerAfter(s, z, b)
    {
      assert TimerAfter(t, z, b);
    }
    forall e
      ensures EntryAfter(s, z, e)
    {
      assert EntryAfter(t, z, e);
    }
  }

  /** `addTimer`: the timer as it was asked for, under a number of its own, to be inserted. */
  lemma CreateMakes(s: State, addr: Addr, when: Time, repeat: bool, delta: nat)
    requires Inv(s) && s.State? && addr !in s.heap
    ensures var z := Apply(s, Create(addr, when, repeat, delta));
            && z.State? && addr in z.heap && addr in z.pending
            && z.heap[addr].expiration == when && z.heap[addr].repeat == repeat && z.heap[addr].delta == delta
            && (forall a :: a in s.heap ==> z.heap[a] == s.heap[a] && s.heap[a].sequence != z.heap[addr].sequence)
            && (forall i :: 0 <= i < |s.calls| ==> s.calls[i].sequence != z.heap[addr].sequence)
            && z.heap.Keys == s.heap.Keys + {addr}
  {
  }

  lemma StepKeeps(s: State, step: Step)
    requires Inv(s) && Enabled(s, step)
    ensures Inv(Apply(s, step))
  {
    match step {
      case Tick(clock) => TickKeeps(s, clock);
      case Create(addr, when, repeat, delta) => CreateKeeps(s, addr, Timer(when, repeat, delta, s.created));
      case Add(addr) => AddKeeps(s, addr);
      case Cancel(id) => CancelKeeps(s, id);
      case BeginRead => BeginKeeps(s);
      case RunNext => RunKeeps(s);
      case EndRead =>
        var t := s.(calling := false);
        NotCalling(s);
        ResetKeeps(t);
    }
  }

  lemma NotCalling(s: State)
    requires Core(s)
    ensures Core(s.(calling := false))
  {
  }

  lemma TickKeeps(s: State, clock: Time)
    requires Inv(s) && clock >= s.clock
    ensures Inv(s.(clock := clock))
  {
  }

  lemma CreateKeeps(s: State, a: Addr, t: Timer)
    requires Inv(s) && a !in s.heap && t.sequence == s.created
    ensures Inv(s.(heap := s.heap[a := t], pending := s.pending + {a}, created := s.created + 1))
  {
    var z := s.(heap := s.heap[a := t], pending := s.pending + {a}, created := s.created + 1);
    forall b | b in z.heap && z.heap[b].sequence in z.cancelledIn
      ensures b in Addrs(z.batch) && Key(z, b) in z.canceling && z.cancelledIn[z.heap[b].sequence] == z.batchNo
    {
      assert b != a && Key(z, b) == Key(s, b);
    }
  }

  lemma RunKeeps(s: State)
    requires Inv(s) && Enabled(s, RunNext)
    ensures Inv(Apply(s, RunNext))
  {
    assert s.batch[s.ran] in s.batch;
  }

  /** Over every run, whatever the callbacks and the other threads add and cancel, no assertion fails, no deleted
      timer is touched, the two sets hold the same timers, and the timerfd watches the earliest. */
  lemma EveryRunIsSafe(clock: Time, steps: seq<Step>)
    requires clock > 0 && Run(Next, Initial(clock), steps).Some?
    ensures Inv(Run(Next, Initial(clock), steps).value)
  {
    hide Inv, Run;
    forall s, step | Inv(s) && Next(s, step).Some?
      ensures Inv(Next(s, step).value)
    {
      StepKeeps(s, step);
    }
    InitialInv(clock);
    KeptByRuns(Next, Inv, Initial(clock), steps);
  }

  lemma InitialInv(clock: Time)
    requires clock > 0
    ensures Inv(Initial(clock))
  {
  }

  /** The assertion at both ends of most members: the two sets have the same size. */
  lemma SameSize(s: State)
    requires Placed(s) && Indexed(s)
    ensures |s.active| == |s.timers|
  {
    SortedNoTwice(s, s.timers);
    KeysOfPrefix(s, s.timers);
    assert s.active == KeysOf(s, s.timers) by {
      forall k
        ensures k in s.active <==> k in KeysOf(s, s.timers)
      {
        if k.addr in Addrs(s.timers) {
          var e :| e in s.timers && e.addr == k.addr;
          assert Key(s, e.addr) in KeysOf(s, s.timers);
        }
      }
    }
  }

  function KeysOf(s: State, ts: seq<Entry>): set<ActiveTimer>
    requires s.State? && Dated(s.heap, ts)
  {
    set e | e in ts :: Key(s, e.addr)
  }

  lemma KeysOfOneMore(s: State, ts: seq<Entry>, e: Entry)
    requires s.State? && Dated(s.heap, ts) && Dated(s.heap, ts + [e])
    ensures e.addr in s.heap && KeysOf(s, ts + [e]) == KeysOf(s, ts) + {Key(s, e.addr)}
  {
    assert e in ts + [e];
  }

  lemma {:induction false} KeysOfPrefix(s: State, ts: seq<Entry>)
    requires s.State? && Dated(s.heap, ts) && NoTwice(ts)
    ensures |KeysOf(s, ts)| == |ts|
    decreases |ts|
  {
    if ts != [] {
      var init, last := ts[..|ts| - 1], ts[|ts| - 1];
      assert ts == init + [last];
      KeysOfPrefix(s, init);
      KeysOfOneMore(s, init, last);
      forall e | e in init
        ensures e.addr != last.addr
      {
        var i :| 0 <= i < |init| && init[i] == e;
        assert ts[i] == e;
      }
      assert Key(s, last.addr) !in KeysOf(s, init);
    }
  }

  /** A non-empty queue has the timerfd set no later than its earliest expiration, or than 100 microseconds after
      the setting. */
  lemma NonEmptyIsArmed(s: State)
    requires Inv(s) && !s.calling && s.timers != []
    ensures s.armed.Some? && s.armed.value.at <= s.clock
    ensures var d := Deadline(s.armed.value); d <= s.timers[0].when || d == s.armed.value.at + 100
    ensures forall e :: e in s.timers ==> s.timers[0].when <= e.when
  {
    forall e | e in s.timers
      ensures s.timers[0].when <= e.when
    {
      var i :| 0 <= i < |s.timers| && s.timers[i] == e;
      assert i > 0 ==> Less(s.timers[0], s.timers[i]);
    }
  }

  // Cancelled timers.

  lemma CancelHistory(s: State, id: ActiveTimer, q: nat)
    requires Inv(s) && q in s.cancelledIn
    ensures var z := CancelTimer(s, id); z.State? && q in z.cancelledIn && z.cancelledIn[q] == s.cancelledIn[q]
  {
    CancelKeeps(s, id);
    hide Placed, Indexed, Numbered, Watching, Watched, Removed;
  }

  lemma AddHistory(s: State, a: Addr)
    requires Inv(s) && a in s.pending
    ensures a in s.heap
    ensures var z := AddTimer(s.(pending := s.pending - {a}), a); z.State? && z.cancelledIn == s.cancelledIn
  {
    AddKeeps(s, a);
    hide Inv, Inserted;
  }

  lemma CancellationStays(s: State, step: Step, q: nat)
    requires Inv(s) && Enabled(s, step) && q in s.cancelledIn
    ensures var z := Apply(s, step); z.State? && q in z.cancelledIn && z.cancelledIn[q] == s.cancelledIn[q]
  {
    hide Inv, CancelTimer, AddTimer, Begin, Reset;
    StepKeeps(s, step);
    match step {
      case Cancel(id) => CancelHistory(s, id, q);
      case Add(a) => AddHistory(s, a);
      case BeginRead =>
        BeginUp(s);
        BeginRest(s, Begin(s));
      case EndRead =>
        EndUp(s);
        ResetHistory(s.(calling := false));
      case RunNext => NextInBatch(s);
      case _ =>
    }
  }

  lemma EndUp(s: State)
    requires Inv(s) && Enabled(s, EndRead)
    ensures s.State? && Reset(s.(calling := false)).State?
  {
    StepKeeps(s, EndRead);
  }

  lemma {:induction false} ResetHistory(s: State)
    requires s.State? && Reset(s).State?
    ensures Reset(s).cancelledIn == s.cancelledIn
    decreases |s.batch|
  {
    if s.batch != [] {
      var t := ResetOne(s);
      assert t.State? ==> t.batch == s.batch[1..] && t.cancelledIn == s.cancelledIn;
      ResetHistory(t);
    }
  }

  lemma {:induction false} CancelledInPast(s: State, steps: seq<Step>, q: nat)
    requires Inv(s) && q in s.cancelledIn && Run(Next, s, steps).Some?
    ensures var z := Run(Next, s, steps).value;
            Inv(z) && z.State? && q in z.cancelledIn && z.cancelledIn[q] == s.cancelledIn[q]
    decreases |steps|
  {
    if steps != [] {
      StepKeeps(s, steps[0]);
      CancellationStays(s, steps[0], q);
      CancelledInPast(Next(s, steps[0]).value, steps[1..], q);
    }
  }

  /** A timer that is inserted when it is cancelled, also from a callback of its own batch, never runs in a batch
      that begins later. */
  lemma CancelledNeverRunsLater(s: State, id: ActiveTimer, steps: seq<Step>)
    requires Inv(s) && IsInserted(s, id) && Run(Next, CancelTimer(s, id), steps).Some?
    ensures var z := Run(Next, CancelTimer(s, id), steps).value;
            z.State? && forall i ::
                0 <= i < |z.calls| && z.calls[i].sequence == id.sequence ==> z.calls[i].batchNo <= s.batchNo
  {
    CancelKeeps(s, id);
    CancelledInPast(CancelTimer(s, id), steps, id.sequence);
  }

  /** A timer that is cancelled before the loop has inserted it is inserted all the same. */
  lemma CancelledTooEarly(s: State, a: Addr)
    requires Inv(s) && a in s.pending
    ensures a in s.heap && !IsInserted(s, Key(s, a))
    ensures var z := CancelTimer(s, Key(s, a));
            && z == s.(canceling := z.canceling)
            && Enabled(z, Add(a)) && Apply(z, Add(a)).State? && IsInserted(Apply(z, Add(a)), Key(s, a))
  {
    var z := CancelTimer(s, Key(s, a));
    assert Key(s, a) !in s.active;
    CancelKeeps(s, Key(s, a));
    AddKeeps(z, a);
    InsertedSorted(z.timers, Entry(z.heap[a].expiration, a));
  }

  // The order of the callbacks.

  /** The calls of the batch at hand are those of its entries, in order. */
  predicate InOrder(s: State) {
    && s.State?
    && (s.calling ==>
          && s.ran <= |s.batch| && s.ran <= |s.calls|
          && forall i :: 0 <= i < s.ran ==>
               s.batch[i].addr in s.heap
                   && s.calls[|s.calls| - s.ran + i] == Call(s.heap[s.batch[i].addr].sequence, s.batchNo))
  }

  /** The batch at hand and the timers in it are as they were. */
  predicate SameBatch(s: State, z: State) {
    && s.State? && z.State? && z.calling == s.calling && z.batch == s.batch && z.ran == s.ran && z.calls == s.calls
    && z.batchNo == s.batchNo && z.readAt == s.readAt
    && forall a ::
        a in Addrs(s.batch) ==> a in s.heap && a in z.heap && z.heap[a].sequence == s.heap[a].sequence
  }

  lemma BatchInHeap(s: State)
    requires Inv(s)
    ensures s.State? && s.pending !! Addrs(s.batch) && forall a :: a in Addrs(s.batch) ==> a in s.heap
  {
  }

  lemma AddUntouched(s: State, a: Addr)
    requires Inv(s) && Enabled(s, Add(a))
    ensures SameBatch(s, Apply(s, Add(a)))
  {
    AddKeeps(s, a);
    BatchInHeap(s);
    hide Inv, Inserted;
  }

  lemma CancelUntouched(s: State, id: ActiveTimer)
    requires Inv(s)
    ensures SameBatch(s, CancelTimer(s, id))
  {
    CancelCases(s, id);
    BatchInHeap(s);
    if id in s.active {
      ActiveIsNotInBatch(s, id);
    }
    hide Inv, CancelTimer, Removed;
  }

  lemma ActiveIsNotInBatch(s: State, id: ActiveTimer)
    requires Inv(s) && id in s.active
    ensures id.addr !in Addrs(s.batch)
  {
  }

  /** Adding, cancelling and waiting leave the batch alone. */
  lemma BatchUntouched(s: State, step: Step)
    requires Inv(s) && Enabled(s, step) && !step.BeginRead? && !step.EndRead? && !step.RunNext?
    ensures SameBatch(s, Apply(s, step))
  {
    hide Inv, AddTimer, CancelTimer;
    BatchInHeap(s);
    match step {
      case Add(a) => AddUntouched(s, a);
      case Cancel(id) => CancelUntouched(s, id);
      case _ =>
    }
  }

  lemma StepKeepsOrder(s: State, step: Step)
    requires Inv(s) && InOrder(s) && Enabled(s, step)
    ensures InOrder(Apply(s, step))
  {
    hide Inv;
    match step {
      case BeginRead => BeginIsInOrder(s);
      case EndRead => EndIsInOrder(s);
      case RunNext =>
        RunIsInOrder(s);
      case _ =>
        BatchUntouched(s, step);
        forall i | 0 <= i < |s.batch|
          ensures s.batch[i].addr in Addrs(s.batch)
        {
          assert s.batch[i] in s.batch;
        }
        hide Apply;
    }
  }

  lemma BeginUp(s: State)
    requires Inv(s) && !s.calling
    ensures Begin(s).State? && s.State?
  {
    BeginKeeps(s);
  }

  lemma BeginIsInOrder(s: State)
    requires Inv(s) && !s.calling
    ensures InOrder(Begin(s))
  {
    hide Begin, Inv;
    BeginUp(s);
    BeginRest(s, Begin(s));
  }

  lemma EndIsInOrder(s: State)
    requires Inv(s)
    ensures InOrder(Reset(s.(calling := false)))
  {
    NotCalling(s);
    ResetKeeps(s.(calling := false));
    hide Reset;
    ResetNotCalling(s.(calling := false));
  }

  lemma RunIsInOrder(s: State)
    requires Inv(s) && InOrder(s) && Enabled(s, RunNext)
    ensures InOrder(Apply(s, RunNext))
  {
    hide Inv, Apply;
    NextInBatch(s);
    var z := Apply(s, RunNext);
    forall i | 0 <= i < z.ran
      ensures s.batch[i].addr in s.heap
          && z.calls[|z.calls| - z.ran + i] == Call(s.heap[s.batch[i].addr].sequence, s.batchNo)
    {
    }
  }

  lemma {:induction false} ResetNotCalling(s: State)
    requires s.State? && !s.calling && Reset(s).State?
    ensures !Reset(s).calling
    decreases |s.batch|
  {
    if s.batch != [] {
      var t := ResetOne(s);
      assert t.State? ==> t.batch == s.batch[1..] && !t.calling;
      ResetNotCalling(t);
    }
  }

  ghost predicate Ordered(s: State) {
    Inv(s) && InOrder(s)
  }

  /** When a batch has been run, the last calls are those of exactly the timers that were due, each once, by time. */
  lemma EveryBatchInOrder(clock: Time, steps: seq<Step>)
    requires clock > 0 && Run(Next, Initial(clock), steps).Some?
    ensures InOrder(Run(Next, Initial(clock), steps).value)
  {
    hide Inv, InOrder, Run;
    forall s, step | Ordered(s) && Next(s, step).Some?
      ensures Ordered(Next(s, step).value)
    {
      StepKeeps(s, step);
      StepKeepsOrder(s, step);
    }
    InitialInv(clock);
    InitialInOrder(clock);
    KeptByRuns(Next, Ordered, Initial(clock), steps);
  }

  lemma InitialInOrder(clock: Time)
    ensures InOrder(Initial(clock))
  {
  }

  lemma LooseWhenAdded(s: State, a: Addr)
    requires Inv(s) && a in s.pending
    ensures a in s.heap
    ensures var t := s.(pending := s.pending - {a}); PlacedBut(t, {a}) && Indexed(t)
  {
    var t := s.(pending := s.pending - {a});
    assert t.heap.Keys == t.pending + Addrs(t.timers) + Addrs(t.batch) + {a};
  }

  lemma CancelFinds(s: State, id: ActiveTimer)
    requires Inv(s) && id in s.active
    ensures id.addr in s.heap && Entry(s.heap[id.addr].expiration, id.addr) in s.timers
  {
    EntryOf(s, id.addr);
  }

  lemma CancelCases(s: State, id: ActiveTimer)
    requires Inv(s)
    ensures var t := if IsInserted(s, id) then s.(cancelledIn := s.cancelledIn[id.sequence := s.batchNo]) else s;
            && (id in s.active ==>
                  && id.addr in s.heap && Entry(s.heap[id.addr].expiration, id.addr) in s.timers
                  && CancelTimer(s, id) == t.(timers := Removed(s.timers, Entry(s.heap[id.addr].expiration, id.addr)),
                                              heap := s.heap - {id.addr}, active := s.active - {id}))
            && (id !in s.active ==> CancelTimer(s, id) == if s.calling then t.(canceling := s.canceling + {id}) else t)
  {
    hide Removed;
    if id in s.active {
      CancelFinds(s, id);
    }
  }

  lemma SameSizeInv(s: State)
    requires Inv(s)
    ensures s.State? && |s.timers| == |s.active|
  {
    SameSize(s);
  }

  lemma ResetKeepsClock(s: State)
    requires s.State? && s.batch != []
    ensures var t := ResetOne(s); t.State? ==> t.calling == s.calling && t.readAt == s.readAt
  {
  }

  lemma ResetUnfolds(s: State)
    requires Core(s) && s.batch != []
    ensures s.batch[0].addr in s.heap && ResetOne(s).State? && ResetOne(s).batch == s.batch[1..]
        && Reset(s) == Reset(ResetOne(s))
    ensures var a := s.batch[0].addr;
            var u := s.(batch := s.batch[1..],
                heap := s.heap[a := s.heap[a].(expiration := s.readAt + s.heap[a].delta)]);
            s.heap[a].repeat && Key(s, a) !in s.canceling ==> PlacedBut(u, {a}) && Indexed(u)
  {
    ResetOneKeeps(s);
    ResetOneIsUp(s);
    FirstOfBatch(s);
    ResetGoesOn(s);
    FirstRestarts(s);
    hide Core, Placed, PlacedBut, Indexed, Reset, ResetOne;
  }

  lemma ResetGoesOn(s: State)
    requires s.State? && s.batch != [] && ResetOne(s).State?
    ensures Reset(s) == Reset(ResetOne(s))
  {
    hide Insert;
  }

  lemma FirstRestarts(s: State)
    requires Core(s) && s.batch != [] && s.batch[0].addr in s.heap
    ensures var a := s.batch[0].addr;
            var u := s.(batch := s.batch[1..],
                heap := s.heap[a := s.heap[a].(expiration := s.readAt + s.heap[a].delta)]);
            PlacedBut(u, {a}) && Indexed(u)
  {
    FirstOfBatch(s);
    hide Placed, Indexed, Numbered, Cancelled, Watching, PlacedBut;
    RestartLoose(s, s.batch[0].addr, s.batch[1..]);
  }

  lemma ResetOneIsUp(s: State)
    requires Core(s) && s.batch != []
    ensures Core(ResetOne(s)) ==> ResetOne(s).State? && ResetOne(s).batch == s.batch[1..]
  {
    hide Indexed, Numbered, Cancelled, Watching, Inserted;
  }

  /** What a callback does to its own queue. */
  datatype Action = Adding(addr: Addr) | Cancelling(id: ActiveTimer)

  /** The timers that were made and not added yet, after a callback did so much. */
  function PendingAfter(pending: set<Addr>, actions: seq<Action>): set<Addr> {
    if actions == [] then pending
    else
      var left, a := PendingAfter(pending, actions[..|actions| - 1]), actions[|actions| - 1];
      if a.Adding? then left - {a.addr} else left
  }

  /** What a callback does, step by step: it adds timers that were made and not added yet, and cancels any. */
  function ActionSteps(pending: set<Addr>, actions: seq<Action>): seq<Step> {
    if actions == [] then []
    else
      var init := actions[..|actions| - 1];
      ActionSteps(pending, init) +
      match actions[|actions| - 1]
      case Adding(a) => if a in PendingAfter(pending, init) then [Add(a)] else []
      case Cancelling(id) => [Cancel(id)]
  }

  function PendingAfterBatch(pending: set<Addr>, batch: seq<Entry>, script: Entry -> seq<Action>): set<Addr> {
    if batch == [] then pending
    else PendingAfter(PendingAfterBatch(pending, batch[..|batch| - 1], script), script(batch[|batch| - 1]))
  }

  /** One call for each entry, in order, each followed by what its callback does. */
  function BatchSteps(pending: set<Addr>, batch: seq<Entry>, script: Entry -> seq<Action>): seq<Step> {
    if batch == [] then []
    else
      var init, e := batch[..|batch| - 1], batch[|batch| - 1];
      BatchSteps(pending, init, script) + [RunNext] + ActionSteps(PendingAfterBatch(pending, init, script), script(e))
  }

  lemma OneMoreAction(pending: set<Addr>, actions: seq<Action>, i: nat)
    requires i < |actions|
    ensures actions[..i + 1] != [] && PendingAfter(pending, actions[..i + 1])
        == if actions[i].Adding? then PendingAfter(pending, actions[..i]) - {actions[i].addr}
           else PendingAfter(pending, actions[..i])
    ensures [RunNext] + ActionSteps(pending, actions[..i + 1])
        == [RunNext] + ActionSteps(pending, actions[..i]) + match actions[i]
           case Adding(a) => (if a in PendingAfter(pending, actions[..i]) then [Add(a)] else [])
           case Cancelling(id) => [Cancel(id)]
  {
    assert actions[..i + 1][..i] == actions[..i];
  }

  lemma OneMoreCallback(pending: set<Addr>, batch: seq<Entry>, i: nat, script: Entry -> seq<Action>)
    requires i < |batch|
    ensures PendingAfterBatch(pending, batch[..i + 1], script)
        == PendingAfter(PendingAfterBatch(pending, batch[..i], script), script(batch[i]))
    ensures [BeginRead] + BatchSteps(pending, batch[..i + 1], script)
        == [BeginRead] + BatchSteps(pending, batch[..i], script)
           + ([RunNext] + ActionSteps(PendingAfterBatch(pending, batch[..i], script), script(batch[i])))
  {
    hide ActionSteps, PendingAfter;
    assert batch[..i + 1][..i] == batch[..i];
  }

  lemma NoActions(pending: set<Addr>)
    ensures ActionSteps(pending, []) == [] && PendingAfter(pending, []) == pending
  {
  }

  lemma NoCallbacks(pending: set<Addr>, script: Entry -> seq<Action>)
    ensures BatchSteps(pending, [], script) == [] && PendingAfterBatch(pending, [], script) == pending
  {
  }

  /** What the steps of a callback leave of the timers that were made. */
  lemma PendingChanges(s: State, step: Step)
    requires Inv(s) && Enabled(s, step) && (step.Add? || step.Cancel? || step.BeginRead?)
    ensures var z := Apply(s, step);
            z.State? && z.pending == if step.Add? then s.pending - {step.addr} else s.pending
  {
    StepKeeps(s, step);
    if step.Add? {
      AddInserts(s, step.addr);
    } else if step.Cancel? {
      CancelRemoves(s, step.id);
    } else {
      BeginUnfolds(s);
      var n := DueCount(s.timers, s.clock);
      DeactivatedKeepsTheRest(s.(timers := s.timers[n..]), s.timers[..n]);
    }
    hide Inv;
  }

  /** A step of a callback, and what it leaves alone. */
  lemma ActionIsNext(s: State, step: Step)
    requires Inv(s) && Enabled(s, step) && (step.Add? || step.Cancel?) && s.calling
    ensures var z := Apply(s, step);
            && Next(s, step) == Some(z) && z.State? && z.calling && z.batch == s.batch && z.ran == s.ran
            && z.readAt == s.readAt && z.pending == (if step.Add? then s.pending - {step.addr} else s.pending)
            && (step.Cancel? ==> z == CancelTimer(s, step.id))
  {
    BatchUntouched(s, step);
    PendingChanges(s, step);
    hide Inv, AddTimer, CancelTimer;
  }

  lemma BeginUnfolds(s: State)
    requires Inv(s) && !s.calling
    ensures var n := DueCount(s.timers, s.clock);
            var t := Deactivated(s.(timers := s.timers[n..]), s.timers[..n]);
            && t.State? && Inv(Begin(s)) && Begin(s).State?
            && Begin(s) == t.(batch := s.timers[..n], ran := 0, readAt := s.clock, calling := true, canceling := {},
                batchNo := s.batchNo + 1,
                              armed := if s.armed.Some? && Deadline(s.armed.value) <= s.clock then None else s.armed)
  {
    BeginKeeps(s);
    hide Inv;
  }

  lemma MayEnd(s: State)
    requires Inv(s) && s.calling && s.ran == |s.batch|
    ensures Core(s.(calling := false)) && Enabled(s, EndRead) && Inv(Apply(s, EndRead))
    ensures Next(s, EndRead) == Some(Reset(s.(calling := false)))
  {
    StepKeeps(s, EndRead);
    NotCalling(s);
  }

  lemma NextInBatch(s: State)
    requires Inv(s) && Enabled(s, RunNext)
    ensures s.batch[s.ran].addr in s.heap
    ensures Apply(s, RunNext)
        == s.(ran := s.ran + 1, calls := s.calls + [Call(s.heap[s.batch[s.ran].addr].sequence, s.batchNo)])
    ensures Inv(Apply(s, RunNext)) && Next(s, RunNext) == Some(Apply(s, RunNext))
  {
    RunKeeps(s);
  }

  /** The object; its timers live in `heap`. */
  class TimerQueue {
    var heap: map<Addr, Timer>
    var pending: set<Addr>
    var timers: seq<Entry>
    var activeTimers: set<ActiveTimer>
    var callingExpiredTimers: bool
    var cancelingTimers: set<ActiveTimer>
    var timerfd: Option<Armed>
    var clock: Time
    ghost var batch: seq<Entry>
    ghost var ran: nat
    ghost var readAt: Time
    ghost var created: nat
    ghost var batchNo: nat
    ghost var cancelledIn: map<nat, nat>
    ghost var calls: seq<Call>

    ghost function Now(): State
      reads this
    {
      State(heap, pending, timers, activeTimers, callingExpiredTimers, cancelingTimers, batch, ran, readAt, clock,
          timerfd,
            created, batchNo, cancelledIn, calls)
    }

    constructor (now: Time)
      requires now > 0
      ensures Now() == Initial(now) && Inv(Now())
    {
      heap, pending, timers, activeTimers, callingExpiredTimers, cancelingTimers := map[], {}, [], {}, false, {};
      timerfd, clock := None, now;
      batch, ran, readAt, created, batchNo, cancelledIn, calls := [], 0, now, 0, 0, map[], [];
    }

    method InsertTimer(a: Addr) returns (earliestChanged: bool)
      requires PlacedBut(Now(), {a}) && Indexed(Now())
      modifies this`timers, this`activeTimers
      ensures Now() == Insert(old(Now()), a) && Placed(Now()) && Indexed(Now())
      ensures earliestChanged <==> old(EarliestChanged(Now(), heap[a].expiration))
    {
      InsertKeeps(Now(), a);
      hide PlacedBut, Indexed, Inserted;
      var when := heap[a].expiration;
      earliestChanged := timers == [] || when < timers[0].when;
      assert Entry(when, a) !in timers;
      timers := Inserted(timers, Entry(when, a));
      assert ActiveTimer(a, heap[a].sequence) !in activeTimers;
      activeTimers := activeTimers + {ActiveTimer(a, heap[a].sequence)};
    }

    method AddTimerInLoop(a: Addr)
      requires Inv(Now()) && a in pending
      modifies this
      ensures Now() == Apply(old(Now()), Add(a)) && Inv(Now())
    {
      AddKeeps(Now(), a);
      LooseWhenAdded(Now(), a);
      hide Inv, PlacedBut, Indexed, Insert;
      pending := pending - {a};
      var earliestChanged := InsertTimer(a);
      if earliestChanged {
        timerfd := Some(Armed(heap[a].expiration, clock));
      }
    }

    method CancelInLoop(id: ActiveTimer)
      requires Inv(Now())
      modifies this
      ensures Now() == CancelTimer(old(Now()), id) && Inv(Now())
    {
      hide Inv, IsInserted, Removed, CancelTimer;
      CancelKeeps(Now(), id);
      SameSizeInv(Now());
      assert |timers| == |activeTimers|;
      CancelCases(Now(), id);
      ghost var inserted := IsInserted(Now(), id);
      if id in activeTimers {
        timers := Removed(timers, Entry(heap[id.addr].expiration, id.addr));
        heap := heap - {id.addr};
        activeTimers := activeTimers - {id};
      } else if callingExpiredTimers {
        cancelingTimers := cancelingTimers + {id};
      }
      if inserted {
        cancelledIn := cancelledIn[id.sequence := batchNo];
      }
      SameSizeInv(Now());
      assert |timers| == |activeTimers|;
    }

    /** `getExpired`, on the clock of the call. */
    method GetExpired() returns (expired: seq<Entry>)
      requires Inv(Now()) && !callingExpiredTimers
      modifies this`timers, this`activeTimers
      ensures var n := DueCount(old(timers), clock);
              expired == old(timers)[..n] && Now() == Deactivated(old(Now()).(timers := old(timers)[n..]), expired)
    {
      BeginTakes(Now());
      hide Inv;
      var end := DueCount(timers, clock);
      expired := timers[..end];
      timers := timers[end..];
      ghost var all := Deactivated(Now(), expired);
      assert expired[0..] == expired;
      for i := 0 to |expired|
        invariant all.State? && Deactivated(Now(), expired[i..]) == all && heap == old(heap)
        invariant timers == old(timers)[end..]
      {
        ghost var rest := expired[i..];
        assert rest[0] == expired[i] && rest[1..] == expired[i + 1..];
        var timer := ActiveTimer(expired[i].addr, heap[expired[i].addr].sequence);
        assert timer in activeTimers;
        activeTimers := activeTimers - {timer};
      }
    }

    /** The body of the loop in `reset`. */
    method ResetFirst(a: Addr, now: Time)
      requires Core(Now()) && batch != [] && a == batch[0].addr && now == readAt
      modifies this
      ensures Now() == ResetOne(old(Now())) && Core(Now())
    {
      hide Core, Insert, PlacedBut, Indexed;
      ResetUnfolds(Now());
      ResetOneKeeps(Now());
      batch := batch[1..];
      if heap[a].repeat && ActiveTimer(a, heap[a].sequence) !in cancelingTimers {
        heap := heap[a := heap[a].(expiration := now + heap[a].delta)];
        var earliestChanged := InsertTimer(a);
      } else {
        heap := heap - {a};
      }
    }

    /** `reset`: repeating timers that were not cancelled are restarted, all others of the batch deleted. */
    method ResetTimers(expired: seq<Entry>, now: Time)
      requires Core(Now()) && !callingExpiredTimers && expired == batch && now == readAt
      modifies this
      ensures Now() == Reset(old(Now())) && Inv(Now())
    {
      hide Core, Inv, ResetOne;
      ResetKeeps(Now());
      ghost var final := Reset(Now());
      assert expired[0..] == expired;
      for i := 0 to |expired|
        invariant Core(Now()) && batch == expired[i..] && Reset(Now()) == final && !callingExpiredTimers
            && readAt == now
      {
        ResetUnfolds(Now());
        ResetKeepsClock(Now());
        ResetFirst(expired[i].addr, now);
      }
      if timers != [] && timers[0].when > 0 {
        timerfd := Some(Armed(timers[0].when, clock));
      }
    }

    /** One callback: it is called, and adds timers that were made or cancels some. */
    method RunCallback(actions: seq<Action>) returns (ghost steps: seq<Step>)
      requires Inv(Now()) && Enabled(Now(), RunNext)
      modifies this
      ensures Run(Next, old(Now()), steps) == Some(Now()) && Inv(Now())
      ensures callingExpiredTimers && batch == old(batch) && ran == old(ran) + 1 && readAt == old(readAt)
      ensures steps == [RunNext] + ActionSteps(old(pending), actions) && pending == PendingAfter(old(pending), actions)
    {
      hide Run, Inv, Apply, Next, AddTimer, CancelTimer, ActionSteps, PendingAfter;
      ghost var s := Now();
      NextInBatch(s);
      OneStep(Next, s, RunNext);
      ran, calls := ran + 1, calls + [Call(heap[batch[ran].addr].sequence, batchNo)];
      steps := [RunNext];
      NoActions(pending);
      for i := 0 to |actions|
        invariant Run(Next, s, steps) == Some(Now()) && Inv(Now())
        invariant callingExpiredTimers && batch == s.batch && ran == s.ran + 1 && readAt == s.readAt
        invariant steps == [RunNext] + ActionSteps(s.pending, actions[..i])
        invariant pending == PendingAfter(s.pending, actions[..i])
      {
        OneMoreAction(s.pending, actions, i);
        match actions[i] {
          case Adding(a) =>
            if a in pending {
              ActionIsNext(Now(), Add(a));
              StepAfterRun(Next, s, steps, Add(a));
              AddTimerInLoop(a);
              steps := steps + [Add(a)];
            }
          case Cancelling(id) =>
            ActionIsNext(Now(), Cancel(id));
            StepAfterRun(Next, s, steps, Cancel(id));
            CancelInLoop(id);
            steps := steps + [Cancel(id)];
        }
      }
      assert actions[..|actions|] == actions;
    }

    /** The timerfd is read, and the batch is at hand. */
    method StartBatch(expired: seq<Entry>)
      modifies `timerfd, `callingExpiredTimers, `cancelingTimers, `batch, `ran, `readAt, `batchNo
      ensures batch == expired && ran == 0 && readAt == clock && batchNo == old(batchNo) + 1
      ensures callingExpiredTimers && cancelingTimers == {}
      ensures timerfd == if old(timerfd).Some? && Deadline(old(timerfd).value) <= clock then None else old(timerfd)
    {
      if timerfd.Some? && Deadline(timerfd.value) <= clock {
        timerfd := None;
      }
      callingExpiredTimers, cancelingTimers := true, {};
      batch, ran, readAt, batchNo := expired, 0, clock, batchNo + 1;
    }

    /** The head of `handleRead`. */
    method TakeExpired() returns (expired: seq<Entry>)
      requires Inv(Now()) && !callingExpiredTimers
      modifies this
      ensures Now() == Begin(old(Now())) && Inv(Now()) && expired == batch
    {
      hide Inv, Begin, Deactivated, DueCount;
      BeginUnfolds(Now());
      expired := GetExpired();
      StartBatch(expired);
    }

    /** `handleRead`, with callbacks that may add and cancel timers, their own batch's included. */
    method HandleRead(script: Entry -> seq<Action>) returns (ghost steps: seq<Step>)
      requires Inv(Now()) && !callingExpiredTimers
      modifies this
      ensures Run(Next, old(Now()), steps) == Some(Now()) && Inv(Now())
      ensures var due := old(timers[..DueCount(timers, clock)]);
              steps == [BeginRead] + BatchSteps(old(pending), due, script) + [EndRead]
    {
      hide Run, Inv, Next, Apply, Begin, Reset, Core, DueCount, ActionSteps, PendingAfter, BatchSteps,
        PendingAfterBatch;
      ghost var s := Now();
      OneStep(Next, s, BeginRead);
      BeginReadsClock(s);
      NoCallbacks(pending, script);
      var now := clock;
      var expired := TakeExpired();
      steps := [BeginRead];
      for i := 0 to |expired|
        invariant Run(Next, s, steps) == Some(Now()) && Inv(Now())
        invariant callingExpiredTimers && batch == expired && ran == i && readAt == now
        invariant steps == [BeginRead] + BatchSteps(s.pending, expired[..i], script)
        invariant pending == PendingAfterBatch(s.pending, expired[..i], script)
      {
        OneMoreCallback(s.pending, expired, i, script);
        ghost var more := RunCallback(script(expired[i]));
        RunsCompose(Next, s, steps, more);
        steps := steps + more;
      }
      assert expired[..|expired|] == expired;
      MayEnd(Now());
      StepAfterRun(Next, s, steps, EndRead);
      steps := steps + [EndRead];
      callingExpiredTimers := false;
      ResetTimers(expired, now);
    }
  }

  lemma BeginReadsClock(s: State)
    requires Inv(s) && !s.calling
    ensures Begin(s).State? && Begin(s).readAt == s.clock && Begin(s).ran == 0 && Begin(s).calling
    ensures Next(s, BeginRead) == Some(Begin(s)) && Begin(s).pending == s.pending
    ensures Begin(s).batch == s.timers[..DueCount(s.timers, s.clock)]
  {
    BeginTakes(s);
    PendingChanges(s, BeginRead);
    BeginUnfolds(s);
  }
}
