/** The two pollers of muduo/net/poller, PollPoller.cc over poll(2) and EPollPoller.cc over epoll(4), as two
    implementations of one interest table. A channel object is known by its number and its file descriptor;
    `events` and `index` are the fields of the channel objects. */
module Pollers {
  import opened Machines

  datatype Channel = Channel(id: nat, fd: nat)

  /** `updateChannel` after the channel's interest was set to `mask`, and `removeChannel`. */
  datatype Op = Update(c: Channel, mask: nat) | Remove(c: Channel)

  // The interest table.

  /** A registered channel, its last mask, and whether it was updated again after the first time. */
  datatype Registered = Registered(c: Channel, mask: nat, again: bool)

  datatype Table = Table(entries: map<nat, Registered>, retired: set<Channel>)

  predicate Holds(t: Table, c: Channel) {
    c.fd in t.entries && t.entries[c.fd].c == c
  }

  function Changed(t: Table, op: Op): Table {
    match op
    case Update(c, mask) => t.(entries := t.entries[c.fd := Registered(c, mask, c.fd in t.entries)])
    case Remove(c) => Table(t.entries - {c.fd}, t.retired + {c})
  }

  function Interests(t: Table): set<(nat, nat)> {
    set fd | fd in t.entries && t.entries[fd].mask != 0 :: (fd, t.entries[fd].mask)
  }

  /** What `PollPoller` asks of its callers: a channel that was removed does not come back, and one that is removed
      was silenced by an update that was not its first. */
  predicate PollLegal(t: Table, op: Op) {
    match op
    case Update(c, mask) => Holds(t, c) || (c.fd !in t.entries && c !in t.retired)
    case Remove(c) => Holds(t, c) && t.entries[c.fd].mask == 0 && t.entries[c.fd].again
  }

  /** `EPollPoller` asks less. */
  predicate EPollLegal(t: Table, op: Op) {
    match op
    case Update(c, mask) => Holds(t, c) || c.fd !in t.entries
    case Remove(c) => Holds(t, c) && t.entries[c.fd].mask == 0
  }

  // PollPoller.

  datatype PollFd = PollFd(fd: int, events: nat, revents: int)

  /** A failed assertion makes the poller `PollCrashed`. */
  datatype Poll = PollCrashed
    | Poll(channels: map<nat, Channel>, events: map<Channel, nat>, index: map<Channel, int>, pollfds: seq<PollFd>)

  function IndexOf(index: map<Channel, int>, c: Channel): int {
    if c in index then index[c] else -1
  }

  /** How a slot is told to ignore its descriptor. */
  function Ignored(fd: nat): int {
    -(fd as int) - 1
  }

  function FdOf(p: PollFd): int {
    if p.fd < 0 then -p.fd - 1 else p.fd
  }

  function PollUpdate(p: Poll, c: Channel, mask: nat): Poll
    requires p.Poll?
  {
    var q := p.(events := p.events[c := mask]);
    if IndexOf(p.index, c) < 0 then
      if c.fd in p.channels then PollCrashed
      else q.(pollfds := p.pollfds + [PollFd(c.fd, mask, 0)], index := p.index[c := |p.pollfds|],
          channels := p.channels[c.fd := c])
    else
      var idx := p.index[c];
      if c.fd !in p.channels || p.channels[c.fd] != c || idx >= |p.pollfds| || FdOf(p.pollfds[idx]) != c.fd then
          PollCrashed
      else q.(pollfds := p.pollfds[idx := PollFd(if mask == 0 then Ignored(c.fd) else c.fd, mask, 0)])
  }

  function PollRemove(p: Poll, c: Channel): Poll
    requires p.Poll?
  {
    if c.fd !in p.channels || p.channels[c.fd] != c || c !in p.events || p.events[c] != 0 then PollCrashed
    else
      var idx, last := IndexOf(p.index, c), |p.pollfds| - 1;
      if !(0 <= idx <= last) || p.pollfds[idx].fd != Ignored(c.fd) || p.pollfds[idx].events != p.events[c] then
          PollCrashed
      else
        var q := p.(channels := p.channels - {c.fd});
        if idx == last then q.(pollfds := p.pollfds[..last])
        else
          var fd := FdOf(p.pollfds[last]);
          if fd !in q.channels then PollCrashed
          else q.(pollfds := p.pollfds[idx := p.pollfds[last]][..last], index := p.index[q.channels[fd] := idx])
  }

  function PollApply(p: Poll, op: Op): Poll
    requires p.Poll?
  {
    match op
    case Update(c, mask) => PollUpdate(p, c, mask)
    case Remove(c) => PollRemove(p, c)
  }

  /** poll(2) passes over negative descriptors. */
  function PollWatches(p: Poll): set<(nat, nat)>
    requires p.Poll?
  {
    set i | 0 <= i < |p.pollfds| && p.pollfds[i].fd >= 0
        && p.pollfds[i].events != 0 :: (p.pollfds[i].fd as nat, p.pollfds[i].events)
  }

  predicate Slot(x: PollFd, fd: nat, r: Registered) {
    x.events == r.mask && x.fd == if r.mask == 0 && r.again then Ignored(fd) else fd
  }

  /** The index that each registered channel carries and the slots of `pollfds_` are in bijection. */
  predicate PollRep(p: Poll, t: Table) {
    && p.Poll?
    && p.channels.Keys == t.entries.Keys
    && (forall fd :: fd in t.entries ==> PollEntry(p, t, fd))
    && (forall i :: 0 <= i < |p.pollfds| ==> PollSlot(p, t, i))
    && (forall c :: c in p.index ==> p.index[c] >= 0 && (c in t.retired || Holds(t, c)))
    && (forall c :: c in t.retired ==> c in p.index && !Holds(t, c))
  }

  predicate PollEntry(p: Poll, t: Table, fd: nat)
    requires p.Poll? && fd in t.entries && fd in p.channels
  {
    var r := t.entries[fd];
    && r.c.fd == fd && p.channels[fd] == r.c
    && r.c in p.events && p.events[r.c] == r.mask
    && r.c in p.index && 0 <= p.index[r.c] < |p.pollfds| && Slot(p.pollfds[p.index[r.c]], fd, r)
  }

  predicate PollSlot(p: Poll, t: Table, i: nat)
    requires p.Poll? && i < |p.pollfds|
  {
    var fd := FdOf(p.pollfds[i]);
    fd in t.entries && t.entries[fd].c in p.index && p.index[t.entries[fd].c] == i
  }

  lemma PollWatchesTheTable(p: Poll, t: Table)
    requires PollRep(p, t)
    ensures PollWatches(p) == Interests(t)
  {
    forall x
      ensures x in PollWatches(p) <==> x in Interests(t)
    {
      if x in Interests(t) {
        assert PollEntry(p, t, x.0);
        var i := p.index[t.entries[x.0].c];
        assert p.pollfds[i].fd == x.0 && p.pollfds[i].events == x.1;
      }
      if x in PollWatches(p) {
        var i :| 0 <= i < |p.pollfds| && p.pollfds[i].fd >= 0 && p.pollfds[i].events != 0
            && x == (p.pollfds[i].fd as nat, p.pollfds[i].events);
        assert PollSlot(p, t, i) && PollEntry(p, t, x.0);
      }
    }
  }

  lemma PollAddsEntry(p: Poll, t: Table, c: Channel, mask: nat, fd: nat)
    requires PollRep(p, t) && c.fd !in t.entries && c !in p.index && (fd in t.entries || fd == c.fd)
    ensures var q := PollUpdate(p, c, mask);
            q.Poll? && fd in q.channels && PollEntry(q, Changed(t, Update(c, mask)), fd)
  {
    if fd != c.fd {
      assert PollEntry(p, t, fd);
    }
  }

  lemma PollAddsSlot(p: Poll, t: Table, c: Channel, mask: nat, i: nat)
    requires PollRep(p, t) && c.fd !in t.entries && c !in p.index && i <= |p.pollfds|
    ensures var q := PollUpdate(p, c, mask);
            q.Poll? && |q.pollfds| == |p.pollfds| + 1 && PollSlot(q, Changed(t, Update(c, mask)), i)
  {
    if i < |p.pollfds| {
      assert PollSlot(p, t, i) && PollEntry(p, t, FdOf(p.pollfds[i]));
    }
  }

  lemma PollAdds(p: Poll, t: Table, c: Channel, mask: nat)
    requires PollRep(p, t) && c.fd !in t.entries && c !in t.retired
    ensures PollRep(PollUpdate(p, c, mask), Changed(t, Update(c, mask)))
  {
    hide PollEntry, PollSlot;
    var q, u := PollUpdate(p, c, mask), Changed(t, Update(c, mask));
    assert c !in p.index;
    forall fd | fd in u.entries
      ensures fd in q.channels && PollEntry(q, u, fd)
    {
      PollAddsEntry(p, t, c, mask, fd);
    }
    forall i | 0 <= i < |q.pollfds|
      ensures PollSlot(q, u, i)
    {
      PollAddsSlot(p, t, c, mask, i);
    }
  }

  lemma PollChangesEntry(p: Poll, t: Table, c: Channel, mask: nat, fd: nat)
    requires PollRep(p, t) && Holds(t, c) && fd in t.entries
    ensures var q := PollUpdate(p, c, mask);
            q.Poll? && fd in q.channels && PollEntry(q, Changed(t, Update(c, mask)), fd)
  {
    assert PollEntry(p, t, c.fd) && PollEntry(p, t, fd);
    assert PollSlot(p, t, p.index[t.entries[fd].c]);
  }

  lemma PollChangesSlot(p: Poll, t: Table, c: Channel, mask: nat, i: nat)
    requires PollRep(p, t) && Holds(t, c) && i < |p.pollfds|
    ensures var q := PollUpdate(p, c, mask);
            q.Poll? && |q.pollfds| == |p.pollfds| && PollSlot(q, Changed(t, Update(c, mask)), i)
  {
    assert PollEntry(p, t, c.fd) && PollSlot(p, t, i);
  }

  lemma PollChanges(p: Poll, t: Table, c: Channel, mask: nat)
    requires PollRep(p, t) && Holds(t, c)
    ensures PollRep(PollUpdate(p, c, mask), Changed(t, Update(c, mask)))
  {
    var q, u := PollUpdate(p, c, mask), Changed(t, Update(c, mask));
    assert PollEntry(p, t, c.fd);
    hide PollEntry, PollSlot;
    forall fd | fd in u.entries
      ensures fd in q.channels && PollEntry(q, u, fd)
    {
      PollChangesEntry(p, t, c, mask, fd);
    }
    forall i | 0 <= i < |q.pollfds|
      ensures PollSlot(q, u, i)
    {
      PollChangesSlot(p, t, c, mask, i);
    }
  }

  lemma PollDropsLast(p: Poll, t: Table, c: Channel)
    requires PollRep(p, t) && Holds(t, c) && p.index[c] == |p.pollfds| - 1
    ensures PollRep(p.(channels := p.channels - {c.fd}, pollfds := p.pollfds[..|p.pollfds| - 1]), Changed(t, Remove(c)))
  {
    var last := |p.pollfds| - 1;
    var q, u := p.(channels := p.channels - {c.fd}, pollfds := p.pollfds[..last]), Changed(t, Remove(c));
    forall fd | fd in u.entries
      ensures fd in q.channels && PollEntry(q, u, fd)
    {
      assert PollEntry(p, t, fd) && PollEntry(p, t, c.fd);
      var k := p.index[t.entries[fd].c];
      assert PollSlot(p, t, k) && PollSlot(p, t, last);
    }
    forall i | 0 <= i < last
      ensures PollSlot(q, u, i)
    {
      assert PollSlot(p, t, i) && PollEntry(p, t, c.fd);
    }
    assert PollEntry(p, t, c.fd);
  }

  function SwapAndPop(p: Poll, c: Channel, idx: nat, moved: Channel): Poll
    requires p.Poll? && idx < |p.pollfds|
  {
    var last := |p.pollfds| - 1;
    p.(channels := p.channels - {c.fd}, pollfds := p.pollfds[idx := p.pollfds[last]][..last],
        index := p.index[moved := idx])
  }

  /** Swap and pop keeps the bijection. */
  lemma PollDropsInner(p: Poll, t: Table, c: Channel, idx: nat, moved: Channel)
    requires PollRep(p, t) && Holds(t, c) && p.index[c] == idx < |p.pollfds| - 1
    requires Holds(t, moved) && moved.fd == FdOf(p.pollfds[|p.pollfds| - 1])
    ensures moved != c && PollRep(SwapAndPop(p, c, idx, moved), Changed(t, Remove(c)))
  {
    var last := |p.pollfds| - 1;
    var q, u := SwapAndPop(p, c, idx, moved), Changed(t, Remove(c));
    assert PollSlot(p, t, last) && PollEntry(p, t, c.fd) && PollSlot(p, t, idx);
    forall fd | fd in u.entries
      ensures fd in q.channels && PollEntry(q, u, fd)
    {
      InnerEntry(p, t, c, idx, moved, fd);
    }
    forall i | 0 <= i < last
      ensures PollSlot(q, u, i)
    {
      InnerSlot(p, t, c, idx, moved, i);
    }
  }

  lemma InnerEntry(p: Poll, t: Table, c: Channel, idx: nat, moved: Channel, fd: nat)
    requires PollRep(p, t) && Holds(t, c) && p.index[c] == idx < |p.pollfds| - 1
    requires Holds(t, moved) && moved.fd == FdOf(p.pollfds[|p.pollfds| - 1]) && fd in t.entries && fd != c.fd
    ensures var q := SwapAndPop(p, c, idx, moved); fd in q.channels && PollEntry(q, Changed(t, Remove(c)), fd)
  {
    var last := |p.pollfds| - 1;
    var d := t.entries[fd].c;
    assert PollEntry(p, t, fd) && PollEntry(p, t, c.fd) && PollSlot(p, t, last) && PollSlot(p, t, idx)
        && PollSlot(p, t, p.index[d]);
    assert d != c && p.index[d] != idx;
    assert d == moved <==> p.index[d] == last;
  }

  lemma InnerSlot(p: Poll, t: Table, c: Channel, idx: nat, moved: Channel, i: nat)
    requires PollRep(p, t) && Holds(t, c) && p.index[c] == idx < |p.pollfds| - 1
    requires Holds(t, moved) && moved.fd == FdOf(p.pollfds[|p.pollfds| - 1]) && i < |p.pollfds| - 1
    ensures var q := SwapAndPop(p, c, idx, moved); PollSlot(q, Changed(t, Remove(c)), i)
  {
    var last := |p.pollfds| - 1;
    assert PollSlot(p, t, i) && PollSlot(p, t, last) && PollEntry(p, t, c.fd) && PollSlot(p, t, idx);
  }

  lemma PollDrops(p: Poll, t: Table, c: Channel)
    requires PollRep(p, t) && PollLegal(t, Remove(c))
    ensures PollRep(PollRemove(p, c), Changed(t, Remove(c)))
  {
    RemoveFinds(p, t, c);
    hide PollRep, PollRemove, Changed, PollLegal;
    var last := |p.pollfds| - 1;
    if p.index[c] == last {
      PollDropsLast(p, t, c);
    } else {
      PollDropsInner(p, t, c, p.index[c], t.entries[FdOf(p.pollfds[last])].c);
    }
  }

  /** What `removeChannel` meets: the channel in its slot, and a registered channel in the last one. */
  lemma RemoveFinds(p: Poll, t: Table, c: Channel)
    requires PollRep(p, t) && PollLegal(t, Remove(c))
    ensures p.Poll? && c in p.index && Holds(t, c) && 0 <= p.index[c] < |p.pollfds|
    ensures var idx, last := p.index[c], |p.pollfds| - 1;
            if idx == last then
              PollRemove(p, c) == p.(channels := p.channels - {c.fd}, pollfds := p.pollfds[..last])
            else
              && FdOf(p.pollfds[last]) in t.entries
              && var moved := t.entries[FdOf(p.pollfds[last])].c;
                 && Holds(t, moved) && moved.fd == FdOf(p.pollfds[last])
                 && PollRemove(p, c) == SwapAndPop(p, c, idx, moved)
  {
    assert PollEntry(p, t, c.fd);
    var idx, last := p.index[c], |p.pollfds| - 1;
    if idx != last {
      assert PollSlot(p, t, last) && PollEntry(p, t, FdOf(p.pollfds[last])) && PollSlot(p, t, idx);
    }
  }

  /** `PollPoller` follows the table, and its assertions fail exactly when a caller does what is not legal. */
  lemma PollFollows(p: Poll, t: Table, op: Op)
    requires PollRep(p, t)
    ensures PollLegal(t, op) ==> PollRep(PollApply(p, op), Changed(t, op))
    ensures PollApply(p, op) == PollCrashed <==> !PollLegal(t, op)
  {
    match op {
      case Update(c, mask) =>
        if Holds(t, c) {
          PollChanges(p, t, c, mask);
        } else if PollLegal(t, op) {
          PollAdds(p, t, c, mask);
        } else if c.fd in t.entries {
          assert PollEntry(p, t, c.fd);
        }
      case Remove(c) =>
        if PollLegal(t, op) {
          PollDrops(p, t, c);
        } else if c.fd in t.entries {
          assert PollEntry(p, t, c.fd);
        }
    }
  }

  /** poll(2) reports hang-ups of every descriptor that is not negative. */
  predicate LookedAt(p: Poll, fd: nat)
    requires p.Poll?
  {
    exists i :: 0 <= i < |p.pollfds| && p.pollfds[i].fd == fd
  }

  /** After an update of a channel that is registered its descriptor is polled exactly when the mask is not empty. */
  lemma PollLists(p: Poll, t: Table, c: Channel, mask: nat)
    requires PollRep(p, t) && Holds(t, c)
    ensures PollUpdate(p, c, mask).Poll? && (LookedAt(PollUpdate(p, c, mask), c.fd) <==> mask != 0)
  {
    assert PollEntry(p, t, c.fd);
    var q, idx := PollUpdate(p, c, mask), p.index[c];
    assert mask != 0 ==> q.pollfds[idx].fd == c.fd;
    forall i | 0 <= i < |q.pollfds| && i != idx
      ensures q.pollfds[i].fd != c.fd
    {
      assert PollSlot(p, t, i);
    }
  }

  // EPollPoller.

  const K_NEW := -1
  const K_ADDED := 1
  const K_DELETED := 2

  /** `kernel` is the interest list that epoll_ctl(2) edits. A failed assertion, or an error that the source takes
      as fatal, makes the poller `EPollCrashed`. */
  datatype EPoll = EPollCrashed
    | EPoll(channels: map<nat, Channel>, events: map<Channel, nat>, index: map<Channel, int>,
        kernel: map<nat, (Channel, nat)>)

  function EPollUpdate(e: EPoll, c: Channel, mask: nat): EPoll
    requires e.EPoll?
  {
    var f, index := e.(events := e.events[c := mask]), IndexOf(e.index, c);
    if index == K_NEW || index == K_DELETED then
      if index == K_NEW && c.fd in e.channels then EPollCrashed
      else if index == K_DELETED && (c.fd !in e.channels || e.channels[c.fd] != c) then EPollCrashed
      else if c.fd in e.kernel then EPollCrashed
      else f.(channels := e.channels[c.fd := c], index := e.index[c := K_ADDED], kernel := e.kernel[c.fd := (c, mask)])
    else if c.fd !in e.channels || e.channels[c.fd] != c || index != K_ADDED then EPollCrashed
    else if mask == 0 then f.(kernel := e.kernel - {c.fd}, index := e.index[c := K_DELETED])
    else if c.fd !in e.kernel then EPollCrashed
    else f.(kernel := e.kernel[c.fd := (c, mask)])
  }

  function EPollRemove(e: EPoll, c: Channel): EPoll
    requires e.EPoll?
  {
    var index := IndexOf(e.index, c);
    if c.fd !in e.channels || e.channels[c.fd] != c || c !in e.events || e.events[c] != 0 then EPollCrashed
    else if index != K_ADDED && index != K_DELETED then EPollCrashed
    else
      e.(channels := e.channels - {c.fd}, kernel := if index == K_ADDED then e.kernel - {c.fd}
          else e.kernel, index := e.index[c := K_NEW])
  }

  function EPollApply(e: EPoll, op: Op): EPoll
    requires e.EPoll?
  {
    match op
    case Update(c, mask) => EPollUpdate(e, c, mask)
    case Remove(c) => EPollRemove(e, c)
  }

  function EPollWatches(e: EPoll): set<(nat, nat)>
    requires e.EPoll?
  {
    set fd | fd in e.kernel && e.kernel[fd].1 != 0 :: (fd, e.kernel[fd].1)
  }

  predicate EPollEntry(e: EPoll, t: Table, fd: nat)
    requires e.EPoll? && fd in t.entries && fd in e.channels
  {
    var r := t.entries[fd];
    && r.c.fd == fd && e.channels[fd] == r.c
    && r.c in e.events && e.events[r.c] == r.mask
    && r.c in e.index && (e.index[r.c] == K_ADDED || (e.index[r.c] == K_DELETED && r.mask == 0))
    && (fd in e.kernel <==> e.index[r.c] == K_ADDED)
    && (fd in e.kernel ==> e.kernel[fd] == (r.c, r.mask))
  }

  /** A registered descriptor is in the kernel's list, with its channel and last mask, exactly when its index says
      so. */
  predicate EPollRep(e: EPoll, t: Table) {
    && e.EPoll?
    && e.channels.Keys == t.entries.Keys && e.kernel.Keys <= t.entries.Keys
    && (forall fd :: fd in t.entries ==> EPollEntry(e, t, fd))
    && (forall c :: c in e.index && !Holds(t, c) ==> e.index[c] == K_NEW)
  }

  lemma EPollWatchesTheTable(e: EPoll, t: Table)
    requires EPollRep(e, t)
    ensures EPollWatches(e) == Interests(t)
  {
    forall x
      ensures x in EPollWatches(e) <==> x in Interests(t)
    {
      if x.0 in t.entries {
        assert EPollEntry(e, t, x.0);
      }
    }
  }

  /** The kernel reports hang-ups of what is on its list, whatever the mask. An update with an empty mask takes a
      descriptor off the list, or puts it on when it is not there. */
  lemma EPollLists(e: EPoll, t: Table, c: Channel, mask: nat)
    requires EPollRep(e, t) && EPollLegal(t, Update(c, mask))
    ensures EPollUpdate(e, c, mask).EPoll?
    ensures c.fd in EPollUpdate(e, c, mask).kernel <==> mask != 0 || c.fd !in e.kernel
  {
    if c.fd in t.entries {
      assert EPollEntry(e, t, c.fd);
    }
  }

  lemma EPollUpdatesEntry(e: EPoll, t: Table, c: Channel, mask: nat, fd: nat)
    requires EPollRep(e, t) && EPollLegal(t, Update(c, mask)) && (fd in t.entries || fd == c.fd)
    ensures var f := EPollUpdate(e, c, mask);
            f.EPoll? && fd in f.channels && EPollEntry(f, Changed(t, Update(c, mask)), fd)
  {
    if c.fd in t.entries {
      assert EPollEntry(e, t, c.fd);
    }
    if fd != c.fd {
      assert EPollEntry(e, t, fd);
    }
  }

  lemma EPollUpdatesRest(e: EPoll, t: Table, c: Channel, mask: nat)
    requires EPollRep(e, t) && EPollLegal(t, Update(c, mask))
    ensures var f, u := EPollUpdate(e, c, mask), Changed(t, Update(c, mask));
            && f.EPoll? && f.channels.Keys == u.entries.Keys && f.kernel.Keys <= u.entries.Keys
            && forall d :: d in f.index && !Holds(u, d) ==> f.index[d] == K_NEW
  {
    if c.fd in t.entries {
      assert EPollEntry(e, t, c.fd);
    }
    hide EPollEntry;
  }

  lemma EPollUpdates(e: EPoll, t: Table, c: Channel, mask: nat)
    requires EPollRep(e, t) && EPollLegal(t, Update(c, mask))
    ensures EPollRep(EPollUpdate(e, c, mask), Changed(t, Update(c, mask)))
  {
    hide EPollEntry, EPollUpdate;
    EPollUpdatesRest(e, t, c, mask);
    forall fd | fd in Changed(t, Update(c, mask)).entries
      ensures fd in EPollUpdate(e, c, mask).channels
          && EPollEntry(EPollUpdate(e, c, mask), Changed(t, Update(c, mask)), fd)
    {
      EPollUpdatesEntry(e, t, c, mask, fd);
    }
  }

  lemma EPollRemoves(e: EPoll, t: Table, c: Channel)
    requires EPollRep(e, t) && EPollLegal(t, Remove(c))
    ensures EPollRep(EPollRemove(e, c), Changed(t, Remove(c)))
  {
    var f, u := EPollRemove(e, c), Changed(t, Remove(c));
    assert EPollEntry(e, t, c.fd);
    forall fd | fd in u.entries
      ensures fd in f.channels && EPollEntry(f, u, fd)
    {
      assert EPollEntry(e, t, fd);
    }
  }

  /** `EPollPoller` follows the table, and fails exactly when a caller does what is not legal. */
  lemma EPollFollows(e: EPoll, t: Table, op: Op)
    requires EPollRep(e, t)
    ensures EPollLegal(t, op) ==> EPollRep(EPollApply(e, op), Changed(t, op))
    ensures EPollApply(e, op) == EPollCrashed <==> !EPollLegal(t, op)
  {
    if EPollLegal(t, op) {
      match op {
        case Update(c, mask) => EPollUpdates(e, t, c, mask);
        case Remove(c) => EPollRemoves(e, t, c);
      }
    } else if op.c.fd in t.entries {
      assert EPollEntry(e, t, op.c.fd);
    }
  }

  // Both, over runs.

  datatype Both = Both(table: Table, poll: Poll, epoll: EPoll)

  function Start(): Both {
    Both(Table(map[], {}), Poll(map[], map[], map[], []), EPoll(map[], map[], map[], map[]))
  }

  function NextBoth(b: Both, op: Op): Option<Both> {
    if PollLegal(b.table, op) && b.poll.Poll? && b.epoll.EPoll? then
      Some(Both(Changed(b.table, op), PollApply(b.poll, op), EPollApply(b.epoll, op)))
    else None
  }

  predicate Agree(b: Both) {
    PollRep(b.poll, b.table) && EPollRep(b.epoll, b.table)
  }

  /** What the last operation on a descriptor left there: a channel and its mask, unless it was a removal. */
  function Standing(ops: seq<Op>, fd: nat): Option<(Channel, nat)> {
    if ops == [] then None
    else
      var op := ops[|ops| - 1];
      if op.c.fd != fd then Standing(ops[..|ops| - 1], fd)
      else match op
        case Update(c, mask) => Some((c, mask))
        case Remove(_) => None
  }

  predicate Wanted(ops: seq<Op>, fd: nat, mask: nat) {
    mask != 0 && Standing(ops, fd).Some? && Standing(ops, fd).value.1 == mask
  }

  lemma {:induction false} TableStands(ops: seq<Op>, fd: nat)
    requires Run(NextBoth, Start(), ops).Some?
    ensures var entries := Run(NextBoth, Start(), ops).value.table.entries;
            Standing(ops, fd) == if fd in entries then Some((entries[fd].c, entries[fd].mask)) else None
    decreases |ops|
  {
    hide PollRep, EPollRep, PollApply, EPollApply, PollLegal;
    if ops != [] {
      LastOfRun(NextBoth, Start(), ops);
      TableStands(ops[..|ops| - 1], fd);
    }
  }

  lemma InterestsAreWanted(ops: seq<Op>, fd: nat, mask: nat)
    requires Run(NextBoth, Start(), ops).Some?
    ensures (fd, mask) in Interests(Run(NextBoth, Start(), ops).value.table) <==> Wanted(ops, fd, mask)
  {
    TableStands(ops, fd);
    hide Run, Standing;
  }

  /** After any legal sequence of updates and removals the two pollers watch the same descriptors with the same
      masks: those that the last operation on each descriptor asked for. */
  lemma BothPollersFollow(ops: seq<Op>)
    requires Run(NextBoth, Start(), ops).Some?
    ensures var b := Run(NextBoth, Start(), ops).value;
            && b.poll.Poll? && b.epoll.EPoll?
            && PollWatches(b.poll) == Interests(b.table) == EPollWatches(b.epoll)
            && forall fd: nat, mask: nat :: (fd, mask) in PollWatches(b.poll) <==> Wanted(ops, fd, mask)
  {
    hide Run, PollRep, EPollRep, PollApply, EPollApply;
    forall b, op | Agree(b) && NextBoth(b, op).Some?
      ensures Agree(NextBoth(b, op).value)
    {
      PollFollows(b.poll, b.table, op);
      EPollFollows(b.epoll, b.table, op);
    }
    StartAgrees();
    KeptByRuns(NextBoth, Agree, Start(), ops);
    var b := Run(NextBoth, Start(), ops).value;
    PollWatchesTheTable(b.poll, b.table);
    EPollWatchesTheTable(b.epoll, b.table);
    RepsAreUp(b);
    hide PollWatches, EPollWatches, Interests, Wanted;
    forall fd: nat, mask: nat
      ensures (fd, mask) in Interests(b.table) <==> Wanted(ops, fd, mask)
    {
      InterestsAreWanted(ops, fd, mask);
    }
  }

  lemma StartAgrees()
    ensures Agree(Start())
  {
  }

  lemma RepsAreUp(b: Both)
    requires Agree(b)
    ensures b.poll.Poll? && b.epoll.EPoll?
  {
  }

  // The objects.

  /** A channel that the poller reports, with the events that happened. */
  datatype Active = Active(c: Channel, revents: int)

  /** Whatever poll(2) marked belongs to a registered channel. */
  predicate AllKnown(p: Poll)
    requires p.Poll?
  {
    forall i :: 0 <= i < |p.pollfds| && p.pollfds[i].revents > 0 ==> p.pollfds[i].fd in p.channels
  }

  /** The slots that poll(2) marked, as the channels they belong to. */
  function ActiveOf(p: Poll, n: nat): seq<Active>
    requires p.Poll? && n <= |p.pollfds| && AllKnown(p)
  {
    if n == 0 then []
    else
      var x := p.pollfds[n - 1];
      ActiveOf(p, n - 1) + if x.revents > 0 then [Active(p.channels[x.fd], x.revents)] else []
  }

  function Marked(pollfds: seq<PollFd>): nat {
    if pollfds == [] then 0 else Marked(pollfds[..|pollfds| - 1]) + if pollfds[|pollfds| - 1].revents > 0 then 1 else 0
  }

  /** A poll fills in the events that happened, and those of negative descriptors are none. */
  predicate Polled(p: Poll, q: Poll) {
    && p.Poll? && q.Poll? && q.channels == p.channels && q.events == p.events && q.index == p.index
    && |q.pollfds| == |p.pollfds|
    && forall i :: 0 <= i < |p.pollfds| ==>
         && q.pollfds[i].fd == p.pollfds[i].fd && q.pollfds[i].events == p.pollfds[i].events
         && (q.pollfds[i].fd < 0 ==> q.pollfds[i].revents == 0)
  }

  lemma PolledRep(p: Poll, q: Poll, t: Table)
    requires PollRep(p, t) && Polled(p, q)
    ensures PollRep(q, t)
    ensures forall i ::
        0 <= i < |q.pollfds| && q.pollfds[i].revents > 0
        ==> q.pollfds[i].fd in q.channels && q.channels[q.pollfds[i].fd].fd == q.pollfds[i].fd
  {
    forall fd | fd in t.entries
      ensures fd in q.channels && PollEntry(q, t, fd)
    {
      assert PollEntry(p, t, fd);
    }
    forall i | 0 <= i < |q.pollfds|
      ensures PollSlot(q, t, i)
      ensures q.pollfds[i].revents > 0
          ==> q.pollfds[i].fd in q.channels && q.channels[q.pollfds[i].fd].fd == q.pollfds[i].fd
    {
      assert PollSlot(p, t, i) && PollEntry(p, t, FdOf(p.pollfds[i]));
    }
  }

  lemma {:induction false} NoneLeft(pollfds: seq<PollFd>, n: nat)
    requires n <= |pollfds|
    ensures n == 0 ==> Marked(pollfds[..n]) == 0
    ensures Marked(pollfds[..n]) <= Marked(pollfds)
    ensures Marked(pollfds[..n]) == Marked(pollfds) ==> forall i :: n <= i < |pollfds| ==> pollfds[i].revents <= 0
    decreases |pollfds| - n
  {
    if n < |pollfds| {
      assert pollfds[..n + 1][..n] == pollfds[..n];
      NoneLeft(pollfds, n + 1);
    } else {
      assert pollfds[..n] == pollfds;
    }
  }

  lemma {:induction false} NoMoreActive(p: Poll, n: nat)
    requires p.Poll? && n <= |p.pollfds| && forall i :: n <= i < |p.pollfds| ==> p.pollfds[i].revents <= 0
    requires AllKnown(p)
    ensures ActiveOf(p, n) == ActiveOf(p, |p.pollfds|)
    decreases |p.pollfds| - n
  {
    if n < |p.pollfds| {
      NoMoreActive(p, n + 1);
      assert ActiveOf(p, n + 1) == ActiveOf(p, n);
    }
  }

  lemma OneMoreSlot(p: Poll, i: nat)
    requires p.Poll? && i < |p.pollfds| && AllKnown(p)
    ensures Marked(p.pollfds[..i]) <= Marked(p.pollfds[..i + 1]) <= Marked(p.pollfds)
    ensures if p.pollfds[i].revents > 0 then
              && Marked(p.pollfds[..i + 1]) == Marked(p.pollfds[..i]) + 1
              && ActiveOf(p, i + 1) == ActiveOf(p, i) + [Active(p.channels[p.pollfds[i].fd], p.pollfds[i].revents)]
            else Marked(p.pollfds[..i + 1]) == Marked(p.pollfds[..i]) && ActiveOf(p, i + 1) == ActiveOf(p, i)
  {
    assert p.pollfds[..i + 1][..i] == p.pollfds[..i];
    NoneLeft(p.pollfds, i + 1);
  }

  /** The marked slots are reported one by one, in their order. */
  lemma {:induction false} ReportedInOrder(p: Poll, n: nat, i: nat)
    requires p.Poll? && n <= |p.pollfds| && AllKnown(p)
    ensures |ActiveOf(p, n)| == Marked(p.pollfds[..n])
    ensures i < n && p.pollfds[i].revents > 0 ==>
              var k := Marked(p.pollfds[..i]);
              && k < |ActiveOf(p, n)|
              && ActiveOf(p, n)[k] == Active(p.channels[p.pollfds[i].fd], p.pollfds[i].revents)
    decreases n
  {
    if n > 0 {
      ReportedInOrder(p, n - 1, i);
      assert p.pollfds[..n][..n - 1] == p.pollfds[..n - 1];
    }
  }

  lemma {:induction false} ReportedIsMarked(p: Poll, n: nat, a: Active)
    requires p.Poll? && n <= |p.pollfds| && AllKnown(p)
    ensures a in ActiveOf(p, n) <==> exists i ::
        0 <= i < n && p.pollfds[i].revents == a.revents > 0 && p.channels[p.pollfds[i].fd] == a.c
    decreases n
  {
    if n > 0 {
      ReportedIsMarked(p, n - 1, a);
    }
  }

  /** A registered channel is reported exactly when poll(2) marked its slot, with the events found there, and nobody
      else is. */
  lemma ReportedExactly(before: Poll, p: Poll, t: Table, a: Active)
    requires PollRep(before, t) && Polled(before, p) && AllKnown(p)
    ensures a in ActiveOf(p, |p.pollfds|)
        <==> Holds(t, a.c) && p.pollfds[p.index[a.c]].revents == a.revents > 0
  {
    PolledRep(before, p, t);
    ReportedIsMarked(p, |p.pollfds|, a);
    if Holds(t, a.c) {
      assert PollEntry(p, t, a.c.fd);
    }
    forall i | 0 <= i < |p.pollfds| && p.pollfds[i].revents > 0
      ensures Holds(t, p.channels[p.pollfds[i].fd]) && p.index[p.channels[p.pollfds[i].fd]] == i
    {
      assert PollSlot(p, t, i) && PollEntry(p, t, FdOf(p.pollfds[i]));
    }
  }

  class PollPoller {
    var channels: map<nat, Channel>
    var events: map<Channel, nat>
    var index: map<Channel, int>
    var pollfds: seq<PollFd>

    function Now(): Poll
      reads this
    {
      Poll(channels, events, index, pollfds)
    }

    constructor ()
      ensures Now() == Start().poll
    {
      channels, events, index, pollfds := map[], map[], map[], [];
    }

    method UpdateChannel(c: Channel, mask: nat, ghost t: Table)
      requires PollRep(Now(), t) && PollLegal(t, Update(c, mask))
      modifies this
      ensures Now() == PollUpdate(old(Now()), c, mask) && PollRep(Now(), Changed(t, Update(c, mask)))
    {
      hide PollRep, PollLegal;
      PollFollows(Now(), t, Update(c, mask));
      events := events[c := mask];
      if IndexOf(index, c) < 0 {
        assert c.fd !in channels;
        pollfds := pollfds + [PollFd(c.fd, mask, 0)];
        index := index[c := |pollfds| - 1];
        channels := channels[c.fd := c];
      } else {
        assert c.fd in channels && channels[c.fd] == c;
        var idx := index[c];
        assert 0 <= idx < |pollfds|;
        assert pollfds[idx].fd == c.fd || pollfds[idx].fd == Ignored(c.fd);
        var pfd := PollFd(c.fd, mask, 0);
        if mask == 0 {
          pfd := pfd.(fd := Ignored(c.fd));
        }
        pollfds := pollfds[idx := pfd];
      }
    }

    /** The slot at the end takes the place of slot `idx`. */
    method SwapWithLast(idx: nat)
      requires idx < |pollfds| - 1 && FdOf(pollfds[|pollfds| - 1]) in channels
      modifies this`pollfds, this`index
      ensures pollfds == old(pollfds)[idx := old(pollfds)[|old(pollfds)| - 1]][..|old(pollfds)| - 1]
      ensures index == old(index)[channels[FdOf(old(pollfds)[|old(pollfds)| - 1])] := idx]
    {
      var channelAtEnd := pollfds[|pollfds| - 1].fd;
      pollfds := pollfds[idx := pollfds[|pollfds| - 1]][|pollfds| - 1 := pollfds[idx]];
      if channelAtEnd < 0 {
        channelAtEnd := -channelAtEnd - 1;
      }
      index := index[channels[channelAtEnd] := idx];
      pollfds := pollfds[..|pollfds| - 1];
    }

    method RemoveChannel(c: Channel, ghost t: Table)
      requires PollRep(Now(), t) && PollLegal(t, Remove(c))
      modifies this
      ensures Now() == PollRemove(old(Now()), c) && PollRep(Now(), Changed(t, Remove(c)))
    {
      hide PollRep, PollLegal;
      PollFollows(Now(), t, Remove(c));
      assert c.fd in channels && channels[c.fd] == c && events[c] == 0;
      var idx := index[c];
      assert 0 <= idx < |pollfds|;
      assert pollfds[idx].fd == Ignored(c.fd) && pollfds[idx].events == events[c];
      channels := channels - {c.fd};
      if idx == |pollfds| - 1 {
        pollfds := pollfds[..|pollfds| - 1];
      } else {
        SwapWithLast(idx);
      }
    }

    /** `fillActiveChannels` after a poll that marked `numEvents` slots: exactly the channels of those slots, in
        order. */
    method FillActiveChannels(numEvents: nat, ghost before: Poll, ghost t: Table) returns (activeChannels: seq<Active>)
      requires PollRep(before, t) && Polled(before, Now()) && numEvents == Marked(pollfds)
      ensures PollRep(Now(), t)
      ensures AllKnown(Now()) && activeChannels == ActiveOf(Now(), |pollfds|)
    {
      PolledRep(before, Now(), t);
      NoneLeft(pollfds, 0);
      assert ActiveOf(Now(), 0) == [];
      hide PollRep, Polled, Marked, ActiveOf;
      activeChannels := [];
      var left, i := numEvents, 0;
      while i < |pollfds| && left > 0
        invariant i <= |pollfds| && left == numEvents - Marked(pollfds[..i])
        invariant activeChannels == ActiveOf(Now(), i)
      {
        OneMoreSlot(Now(), i);
        var pfd := pollfds[i];
        if pfd.revents > 0 {
          left := left - 1;
          assert pfd.fd in channels && channels[pfd.fd].fd == pfd.fd;
          activeChannels := activeChannels + [Active(channels[pfd.fd], pfd.revents)];
        }
        i := i + 1;
      }
      NoneLeft(pollfds, i);
      NoMoreActive(Now(), i);
    }
  }

  class EPollPoller {
    var channels: map<nat, Channel>
    var events: map<Channel, nat>
    var index: map<Channel, int>
    var kernel: map<nat, (Channel, nat)>

    function Now(): EPoll
      reads this
    {
      EPoll(channels, events, index, kernel)
    }

    constructor ()
      ensures Now() == Start().epoll
    {
      channels, events, index, kernel := map[], map[], map[], map[];
    }

    method UpdateChannel(c: Channel, mask: nat, ghost t: Table)
      requires EPollRep(Now(), t) && EPollLegal(t, Update(c, mask))
      modifies this
      ensures Now() == EPollUpdate(old(Now()), c, mask) && EPollRep(Now(), Changed(t, Update(c, mask)))
    {
      hide EPollRep, EPollLegal;
      EPollFollows(Now(), t, Update(c, mask));
      events := events[c := mask];
      var was := IndexOf(index, c);
      if was == K_NEW || was == K_DELETED {
        if was == K_NEW {
          assert c.fd !in channels;
          channels := channels[c.fd := c];
        } else {
          assert c.fd in channels && channels[c.fd] == c;
        }
        index := index[c := K_ADDED];
        kernel := kernel[c.fd := (c, mask)];
      } else {
        assert c.fd in channels && channels[c.fd] == c && was == K_ADDED;
        if mask == 0 {
          kernel := kernel - {c.fd};
          index := index[c := K_DELETED];
        } else {
          kernel := kernel[c.fd := (c, mask)];
        }
      }
    }

    method RemoveChannel(c: Channel, ghost t: Table)
      requires EPollRep(Now(), t) && EPollLegal(t, Remove(c))
      modifies this
      ensures Now() == EPollRemove(old(Now()), c) && EPollRep(Now(), Changed(t, Remove(c)))
    {
      EPollFollows(Now(), t, Remove(c));
      hide EPollRep, EPollLegal;
      assert c.fd in channels && channels[c.fd] == c && events[c] == 0;
      var was := IndexOf(index, c);
      assert was == K_ADDED || was == K_DELETED;
      channels := channels - {c.fd};
      if was == K_ADDED {
        kernel := kernel - {c.fd};
      }
      index := index[c := K_NEW];
    }
  }
}
