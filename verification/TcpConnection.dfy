/** The life of one connection in muduo/net/TcpConnection.cc, with its channel and what the poller makes of the
    channel's interest. What the socket answers and what a poll reports is a free choice of the environment. */
module TcpConnections {
  import opened Machines
  import opened Streams

  type Thread = nat

  datatype StateE = Connecting | Connected | Disconnecting | Disconnected

  /** The answer to a write: so many bytes taken, none for now, or an error, fatal to sending (EPIPE, ECONNRESET) or
      not. */
  datatype WriteResult = Wrote(n: nat) | WouldBlock | Failed(fault: bool)

  datatype ReadResult = Input | Eof | ReadError

  /** What waits in the queue of the loop. */
  datatype Task = SendTask(m: Bytes) | ShutdownTask | ForceCloseTask | WriteComplete | HighWater(size: nat)

  /** What became of a message that reached `sendInLoop`. */
  datatype Sent = Taken(m: Bytes) | Faulted(m: Bytes) | GivenUp(m: Bytes)

  /** Whether the write side was shut down, and if so whether the connection was still up. */
  datatype HalfClose = NotYet | WhileUp | AfterClose

  datatype PollerKind = UsesPoll | UsesEPoll

  /** What the last poll reported of the channel and has not been handled: input, or a hang-up without input. */
  datatype Due = Nothing | Incoming | HungUp

  /** `listed` says that the kernel reports hang-ups of the descriptor, `added` that the channel has been updated
      since it was made or removed, `destroyed` that `connectDestroyed` has removed it. */
  datatype State = Crashed
    | State(poller: PollerKind, state: StateE, wantRead: bool, wantWrite: bool, reading: bool, listed: bool,
            added: bool, due: Due, output: Bytes, tasks: seq<Task>, mark: nat, destroyed: bool, halfClose: HalfClose,
            socket: Bytes, log: seq<Sent>, checked: set<Thread>, delayed: nat, ups: nat, downs: nat, closes: nat)

  /** A step of the loop thread or of another thread; the latter may only send, shut down and force a close. Reports
      of a poll are handled before tasks run and before the next poll. `Release` is the destructor. */
  datatype Step =
    | Establish
    | Send(m: Bytes, w: WriteResult)
    | CheckConnected(t: Thread)
    | QueueSend(t: Thread, m: Bytes)
    | Shutdown(inLoopThread: bool)
    | ForceClose
    | ForceCloseWithDelay
    | DelayIsOver
    | RunTask(w: WriteResult)
    | Poll(d: Due)
    | Readable(r: ReadResult)
    | Writable(w: WriteResult)
    | HangUp
    | StartRead
    | StopRead
    | Destroy
    | Release

  function Initial(poller: PollerKind, mark: nat): State {
    State(poller, Connecting, false, false, true, false, false, Nothing, [], [], mark, false, NotYet, [], [], {}, 0,
          0, 0, 0)
  }

  predicate Up(s: State)
    requires s.State?
  {
    s.state.Connected? || s.state.Disconnecting?
  }

  /** A socket takes at most what it is given, and nothing after its write side was shut down. */
  predicate Possible(s: State, size: nat, w: WriteResult)
    requires s.State?
  {
    if s.halfClose.NotYet? then w.Wrote? ==> w.n <= size else w == Failed(true)
  }

  /** `Channel::update` with a new mask. With epoll, an update of a descriptor that is not listed lists it, even with
      an empty mask; with poll, an empty mask makes the descriptor be ignored, and a channel that was removed fails an
      assertion (`EPollLists`, `PollLists` and `PollFollows` of module `Pollers`). */
  function Update(s: State, wantRead: bool, wantWrite: bool): State
    requires s.State?
  {
    if s.destroyed && s.poller.UsesPoll? then Crashed
    else s.(wantRead := wantRead, wantWrite := wantWrite, added := true,
            listed := wantRead || wantWrite || (s.poller.UsesEPoll? && !s.listed))
  }

  // The handlers.

  predicate WritesDirectly(s: State)
    requires s.State?
  {
    !s.wantWrite && s.output == []
  }

  function SendInLoop(s: State, m: Bytes, w: WriteResult): State
    requires s.State? && Possible(s, |m|, w)
  {
    if s.state.Disconnected? then s.(log := s.log + [GivenUp(m)])
    else
      var direct := WritesDirectly(s);
      var nwrote := if direct && w.Wrote? then w.n else 0;
      var remaining := |m| - nwrote;
      var faultError := direct && w.Failed? && w.fault;
      var t := s.(socket := s.socket + m[..nwrote],
                  tasks := s.tasks + if direct && w.Wrote? && remaining == 0 then [WriteComplete] else [],
                  log := s.log + [if faultError then Faulted(m) else Taken(m)]);
      if !faultError && remaining > 0 then
        var u := t.(tasks := t.tasks + if |s.output| + remaining >= s.mark && |s.output| < s.mark then
                        [HighWater(|s.output| + remaining)] else [],
                    output := s.output + m[nwrote..]);
        if s.wantWrite then u else Update(u, s.wantRead, true)
      else t
  }

  function ShutdownInLoop(s: State): State
    requires s.State?
  {
    if !s.wantWrite && s.halfClose.NotYet? then s.(halfClose := if Up(s) then WhileUp else AfterClose) else s
  }

  function HandleWrite(s: State, w: WriteResult): State
    requires s.State? && Possible(s, |s.output|, w)
  {
    if s.wantWrite && w.Wrote? && w.n > 0 then
      var t := s.(socket := s.socket + s.output[..w.n], output := s.output[w.n..]);
      if t.output == [] then
        var u := Update(t.(tasks := t.tasks + [WriteComplete]), t.wantRead, false);
        if u.State? && s.state.Disconnecting? then ShutdownInLoop(u) else u
      else t
    else s
  }

  function HandleClose(s: State): State
    requires s.State?
  {
    if !Up(s) then Crashed
    else Update(s.(state := Disconnected, downs := s.downs + 1, closes := s.closes + 1), false, false)
  }

  function ForceCloseIt(s: State): State
    requires s.State?
  {
    if Up(s) then s.(state := Disconnecting, tasks := s.tasks + [ForceCloseTask]) else s
  }

  function Run1(s: State, task: Task, w: WriteResult): State
    requires s.State? && (task.SendTask? ==> Possible(s, |task.m|, w))
  {
    match task
    case SendTask(m) => SendInLoop(s, m, w)
    case ShutdownTask => ShutdownInLoop(s)
    case ForceCloseTask => if Up(s) then HandleClose(s) else s
    case _ => s
  }

  function Apply(s: State, step: Step): State
    requires s.State? && Enabled(s, step)
  {
    match step
    case Establish => Update(s.(state := Connected, ups := s.ups + 1), true, s.wantWrite)
    case Send(m, w) => if s.state.Connected? then SendInLoop(s, m, w) else s
    case CheckConnected(t) => if s.state.Connected? then s.(checked := s.checked + {t}) else s
    case QueueSend(t, m) => s.(checked := s.checked - {t}, tasks := s.tasks + [SendTask(m)])
    case Shutdown(here) =>
      if s.state.Connected? then
        var t := s.(state := Disconnecting);
        if here then ShutdownInLoop(t) else t.(tasks := t.tasks + [ShutdownTask])
      else s
    case ForceClose => ForceCloseIt(s)
    case ForceCloseWithDelay => if Up(s) then s.(state := Disconnecting, delayed := s.delayed + 1) else s
    case DelayIsOver => ForceCloseIt(s.(delayed := s.delayed - 1))
    case RunTask(w) => Run1(s.(tasks := s.tasks[1..]), s.tasks[0], w)
    case Poll(d) => s.(due := d)
    case Readable(r) => var t := s.(due := Nothing); if r.Eof? then HandleClose(t) else t
    case Writable(w) => HandleWrite(s, w)
    case HangUp => HandleClose(s.(due := Nothing))
    case StartRead => if !s.reading || !s.wantRead then Update(s.(reading := true), true, s.wantWrite) else s
    case StopRead => if s.reading || s.wantRead then Update(s.(reading := false), false, s.wantWrite) else s
    case Destroy =>
      var t := if s.state.Connected? then Update(s.(state := Disconnected, downs := s.downs + 1), false, false) else s;
      if t.Crashed? || t.wantRead || t.wantWrite then Crashed
      else t.(destroyed := true, listed := false, added := false)
    case Release => if s.state.Disconnected? && !s.added then s else Crashed
  }

  predicate Enabled(s: State, step: Step)
    requires s.State?
  {
    match step
    case Establish => s.state.Connecting?
    case Send(m, w) => Possible(s, |m|, w)
    case CheckConnected(t) => t !in s.checked
    case QueueSend(t, m) => t in s.checked
    case Shutdown(here) => true
    case ForceClose => true
    case ForceCloseWithDelay => true
    case DelayIsOver => s.delayed > 0
    case RunTask(w) => s.due.Nothing? && s.tasks != [] && (s.tasks[0].SendTask? ==> Possible(s, |s.tasks[0].m|, w))
    case Poll(d) => s.due.Nothing? && (d.Incoming? ==> s.wantRead) && (d.HungUp? ==> s.listed)
    case Readable(r) => s.due.Incoming?
    case Writable(w) => s.due.Nothing? && (s.wantWrite || !s.destroyed) && Possible(s, |s.output|, w)
    case HangUp => s.due.HungUp?
    case StartRead => !s.state.Connecting?
    case StopRead => !s.state.Connecting?
    case Destroy => !s.state.Connecting? && !s.destroyed && s.due.Nothing?
    case Release => s.destroyed && s.due.Nothing?
  }

  /** Steps that nobody calls for: the loop, the kernel, timers, and the end of the last pointer. */
  predicate Own(step: Step) {
    || step.RunTask? || step.DelayIsOver? || step.Poll? || step.Readable? || step.Writable? || step.HangUp?
    || step.Release?
  }

  /** A forced close is on its way. */
  predicate Forced(s: State)
    requires s.State?
  {
    ForceCloseTask in s.tasks || s.delayed > 0
  }

  /** With epoll and reading off, the connection may be closed when its channel waits for nothing: by the report at
      hand, or by the forced close if no hang-up comes first. That close puts the descriptor back on the list. */
  predicate Doomed(s: State)
    requires s.State?
  {
    && s.poller.UsesEPoll? && Up(s) && !s.wantRead
    && ((!s.due.Nothing? && !s.wantWrite) || (!s.due.HungUp? && Forced(s)))
  }

  /** What a caller has to keep. Reading is not switched on after the end, and off only if the poller is told nothing
      new by that; the connection is not destroyed while it is being shut down; and with epoll reading is on around
      a forced close, and stays on while a report waits and there is nothing to write. */
  predicate Tidy(s: State, step: Step)
    requires s.State?
  {
    match step
    case StartRead => !s.state.Disconnected?
    case StopRead =>
      if s.state.Disconnected? then s.reading ==> s.poller.UsesPoll? && !s.destroyed
      else
        s.poller.UsesPoll? || if s.due.HungUp? then s.wantWrite else !Forced(s) && (s.due.Incoming? ==> s.wantWrite)
    case ForceClose => s.poller.UsesPoll? || !Up(s) || s.wantRead || s.due.HungUp?
    case ForceCloseWithDelay => s.poller.UsesPoll? || !Up(s) || s.wantRead || s.due.HungUp?
    case Destroy => !s.state.Disconnecting?
    case _ => true
  }

  function Next(s: State, step: Step): Option<State> {
    if s.State? && Enabled(s, step) then Some(Apply(s, step)) else None
  }

  function NextTidy(s: State, step: Step): Option<State> {
    if s.State? && Tidy(s, step) then Next(s, step) else None
  }

  // What every step keeps.

  function TakenBytes(log: seq<Sent>): Bytes {
    if log == [] then []
    else
      var e := log[|log| - 1];
      TakenBytes(log[..|log| - 1]) + if e.Taken? then e.m else []
  }

  lemma TakenAppend(log: seq<Sent>, e: Sent)
    ensures TakenBytes(log + [e]) == TakenBytes(log) + if e.Taken? then e.m else []
  {
    assert (log + [e])[..|log|] == log;
  }

  /** Nothing is lost, duplicated or reordered on the way to the socket. */
  predicate Conserved(s: State) {
    s.State? && s.socket + s.output == TakenBytes(s.log)
  }

  /** While the connection is up the channel waits to write exactly when there is something to write. */
  predicate Interest(s: State) {
    && s.State?
    && (s.state.Disconnected? ==> !s.wantRead && !s.wantWrite)
    && (!s.state.Disconnected? ==> (s.wantWrite <==> s.output != []))
    && (s.state.Connecting?
        ==> s.output == [] && s.tasks == [] && s.checked == {} && s.delayed == 0 && !s.wantRead && s.halfClose.NotYet?)
  }

  /** A half-close issued while the connection is up finds everything flushed, and nothing comes after it. */
  predicate Flushed(s: State) {
    && s.State?
    && (s.halfClose.WhileUp? ==> s.output == [])
    && (s.halfClose.AfterClose? ==> s.state.Disconnected?)
    && (s.state.Connected? ==> s.halfClose.NotYet?)
  }

  /** A connection that is to be closed and has nothing left to write is half closed, or will be by a task at hand. */
  predicate Closing(s: State) {
    && s.State?
    && (ShutdownTask in s.tasks ==> !s.state.Connected?)
    && (s.state.Disconnecting? && s.output == [] ==>
          !s.halfClose.NotYet? || ShutdownTask in s.tasks || ForceCloseTask in s.tasks || s.delayed > 0)
  }

  /** The user sees the connection come up once and go down once, and its owner is told at most once. */
  predicate Announced(s: State) {
    && s.State?
    && s.ups == (if s.state.Connecting? then 0 else 1)
    && s.downs == (if s.state.Disconnected? then 1 else 0)
    && s.closes <= s.downs
  }

  /** While the connection is up the descriptor is listed exactly when the channel waits for something; afterwards it
      is not listed, and nothing is reported of it. */
  predicate Listing(s: State) {
    && s.State?
    && (s.destroyed ==> s.state.Disconnected? && !s.added)
    && (s.state.Connecting? ==> s.reading)
    && (Up(s) ==> (s.reading <==> s.wantRead))
    && (if Up(s) then s.listed <==> s.wantRead || s.wantWrite else !s.listed && s.due.Nothing?)
  }

  /** What holds whatever becomes of a forced close. */
  predicate Sound(s: State) {
    Conserved(s) && Interest(s) && Flushed(s) && Closing(s) && Announced(s) && Listing(s)
  }

  predicate Inv(s: State) {
    Sound(s) && !Doomed(s)
  }

  lemma SplitSend(socket: Bytes, output: Bytes, m: Bytes, n: nat)
    requires n <= |m| && (n == 0 || output == [])
    ensures (socket + m[..n]) + (output + m[n..]) == (socket + output) + m
    ensures n == |m| ==> (socket + m[..n]) + output == (socket + output) + m
  {
  }

  /** What a send adds to socket and buffer is its message, unless the message is lost altogether. */
  lemma SendConserves(s: State, m: Bytes, w: WriteResult)
    requires Conserved(s) && Listing(s) && Possible(s, |m|, w)
    ensures Conserved(SendInLoop(s, m, w))
  {
    hide TakenBytes;
    TakenAppend(s.log, Taken(m));
    TakenAppend(s.log, Faulted(m));
    TakenAppend(s.log, GivenUp(m));
    SplitSend(s.socket, s.output, m, if WritesDirectly(s) && w.Wrote? then w.n else 0);
    assert TakenBytes(s.log) + [] == TakenBytes(s.log);
    assert s.socket + m[..0] == s.socket;
  }

  lemma SendOutput(s: State, m: Bytes, w: WriteResult)
    requires Interest(s) && Flushed(s) && Listing(s) && !s.state.Connecting? && Possible(s, |m|, w)
    ensures var z := SendInLoop(s, m, w);
            && z.State? && z.state == s.state && z.wantRead == s.wantRead && z.halfClose == s.halfClose
            && z.checked == s.checked
            && z.delayed == s.delayed && z.ups == s.ups && z.downs == s.downs && z.closes == s.closes
            && (s.state.Disconnected? ==> z.wantWrite == s.wantWrite)
            && (!s.state.Disconnected? ==> (z.wantWrite <==> z.output != []))
            && (z.output == [] ==> s.output == [])
            && (z.halfClose.WhileUp? ==> z.output == [])
            && Listing(z) && z.due == s.due && z.poller == s.poller && (s.wantWrite ==> z.wantWrite)
  {
    hide TakenBytes;
  }

  lemma SendTasks(s: State, m: Bytes, w: WriteResult)
    requires Listing(s) && Possible(s, |m|, w)
    ensures var z := SendInLoop(s, m, w);
            && z.State?
            && (ShutdownTask in z.tasks <==> ShutdownTask in s.tasks)
            && (ForceCloseTask in z.tasks <==> ForceCloseTask in s.tasks)
  {
  }

  lemma SendKeeps(s: State, m: Bytes, w: WriteResult)
    requires Inv(s) && !s.state.Connecting? && Possible(s, |m|, w)
    ensures Inv(SendInLoop(s, m, w)) && SendInLoop(s, m, w).state == s.state
  {
    hide TakenBytes, Conserved, SendInLoop;
    SendConserves(s, m, w);
    SendOutput(s, m, w);
    SendTasks(s, m, w);
  }

  lemma ShutdownKeeps(s: State)
    requires Conserved(s) && Interest(s) && Flushed(s) && Announced(s) && Listing(s) && !Doomed(s)
    requires !s.state.Connecting? && !s.state.Connected?
    ensures Inv(ShutdownInLoop(s)) && ShutdownInLoop(s).state == s.state
  {
    hide TakenBytes;
  }

  lemma WriteKeeps(s: State, w: WriteResult)
    requires Inv(s) && Possible(s, |s.output|, w) && s.due.Nothing?
    ensures Inv(HandleWrite(s, w)) && HandleWrite(s, w).state == s.state
  {
    hide TakenBytes;
    if s.wantWrite && w.Wrote? && w.n > 0 {
      assert s.socket + s.output == s.socket + s.output[..w.n] + s.output[w.n..];
      var t := s.(socket := s.socket + s.output[..w.n], output := s.output[w.n..]);
      if t.output == [] {
        var u := Update(t.(tasks := t.tasks + [WriteComplete]), t.wantRead, false);
        if s.state.Disconnecting? {
          ShutdownKeeps(u);
        }
      }
    }
  }

  lemma TaskKeeps(s: State, w: WriteResult)
    requires Inv(s) && s.tasks != [] && Enabled(s, RunTask(w))
    ensures Inv(Apply(s, RunTask(w)))
  {
    var task, t := s.tasks[0], s.(tasks := s.tasks[1..]);
    hide TakenBytes;
    assert s.tasks == [task] + t.tasks;
    match task {
      case SendTask(m) => SendKeeps(t, m, w);
      case ShutdownTask =>
        ShutdownKeeps(t);
      case _ =>
    }
  }

  lemma StepKeeps(s: State, step: Step)
    requires Inv(s) && Enabled(s, step) && Tidy(s, step)
    ensures Inv(Apply(s, step))
  {
    match step {
      case Send(m, w) =>
        if s.state.Connected? {
          SendKeeps(s, m, w);
        }
      case RunTask(w) => TaskKeeps(s, w);
      case Writable(w) => WriteKeeps(s, w);
      case Readable(r) => ReportKeeps(s, step);
      case HangUp => ReportKeeps(s, step);
      case StartRead => InterestKeeps(s, step);
      case StopRead => InterestKeeps(s, step);
      case Destroy => InterestKeeps(s, step);
      case _ => hide TakenBytes, HandleClose;
    }
  }

  lemma ReportKeeps(s: State, step: Step)
    requires Inv(s) && Enabled(s, step) && (step.Readable? || step.HangUp?)
    ensures Inv(Apply(s, step))
  {
    hide TakenBytes;
  }

  lemma InterestKeeps(s: State, step: Step)
    requires Inv(s) && Enabled(s, step) && Tidy(s, step) && (step.StartRead? || step.StopRead? || step.Destroy?)
    ensures Inv(Apply(s, step))
  {
    hide TakenBytes;
  }

  lemma InitialInv(poller: PollerKind, mark: nat)
    ensures Inv(Initial(poller, mark))
  {
  }

  /** Over every tidy run the connection never fails an assertion and all of the above holds. */
  lemma EveryRunIsSafe(poller: PollerKind, mark: nat, steps: seq<Step>)
    requires Run(NextTidy, Initial(poller, mark), steps).Some?
    ensures Inv(Run(NextTidy, Initial(poller, mark), steps).value)
  {
    hide Run, Inv;
    forall s, step | Inv(s) && NextTidy(s, step).Some?
      ensures Inv(NextTidy(s, step).value)
    {
      StepKeeps(s, step);
    }
    InitialInv(poller, mark);
    KeptByRuns(NextTidy, Inv, Initial(poller, mark), steps);
  }

  // What was asked for and what the socket answered, seen from outside.

  /** What becomes of a message that reaches the loop thread: it is given up after the end, lost when a direct write
      fails for good, and otherwise taken. A write is tried when nothing is waiting. */
  function Fate(s: State, m: Bytes, w: WriteResult): Sent
    requires s.State?
  {
    if s.state.Disconnected? then GivenUp(m)
    else if s.output == [] && w == Failed(true) then Faulted(m)
    else Taken(m)
  }

  /** The message that the step brings to the loop thread: a send while connected, or one that was queued. */
  function Reaching(s: State, step: Step): seq<Sent>
    requires s.State?
  {
    match step
    case Send(m, w) => if s.state.Connected? then [Fate(s, m, w)] else []
    case RunTask(w) => if s.tasks != [] && s.tasks[0].SendTask? then [Fate(s, s.tasks[0].m, w)] else []
    case _ => []
  }

  function History(s: State, steps: seq<Step>): seq<Sent>
    requires Run(NextTidy, s, steps).Some?
  {
    if steps == [] then []
    else
      LastOfRun(NextTidy, s, steps);
      var init := steps[..|steps| - 1];
      var z := Run(NextTidy, s, init).value;
      History(s, init) + if z.State? then Reaching(z, steps[|steps| - 1]) else []
  }

  /** The steps that bring bytes to the socket or to the buffer, or may. */
  predicate Handles(s: State, step: Step)
    requires s.State?
  {
    step.Send? || step.Writable? || (step.RunTask? && s.tasks != [] && s.tasks[0].SendTask?)
  }

  lemma Handling(s: State, step: Step)
    requires Inv(s) && Enabled(s, step) && Handles(s, step)
    ensures match step
            case Send(m, w) =>
              && Possible(s, |m|, w) && Interest(s) && Listing(s)
              && Apply(s, step) == if s.state.Connected? then SendInLoop(s, m, w) else s
            case RunTask(w) =>
              var u := s.(tasks := s.tasks[1..]);
              && s.tasks[0].SendTask? && Possible(u, |s.tasks[0].m|, w) && Interest(u) && Listing(u)
              && !u.state.Connecting? && Apply(s, step) == SendInLoop(u, s.tasks[0].m, w)
            case Writable(w) =>
              s.due.Nothing? && Possible(s, |s.output|, w) && Apply(s, step) == HandleWrite(s, w)
            case _ => false
  {
    hide TakenBytes, Conserved, Flushed, Closing, Announced, SendInLoop, HandleWrite, Doomed;
  }

  /** All others leave the bytes alone. */
  lemma OthersLeave(s: State, step: Step)
    requires Inv(s) && Enabled(s, step) && Tidy(s, step) && !Handles(s, step)
    ensures var z := Apply(s, step);
            z.State? && z.log == s.log && z.socket == s.socket && z.output == s.output && Reaching(s, step) == []
            && WrittenBy(s, step) == 0
  {
    hide TakenBytes, Conserved, SendInLoop, HandleWrite, Flushed, Closing, Announced;
  }

  /** Each step logs the message that it brings to the loop thread, if any. */
  lemma ReachingIsLogged(s: State, step: Step)
    requires Inv(s) && Enabled(s, step) && Tidy(s, step)
    ensures Apply(s, step).State? && Apply(s, step).log == s.log + Reaching(s, step)
  {
    if Handles(s, step) {
      Handling(s, step);
    } else {
      OthersLeave(s, step);
    }
    hide Inv, Interest, Listing, Enabled, Tidy, Apply, SendInLoop, HandleWrite, Fate;
    match step {
      case Send(m, w) =>
        if s.state.Connected? {
          SendLogs(s, m, w);
        }
      case RunTask(w) =>
        if Handles(s, step) {
          SendLogs(s.(tasks := s.tasks[1..]), s.tasks[0].m, w);
          SameFate(s, s.tasks[0].m, w);
        }
      case Writable(w) => WriteMoves(s, w);
      case _ =>
    }
    assert s.log + [] == s.log;
  }

  lemma SendLogs(s: State, m: Bytes, w: WriteResult)
    requires Interest(s) && Listing(s) && !s.state.Connecting? && Possible(s, |m|, w)
    ensures var z := SendInLoop(s, m, w); z.State? && z.log == s.log + [Fate(s, m, w)]
  {
  }

  lemma SameFate(s: State, m: Bytes, w: WriteResult)
    requires s.State? && s.tasks != []
    ensures Fate(s.(tasks := s.tasks[1..]), m, w) == Fate(s, m, w)
  {
  }

  /** The log is what reached the loop thread. */
  lemma {:induction false} LogIsHistory(s: State, steps: seq<Step>)
    requires Inv(s) && Run(NextTidy, s, steps).Some?
    ensures var z := Run(NextTidy, s, steps).value; Inv(z) && z.State? && z.log == s.log + History(s, steps)
  {
    hide Inv, Run, NextTidy;
    if steps == [] {
      StartsHere(s);
    } else {
      LastOfRun(NextTidy, s, steps);
      var init, last := steps[..|steps| - 1], steps[|steps| - 1];
      LogIsHistory(s, init);
      var y := Run(NextTidy, s, init).value;
      StepIsTidy(y, last);
      ReachingIsLogged(y, last);
      StepKeeps(y, last);
    }
  }

  lemma StartsHere(s: State)
    requires Inv(s)
    ensures Run(NextTidy, s, []) == Some(s) && s.State? && s.log + [] == s.log
  {
  }

  lemma StepIsTidy(s: State, step: Step)
    requires NextTidy(s, step).Some?
    ensures s.State? && Enabled(s, step) && Tidy(s, step) && NextTidy(s, step) == Some(Apply(s, step))
  {
  }

  /** What the socket has got is a prefix of the messages that reached the loop thread and were taken; at a
      half-close of a live connection it is all of them. */
  lemma SocketGetsAPrefix(poller: PollerKind, mark: nat, steps: seq<Step>)
    requires Run(NextTidy, Initial(poller, mark), steps).Some?
    ensures var e := Initial(poller, mark);
            var s := Run(NextTidy, e, steps).value;
            && s.State? && s.socket <= TakenBytes(History(e, steps))
            && s.socket + s.output == TakenBytes(History(e, steps))
            && (s.halfClose.WhileUp? ==> s.socket == TakenBytes(History(e, steps)))
  {
    hide Run, TakenBytes, History, NextTidy;
    var e := Initial(poller, mark);
    EveryRunIsSafe(poller, mark, steps);
    InitialInv(poller, mark);
    LogIsHistory(e, steps);
    assert [] + History(e, steps) == History(e, steps);
  }

  /** Whether a connection is connected after the step. */
  function ConnectedAfter(before: bool, step: Step): bool {
    match step
    case Establish => true
    case Shutdown(_) => false
    case ForceClose => false
    case ForceCloseWithDelay => false
    case Readable(r) => !r.Eof? && before
    case HangUp => false
    case Destroy => false
    case _ => before
  }

  /** Whether the connection takes messages, by the steps alone. */
  function Accepts(steps: seq<Step>): bool {
    steps != [] && ConnectedAfter(Accepts(steps[..|steps| - 1]), steps[|steps| - 1])
  }

  lemma {:induction false} AcceptsWhileConnected(poller: PollerKind, mark: nat, steps: seq<Step>)
    requires Run(NextTidy, Initial(poller, mark), steps).Some?
    ensures var z := Run(NextTidy, Initial(poller, mark), steps).value;
            z.State? && (z.state.Connected? <==> Accepts(steps)) && (z.state.Connected? ==> !Forced(z))
  {
    hide Inv, Run, NextTidy;
    InitialInv(poller, mark);
    StartsHere(Initial(poller, mark));
    if steps != [] {
      LastOfRun(NextTidy, Initial(poller, mark), steps);
      var init, last := steps[..|steps| - 1], steps[|steps| - 1];
      AcceptsWhileConnected(poller, mark, init);
      EveryRunIsSafe(poller, mark, init);
      var y := Run(NextTidy, Initial(poller, mark), init).value;
      StepIsTidy(y, last);
      StepKeeps(y, last);
      ConnectedMoves(y, last);
    }
  }

  /** Sending and writing do not touch the states of the connection. */
  lemma HandlesMoves(s: State, step: Step)
    requires Inv(s) && Enabled(s, step) && Handles(s, step)
    ensures var z := Apply(s, step);
            && z.State? && z.state == s.state && z.delayed == s.delayed && z.closes == s.closes
            && z.checked == s.checked && (ForceCloseTask in z.tasks <==> ForceCloseTask in s.tasks)
  {
    Handling(s, step);
    hide Inv, Interest, Listing, Enabled, Apply, SendInLoop, HandleWrite;
    match step {
      case Send(m, w) =>
        if s.state.Connected? {
          SendMoves(s, m, w);
        }
      case RunTask(w) =>
        assert s.tasks == [s.tasks[0]] + s.tasks[1..];
        SendMoves(s.(tasks := s.tasks[1..]), s.tasks[0].m, w);
      case Writable(w) => WriteMoves(s, w);
      case _ =>
    }
  }

  lemma SendMoves(s: State, m: Bytes, w: WriteResult)
    requires Interest(s) && Listing(s) && !s.state.Connecting? && Possible(s, |m|, w)
    ensures var z := SendInLoop(s, m, w);
            && z.State? && z.state == s.state && z.delayed == s.delayed && z.closes == s.closes
            && z.checked == s.checked && (ForceCloseTask in z.tasks <==> ForceCloseTask in s.tasks)
  {
  }

  lemma ConnectedMoves(s: State, step: Step)
    requires Inv(s) && Enabled(s, step) && Tidy(s, step) && (s.state.Connected? ==> !Forced(s))
    ensures var z := Apply(s, step);
            && z.State? && (z.state.Connected? ==> !Forced(z))
            && (z.state.Connected? <==> ConnectedAfter(s.state.Connected?, step))
  {
    if Handles(s, step) {
      HandlesMoves(s, step);
    } else {
      OthersConnect(s, step);
    }
    hide Inv, Enabled, Tidy, Apply;
  }

  lemma OthersConnect(s: State, step: Step)
    requires Inv(s) && Enabled(s, step) && Tidy(s, step) && (s.state.Connected? ==> !Forced(s)) && !Handles(s, step)
    ensures var z := Apply(s, step);
            && z.State? && (z.state.Connected? ==> !Forced(z))
            && (z.state.Connected? <==> ConnectedAfter(s.state.Connected?, step))
  {
    hide TakenBytes, Conserved, SendInLoop, HandleWrite, Flushed, Closing;
  }

  /** A thread that calls `send` goes on to queue its message exactly when it found the connection connected. */
  lemma CheckingDecides(s: State, t: Thread, m: Bytes)
    requires Inv(s) && t !in s.checked
    ensures var z := Apply(s, CheckConnected(t));
            z.State? && z.tasks == s.tasks && (Enabled(z, QueueSend(t, m)) <==> s.state.Connected?)
  {
  }

  /** What it found stays with it, whatever happens meanwhile. */
  lemma CheckedStays(s: State, step: Step, t: Thread)
    requires Inv(s) && Enabled(s, step) && Tidy(s, step)
    requires !(step.QueueSend? && step.t == t) && !(step.CheckConnected? && step.t == t)
    ensures var z := Apply(s, step); z.State? && (t in z.checked <==> t in s.checked)
  {
    if Handles(s, step) {
      HandlesMoves(s, step);
    } else {
      OthersCheck(s, step);
    }
    hide Inv, Enabled, Tidy, Apply;
  }

  lemma OthersCheck(s: State, step: Step)
    requires Inv(s) && Enabled(s, step) && Tidy(s, step) && !Handles(s, step)
    ensures var z := Apply(s, step);
            && z.State?
            && forall t :: t in z.checked <==> if step == CheckConnected(t) && s.state.Connected? then true
                                                else t in s.checked && !(step.QueueSend? && step.t == t)
  {
    hide TakenBytes, Conserved, SendInLoop, HandleWrite, Flushed, Closing, Announced;
  }

  lemma WriteMoves(s: State, w: WriteResult)
    requires Inv(s) && s.due.Nothing? && Possible(s, |s.output|, w)
    ensures var z := HandleWrite(s, w);
            && z.State? && z.state == s.state && z.delayed == s.delayed && z.log == s.log && z.closes == s.closes
            && z.checked == s.checked && (ForceCloseTask in z.tasks <==> ForceCloseTask in s.tasks)
  {
    hide TakenBytes, Conserved;
  }

  // The queue of messages of other threads.

  function QueuedMessages(steps: seq<Step>): seq<Bytes> {
    if steps == [] then []
    else
      var last := steps[|steps| - 1];
      QueuedMessages(steps[..|steps| - 1]) + if last.QueueSend? then [last.m] else []
  }

  function MessagesIn(tasks: seq<Task>): seq<Bytes> {
    if tasks == [] then []
    else
      var last := tasks[|tasks| - 1];
      MessagesIn(tasks[..|tasks| - 1]) + if last.SendTask? then [last.m] else []
  }

  /** The queued messages that the loop thread has got to. */
  function MessagesRun(s: State, steps: seq<Step>): seq<Bytes>
    requires Run(NextTidy, s, steps).Some?
  {
    if steps == [] then []
    else
      LastOfRun(NextTidy, s, steps);
      var init, last := steps[..|steps| - 1], steps[|steps| - 1];
      var z := Run(NextTidy, s, init).value;
      MessagesRun(s, init)
      + if z.State? && last.RunTask? && z.tasks != [] && z.tasks[0].SendTask? then [z.tasks[0].m] else []
  }

  lemma {:induction false} MessagesConcat(a: seq<Task>, b: seq<Task>)
    ensures MessagesIn(a + b) == MessagesIn(a) + MessagesIn(b)
  {
    if b == [] {
      assert a + b == a;
    } else {
      assert (a + b)[..|a + b| - 1] == a + b[..|b| - 1];
      MessagesConcat(a, b[..|b| - 1]);
    }
  }

  lemma NoMessage(task: Task)
    ensures MessagesIn([task]) == if task.SendTask? then [task.m] else []
  {
    assert [task][..0] == [];
  }

  /** What a step does to the queued messages: one joins at the end, or the first one goes. */
  lemma MessagesMove(s: State, step: Step)
    requires Inv(s) && Enabled(s, step) && Tidy(s, step)
    ensures var z := Apply(s, step);
            && z.State?
            && MessagesIn(z.tasks) == MessagesIn(Left(s, step)) + if step.QueueSend? then [step.m] else []
  {
    hide TakenBytes, Conserved, Interest, Flushed, Closing, Announced, HandleWrite, SendInLoop;
    var z := Apply(s, step);
    StepKeeps(s, step);
    if Sends(s, step) {
      if step.Send? {
        SendAddsNoMessage(s, step.m, step.w);
      } else {
        SendAddsNoMessage(s.(tasks := s.tasks[1..]), s.tasks[0].m, step.w);
      }
    } else if step.QueueSend? {
      MessagesConcat(s.tasks, [SendTask(step.m)]);
      NoMessage(SendTask(step.m));
    } else {
      OthersAreQuiet(s, step);
      QuietAddsNoMessage(s, z, Left(s, step));
    }
  }

  lemma QuietAddsNoMessage(s: State, z: State, tasks: seq<Task>)
    requires Quiet(s, z, tasks)
    ensures MessagesIn(z.tasks) == MessagesIn(tasks)
  {
    if |z.tasks| > |tasks| {
      var last := z.tasks[|tasks|];
      assert z.tasks == tasks + [last];
      MessagesConcat(tasks, [last]);
      NoMessage(last);
    }
  }

  lemma SendAddsNoMessage(s: State, m: Bytes, w: WriteResult)
    requires Listing(s) && Possible(s, |m|, w)
    ensures var z := SendInLoop(s, m, w); z.State? && MessagesIn(z.tasks) == MessagesIn(s.tasks)
  {
    hide SendInLoop, MessagesIn;
    SendQueues(s, m, w);
    var (done, high) := CallbacksOf(s, m, w);
    NoneIn();
    NoMessage(WriteComplete);
    if high != [] {
      NoMessage(high[0]);
      assert high == [high[0]];
    }
    MessagesConcat(s.tasks, done);
    MessagesConcat(s.tasks + done, high);
  }

  lemma NoneIn()
    ensures MessagesIn([]) == []
  {
  }

  /** Messages of other threads reach the loop thread in the order in which they were queued, none lost and none
      twice: those it got to and those still waiting are all that were queued. */
  lemma {:induction false} MessagesKeepOrder(poller: PollerKind, mark: nat, steps: seq<Step>)
    requires Run(NextTidy, Initial(poller, mark), steps).Some?
    ensures var e := Initial(poller, mark);
            var z := Run(NextTidy, e, steps).value;
            z.State? && MessagesRun(e, steps) + MessagesIn(z.tasks) == QueuedMessages(steps)
  {
    hide Inv, Run, NextTidy, MessagesIn;
    var e := Initial(poller, mark);
    if steps == [] {
      InitialInv(poller, mark);
      StartsHere(e);
      NoneIn();
    } else {
      LastOfRun(NextTidy, e, steps);
      var init, last := steps[..|steps| - 1], steps[|steps| - 1];
      MessagesKeepOrder(poller, mark, init);
      EveryRunIsSafe(poller, mark, init);
      var y := Run(NextTidy, e, init).value;
      StepIsTidy(y, last);
      MessagesMove(y, last);
      FirstMessage(y, last);
      var left := MessagesIn(Left(y, last));
      var first := if last.RunTask? && y.tasks != [] && y.tasks[0].SendTask? then [y.tasks[0].m] else [];
      var more := if last.QueueSend? then [last.m] else [];
      Regrouped(MessagesRun(e, init), first, left, more);
    }
  }

  lemma Regrouped<T>(a: seq<T>, b: seq<T>, c: seq<T>, d: seq<T>)
    ensures a + b + (c + d) == a + (b + c) + d
  {
  }

  lemma FirstMessage(s: State, step: Step)
    requires s.State? && Enabled(s, step)
    ensures MessagesIn(s.tasks)
            == (if step.RunTask? && s.tasks != [] && s.tasks[0].SendTask? then [s.tasks[0].m] else [])
               + MessagesIn(Left(s, step))
  {
    hide MessagesIn;
    if step.RunTask? {
      assert s.tasks == [s.tasks[0]] + s.tasks[1..];
      MessagesConcat([s.tasks[0]], s.tasks[1..]);
      NoMessage(s.tasks[0]);
    }
  }

  // What goes out.

  /** How many bytes the step gives to the socket: what the socket answers to a write that is tried. */
  function WrittenBy(s: State, step: Step): nat
    requires s.State?
  {
    match step
    case Send(_, w) => if s.state.Connected? && s.output == [] && w.Wrote? then w.n else 0
    case RunTask(w) =>
      if s.tasks != [] && s.tasks[0].SendTask? && !s.state.Disconnected? && s.output == [] && w.Wrote? then w.n else 0
    case Writable(w) => if !s.state.Disconnected? && s.output != [] && w.Wrote? then w.n else 0
    case _ => 0
  }

  lemma WritesExactly(s: State, step: Step)
    requires Inv(s) && Enabled(s, step) && Tidy(s, step)
    ensures var z := Apply(s, step); z.State? && |z.socket| == |s.socket| + WrittenBy(s, step)
  {
    if Handles(s, step) {
      Handling(s, step);
    } else {
      OthersLeave(s, step);
    }
    hide Inv, Interest, Listing, Enabled, Tidy, Apply, SendInLoop, HandleWrite;
    match step {
      case Send(m, w) =>
        if s.state.Connected? {
          SendWrites(s, m, w);
        }
      case RunTask(w) =>
        if Handles(s, step) {
          SendWrites(s.(tasks := s.tasks[1..]), s.tasks[0].m, w);
        }
      case Writable(w) => WriteWrites(s, w);
      case _ =>
    }
  }

  lemma WriteWrites(s: State, w: WriteResult)
    requires Inv(s) && s.due.Nothing? && Possible(s, |s.output|, w)
    ensures var z := HandleWrite(s, w);
            z.State? && |z.socket|
                        == |s.socket| + if !s.state.Disconnected? && s.output != [] && w.Wrote? then w.n else 0
  {
    hide TakenBytes, Conserved, Closing, Announced;
  }

  lemma SendWrites(s: State, m: Bytes, w: WriteResult)
    requires Interest(s) && Listing(s) && !s.state.Connecting? && Possible(s, |m|, w)
    ensures var z := SendInLoop(s, m, w);
            z.State? && |z.socket|
                        == |s.socket| + if !s.state.Disconnected? && s.output == [] && w.Wrote? then w.n else 0
  {
  }

  function Completes(tasks: seq<Task>): nat {
    if tasks == [] then 0
    else Completes(tasks[..|tasks| - 1]) + if tasks[|tasks| - 1] == WriteComplete then 1 else 0
  }

  lemma CompletesAppend(tasks: seq<Task>, task: Task)
    ensures Completes(tasks + [task]) == Completes(tasks) + if task == WriteComplete then 1 else 0
  {
    assert (tasks + [task])[..|tasks|] == tasks;
  }

  /** The step leaves nothing unwritten of what there was: a write-complete callback is due. */
  predicate WritesAll(s: State, step: Step)
    requires s.State?
  {
    match step
    case Send(m, w) => s.state.Connected? && s.output == [] && w == Wrote(|m|)
    case RunTask(w) =>
      s.tasks != [] && s.tasks[0].SendTask? && !s.state.Disconnected? && s.output == [] && w == Wrote(|s.tasks[0].m|)
    case Writable(w) => !s.state.Disconnected? && s.output != [] && w == Wrote(|s.output|)
    case _ => false
  }

  lemma SendCompletes(s: State, m: Bytes, w: WriteResult)
    requires Listing(s) && Interest(s) && Possible(s, |m|, w) && !s.state.Connecting?
    ensures var z := SendInLoop(s, m, w);
            z.State? && Completes(z.tasks)
                        == Completes(s.tasks)
                           + if !s.state.Disconnected? && s.output == [] && w == Wrote(|m|) then 1 else 0
  {
    hide SendInLoop, Completes;
    SendQueues(s, m, w);
    var (done, high) := CallbacksOf(s, m, w);
    CompletesAppend(s.tasks, WriteComplete);
    if high != [] {
      CompletesAppend(s.tasks + done, high[0]);
      assert high == [high[0]];
    }
    assert s.tasks + [] == s.tasks && s.tasks + done + [] == s.tasks + done;
  }

  /** A write-complete callback is queued by the steps that write all there is, and by no other. */
  lemma CompletesExactly(s: State, step: Step)
    requires Inv(s) && Enabled(s, step) && Tidy(s, step)
    ensures var z := Apply(s, step);
            z.State? && Completes(z.tasks) == Completes(Left(s, step)) + if WritesAll(s, step) then 1 else 0
  {
    hide TakenBytes, Conserved, Flushed, Closing, Announced, SendInLoop, Completes;
    var z, left := Apply(s, step), Left(s, step);
    StepKeeps(s, step);
    CompletesAppend(left, WriteComplete);
    CompletesAppend(left, ShutdownTask);
    CompletesAppend(left, ForceCloseTask);
    if step.QueueSend? {
      CompletesAppend(left, SendTask(step.m));
    } else if step.Send? && s.state.Connected? {
      SendCompletes(s, step.m, step.w);
    } else if step.RunTask? && s.tasks[0].SendTask? {
      SendCompletes(s.(tasks := left), s.tasks[0].m, step.w);
    }
  }

  // How it ends.

  /** `shutdown` of a connected connection: no message is accepted any more, and the write side is shut down, at once
      or by a task, as soon as nothing is left to write. */
  lemma ShutdownIsGranted(s: State, here: bool)
    requires Inv(s) && s.state.Connected?
    ensures var z := Apply(s, Shutdown(here));
            && z.State? && z.state.Disconnecting? && z.output == s.output && z.socket == s.socket
            && (if here then z.halfClose == (if s.output == [] then WhileUp else NotYet)
                else z.halfClose == NotYet && z.tasks == s.tasks + [ShutdownTask])
  {
  }

  /** The task does it, and when something is left then the write that takes the last of it. */
  lemma LastWriteShutsDown(s: State)
    requires Inv(s) && s.state.Disconnecting? && s.due.Nothing?
    ensures s.tasks != [] && s.tasks[0].ShutdownTask? && s.output == [] ==>
              var z := Apply(s, RunTask(WouldBlock)); z.State? && !z.halfClose.NotYet?
    ensures s.output != [] && s.halfClose.NotYet? ==>
              var z := Apply(s, Writable(Wrote(|s.output|))); z.State? && z.output == [] && z.halfClose.WhileUp?
  {
    hide TakenBytes, Conserved;
  }

  /** A forced close of a live connection is queued, at once or after the delay, and its task closes the connection
      and tells the user and the owner. */
  lemma ForcedCloseIsGranted(s: State)
    requires Inv(s)
    ensures Up(s) ==> var z := Apply(s, ForceClose); z.State? && z.tasks == s.tasks + [ForceCloseTask]
    ensures Up(s) ==> var z := Apply(s, ForceCloseWithDelay); z.State? && z.delayed == s.delayed + 1
    ensures Up(s) && s.delayed > 0 ==>
              var z := Apply(s, DelayIsOver); z.State? && ForceCloseTask in z.tasks && z.delayed == s.delayed - 1
    ensures Up(s) && s.due.Nothing? && s.tasks != [] && s.tasks[0].ForceCloseTask? ==>
              var z := Apply(s, RunTask(WouldBlock));
              z.State? && z.state.Disconnected? && z.downs == s.downs + 1 && z.closes == s.closes + 1
  {
    hide TakenBytes, Conserved;
  }

  /** The owner is told of every end but the one that it brought about itself. */
  lemma OwnerIsTold(s: State, step: Step)
    requires Inv(s) && Enabled(s, step) && Tidy(s, step)
    ensures var z := Apply(s, step);
            && z.State?
            && z.closes == s.closes + (if Up(s) && z.state.Disconnected? && !step.Destroy? then 1 else 0)
            && (step.HangUp? || step == Readable(Eof) || step.Destroy? ==> z.state.Disconnected?)
  {
    if Handles(s, step) {
      HandlesMoves(s, step);
    } else {
      OthersTell(s, step);
    }
    hide Inv, Enabled, Tidy, Apply;
  }

  lemma OthersTell(s: State, step: Step)
    requires Inv(s) && Enabled(s, step) && Tidy(s, step) && !Handles(s, step)
    ensures var z := Apply(s, step);
            && z.State?
            && z.closes == s.closes + (if Up(s) && z.state.Disconnected? && !step.Destroy? then 1 else 0)
            && (step.HangUp? || step == Readable(Eof) || step.Destroy? ==> z.state.Disconnected?)
  {
    hide TakenBytes, Conserved, SendInLoop, HandleWrite, Flushed, Closing, Announced;
  }

  /** Reading is on or off as it was asked for. */
  lemma ReadingIsSwitched(s: State)
    requires Inv(s) && Up(s)
    ensures var z := Apply(s, StartRead); z.State? && z.wantRead && z.wantWrite == s.wantWrite
    ensures var z := Apply(s, StopRead); z.State? && !z.wantRead && z.wantWrite == s.wantWrite
  {
  }

  // High-water callbacks.

  /** The output grows over the mark. */
  predicate Crosses(s: State, t: State) {
    s.State? && t.State? && |s.output| < s.mark <= |t.output|
  }

  /** How many high-water callbacks are in the queue. */
  function HighWaters(tasks: seq<Task>): nat {
    if tasks == [] then 0 else (if tasks[0].HighWater? then 1 else 0) + HighWaters(tasks[1..])
  }

  lemma {:induction false} HighWatersConcat(a: seq<Task>, b: seq<Task>)
    ensures HighWaters(a + b) == HighWaters(a) + HighWaters(b)
  {
    if a == [] {
      assert a + b == b;
    } else {
      assert (a + b)[1..] == a[1..] + b;
      HighWatersConcat(a[1..], b);
    }
  }

  /** The queue with the task that a step takes from it gone. */
  function Left(s: State, step: Step): seq<Task>
    requires s.State? && Enabled(s, step)
  {
    if step.RunTask? then s.tasks[1..] else s.tasks
  }

  /** The callbacks that a send queues. */
  function CallbacksOf(s: State, m: Bytes, w: WriteResult): (seq<Task>, seq<Task>)
    requires Listing(s) && Possible(s, |m|, w)
  {
    var z := SendInLoop(s, m, w);
    (if !s.state.Disconnected? && WritesDirectly(s) && w.Wrote? && w.n == |m| then [WriteComplete] else [],
     if z.State? && Crosses(s, z) then [HighWater(|z.output|)] else [])
  }

  lemma SendQueues(s: State, m: Bytes, w: WriteResult)
    requires Listing(s) && Possible(s, |m|, w)
    ensures var (done, high) := CallbacksOf(s, m, w);
            var z := SendInLoop(s, m, w);
            z.State? && z.mark == s.mark && z.tasks == s.tasks + done + high
  {
  }

  lemma SendWarns(s: State, m: Bytes, w: WriteResult)
    requires Listing(s) && Possible(s, |m|, w)
    ensures var z := SendInLoop(s, m, w);
            && z.State? && z.mark == s.mark
            && HighWaters(z.tasks) == HighWaters(s.tasks) + (if Crosses(s, z) then 1 else 0)
            && (Crosses(s, z) ==> HighWater(|z.output|) in z.tasks)
  {
    hide SendInLoop;
    SendQueues(s, m, w);
    var (done, high) := CallbacksOf(s, m, w);
    assert HighWaters(done) == 0;
    assert HighWaters(high) == |high|;
    HighWatersConcat(s.tasks, done);
    HighWatersConcat(s.tasks + done, high);
  }

  /** Steps that send nothing: they may queue one other task, and do not make the output grow. */
  predicate Quiet(s: State, z: State, tasks: seq<Task>) {
    && s.State? && z.State? && z.mark == s.mark && |z.output| <= |s.output|
    && (z.tasks == tasks || z.tasks == tasks + [WriteComplete] || z.tasks == tasks + [ShutdownTask]
        || z.tasks == tasks + [ForceCloseTask])
  }

  predicate Sends(s: State, step: Step)
    requires s.State? && Enabled(s, step)
  {
    (step.Send? && s.state.Connected?) || (step.RunTask? && s.tasks[0].SendTask?)
  }

  lemma WriteIsQuiet(s: State, w: WriteResult)
    requires Listing(s) && Interest(s) && Possible(s, |s.output|, w)
    ensures Quiet(s, HandleWrite(s, w), s.tasks)
  {
  }

  /** A foreign thread's message joins the queue as a task; it is not yet output. */
  lemma OthersAreQuiet(s: State, step: Step)
    requires Inv(s) && Enabled(s, step) && Tidy(s, step) && !Sends(s, step) && !step.QueueSend?
    ensures Quiet(s, Apply(s, step), Left(s, step))
  {
    hide TakenBytes, Conserved, HandleWrite, SendInLoop;
    if step.Writable? {
      WriteIsQuiet(s, step.w);
    }
  }

  lemma QuietWarnsNot(s: State, z: State, tasks: seq<Task>)
    requires Quiet(s, z, tasks)
    ensures HighWaters(z.tasks) == HighWaters(tasks) && !Crosses(s, z)
  {
    if |z.tasks| > |tasks| {
      var last := z.tasks[|tasks|];
      assert z.tasks == tasks + [last];
      HighWatersConcat(tasks, [last]);
      assert HighWaters([last]) == 0;
    }
  }

  /** Every step queues a high-water callback when it makes the output cross the mark, and at no other time. */
  lemma WarnsExactlyWhenCrossing(s: State, step: Step)
    requires s.State? && Inv(s) && Enabled(s, step) && Tidy(s, step)
    ensures var z := Apply(s, step);
            && z.State? && z.mark == s.mark
            && HighWaters(z.tasks) == HighWaters(Left(s, step)) + (if Crosses(s, z) then 1 else 0)
            && (Crosses(s, z) ==> HighWater(|z.output|) in z.tasks)
  {
    hide TakenBytes, Conserved, Interest, Flushed, Closing, Announced, HandleWrite, SendInLoop;
    if Sends(s, step) {
      if step.Send? {
        SendWarns(s, step.m, step.w);
      } else {
        SendWarns(s.(tasks := s.tasks[1..]), s.tasks[0].m, step.w);
      }
    } else if step.QueueSend? {
      HighWatersConcat(s.tasks, [SendTask(step.m)]);
    } else {
      OthersAreQuiet(s, step);
      QuietWarnsNot(s, Apply(s, step), Left(s, step));
    }
  }

  /** Only a write to the socket makes the output shrink. */
  lemma OnlyWritesShrink(s: State, step: Step)
    requires Inv(s) && Enabled(s, step) && Tidy(s, step)
    ensures Apply(s, step).State? && (step.Writable? || |Apply(s, step).output| >= |s.output|)
  {
    hide TakenBytes, Conserved;
  }

  /** The `k`-th step of the run is a write that takes the output below the mark. */
  predicate Drops(s: State, steps: seq<Step>, k: nat)
    requires s.State? && k < |steps|
  {
    var a, b := Run(NextTidy, s, steps[..k]), Run(NextTidy, s, steps[..k + 1]);
    && steps[k].Writable? && a.Some? && a.value.State? && b.Some? && b.value.State?
    && |b.value.output| < s.mark <= |a.value.output|
  }

  lemma {:induction false} SomeWriteDrops(s: State, steps: seq<Step>) returns (k: nat)
    requires Inv(s) && s.mark <= |s.output| && Run(NextTidy, s, steps).Some?
    requires Run(NextTidy, s, steps).value.State? && |Run(NextTidy, s, steps).value.output| < s.mark
    ensures k < |steps| && Drops(s, steps, k)
    decreases |steps|
  {
    var t := NextTidy(s, steps[0]).value;
    StepKeeps(s, steps[0]);
    WarnsExactlyWhenCrossing(s, steps[0]);
    OnlyWritesShrink(s, steps[0]);
    if |t.output| < s.mark {
      k := 0;
      FirstPrefixes(s, steps);
    } else {
      var i := SomeWriteDrops(t, steps[1..]);
      k := i + 1;
      LaterPrefix(s, steps, i);
      LaterPrefix(s, steps, i + 1);
    }
  }

  lemma FirstPrefixes(s: State, steps: seq<Step>)
    requires steps != []
    ensures Run(NextTidy, s, steps[..0]) == Some(s) && Run(NextTidy, s, steps[..1]) == NextTidy(s, steps[0])
  {
    hide NextTidy;
    OneStep(NextTidy, s, steps[0]);
    assert steps[..1] == [steps[0]];
  }

  lemma LaterPrefix(s: State, steps: seq<Step>, i: nat)
    requires i < |steps| && NextTidy(s, steps[0]).Some?
    ensures Run(NextTidy, s, steps[..i + 1]) == Run(NextTidy, NextTidy(s, steps[0]).value, steps[1..][..i])
  {
    hide NextTidy;
    assert steps[..i + 1][1..] == steps[1..][..i];
  }

  /** Between two crossings of the mark, and so between two high-water callbacks, the output was written down below
      it. */
  lemma CrossingsAreSeparated(s: State, first: Step, steps: seq<Step>, second: Step) returns (k: nat)
    requires Inv(s) && NextTidy(s, first).Some? && Crosses(s, NextTidy(s, first).value)
    requires var t := NextTidy(s, first).value;
             && Run(NextTidy, t, steps).Some? && NextTidy(Run(NextTidy, t, steps).value, second).Some?
             && Crosses(Run(NextTidy, t, steps).value, NextTidy(Run(NextTidy, t, steps).value, second).value)
    ensures k < |steps| && Drops(NextTidy(s, first).value, steps, k)
  {
    var t := NextTidy(s, first).value;
    StepKeeps(s, first);
    WarnsExactlyWhenCrossing(s, first);
    hide Inv, NextTidy;
    MarkIsFixed(t, steps);
    k := SomeWriteDrops(t, steps);
  }

  lemma {:induction false} MarkIsFixed(s: State, steps: seq<Step>)
    requires Inv(s) && Run(NextTidy, s, steps).Some?
    ensures Run(NextTidy, s, steps).value.State? && Run(NextTidy, s, steps).value.mark == s.mark
    decreases |steps|
  {
    if steps != [] {
      StepKeeps(s, steps[0]);
      WarnsExactlyWhenCrossing(s, steps[0]);
      MarkIsFixed(NextTidy(s, steps[0]).value, steps[1..]);
    }
  }

  // What an untidy caller does.

  function NextOwn(s: State, step: Step): Option<State> {
    if Own(step) then Next(s, step) else None
  }

  /** Whatever the loop, the kernel and the timers do, no assertion fails. */
  ghost predicate SafeAlone(s: State) {
    forall steps | Run(NextOwn, s, steps).Some? :: Run(NextOwn, s, steps).value != Crashed
  }

  lemma InvIsSafeAlone(s: State)
    requires Inv(s)
    ensures SafeAlone(s)
  {
    hide Run, Inv;
    forall s, step | Inv(s) && NextOwn(s, step).Some?
      ensures Inv(NextOwn(s, step).value)
    {
      StepKeeps(s, step);
    }
    forall steps | Run(NextOwn, s, steps).Some?
      ensures Run(NextOwn, s, steps).value != Crashed
    {
      KeptByRuns(NextOwn, Inv, s, steps);
      InvIsState(Run(NextOwn, s, steps).value);
    }
  }

  lemma InvIsState(s: State)
    requires Inv(s)
    ensures s.State? && Listing(s)
  {
  }

  /** Two steps of its own, or three. */
  lemma OwnSteps(s: State, a: Step, b: Step)
    requires NextOwn(s, a).Some?
    ensures Run(NextOwn, s, [a, b]) == NextOwn(NextOwn(s, a).value, b)
  {
    hide NextOwn;
    OneStep(NextOwn, s, a);
    StepAfterRun(NextOwn, s, [a], b);
    assert [a] + [b] == [a, b];
  }

  lemma CrashesAfter(s: State, a: Step, steps: seq<Step>)
    requires NextOwn(s, a).Some? && Run(NextOwn, NextOwn(s, a).value, steps) == Some(Crashed)
    ensures Run(NextOwn, s, [a] + steps) == Some(Crashed)
  {
    hide NextOwn;
    assert ([a] + steps)[1..] == steps;
  }

  /** A closed connection that is still listed: the next hang-up finds it closed. */
  lemma ListedCrashes(s: State)
    requires s.State? && !Up(s) && s.listed && s.due.Nothing?
    ensures Run(NextOwn, s, [Poll(HungUp), HangUp]) == Some(Crashed)
  {
    OwnSteps(s, Poll(HungUp), HangUp);
  }

  /** Closing a connection whose channel waits for nothing puts the descriptor back on the list of epoll. */
  lemma ClosingRelists(s: State)
    requires Sound(s) && s.poller.UsesEPoll? && Up(s)
    ensures HandleClose(s).State? && (HandleClose(s).listed <==> !s.wantRead && !s.wantWrite)
  {
  }

  /** The queue runs up to the forced close. */
  lemma {:induction false} ForcedCloseCrashes(s: State) returns (steps: seq<Step>)
    requires Listing(s) && Up(s) && s.poller.UsesEPoll? && s.due.Nothing?
    requires !s.wantRead && !s.wantWrite && s.output == [] && ForceCloseTask in s.tasks
    ensures Run(NextOwn, s, steps) == Some(Crashed)
    decreases |s.tasks|
  {
    var step := RunTask(Failed(true));
    var z := NextOwn(s, step).value;
    if s.tasks[0] == ForceCloseTask {
      ListedCrashes(z);
      steps := [step] + [Poll(HungUp), HangUp];
      CrashesAfter(s, step, [Poll(HungUp), HangUp]);
    } else {
      assert s.tasks == [s.tasks[0]] + s.tasks[1..];
      hide Run;
      var more := ForcedCloseCrashes(z);
      CrashesAfter(s, step, more);
      steps := [step] + more;
    }
  }

  /** A doomed connection can come to a failed assertion by itself. */
  lemma DoomedCrashes(s: State) returns (steps: seq<Step>)
    requires Sound(s) && Doomed(s)
    ensures Run(NextOwn, s, steps) == Some(Crashed)
  {
    hide TakenBytes, Conserved, Announced, Run, Closing;
    if !s.due.Nothing? && !s.wantWrite {
      var step := if s.due.HungUp? then HangUp else Readable(Eof);
      ListedCrashes(NextOwn(s, step).value);
      CrashesAfter(s, step, [Poll(HungUp), HangUp]);
      steps := [step] + [Poll(HungUp), HangUp];
    } else if s.due.Incoming? {
      var more := FlushedCrashes(NextOwn(s, Readable(Input)).value);
      CrashesAfter(s, Readable(Input), more);
      steps := [Readable(Input)] + more;
    } else {
      steps := FlushedCrashes(s);
    }
  }

  /** What is left to write goes out before the forced close. */
  lemma FlushedCrashes(s: State) returns (steps: seq<Step>)
    requires Listing(s) && Interest(s) && Flushed(s) && Up(s) && s.poller.UsesEPoll? && s.due.Nothing? && !s.wantRead
    requires Forced(s)
    ensures Run(NextOwn, s, steps) == Some(Crashed)
  {
    hide Run;
    if s.wantWrite {
      var step := Writable(Wrote(|s.output|));
      var more := QueuedCrashes(NextOwn(s, step).value);
      CrashesAfter(s, step, more);
      steps := [step] + more;
    } else {
      steps := QueuedCrashes(s);
    }
  }

  lemma QueuedCrashes(s: State) returns (steps: seq<Step>)
    requires Listing(s) && Up(s) && s.poller.UsesEPoll? && s.due.Nothing?
    requires !s.wantRead && !s.wantWrite && s.output == [] && Forced(s)
    ensures Run(NextOwn, s, steps) == Some(Crashed)
  {
    hide Run;
    if ForceCloseTask in s.tasks {
      steps := ForcedCloseCrashes(s);
    } else {
      var more := ForcedCloseCrashes(NextOwn(s, DelayIsOver).value);
      CrashesAfter(s, DelayIsOver, more);
      steps := [DelayIsOver] + more;
    }
  }

  /** The state after an untidy step is one of these. */
  lemma UntidyStep(s: State, step: Step)
    requires Inv(s) && Enabled(s, step) && !Tidy(s, step)
    ensures var z := Apply(s, step);
            || z.Crashed?
            || (step.StartRead? && !Up(z) && z.due.Nothing? && z.wantRead)
            || (step.StopRead? && !Up(z) && z.due.Nothing? && z.listed)
            || (step.Destroy? && Up(z) && z.due.Nothing? && z.destroyed)
            || (Sound(z) && Doomed(z))
  {
    hide TakenBytes;
  }

  /** The condition on callers is exact: what the loop, the kernel and the timers do after a step fails no assertion
      if and only if the step was tidy. */
  lemma TidyIsExact(s: State, step: Step)
    requires Inv(s) && Enabled(s, step)
    ensures SafeAlone(Apply(s, step)) <==> Tidy(s, step)
  {
    hide Inv, Run, Sound, Doomed, Tidy;
    InvIsState(s);
    var z := Apply(s, step);
    if Tidy(s, step) {
      StepKeeps(s, step);
      InvIsSafeAlone(z);
    } else {
      UntidyStep(s, step);
      var steps := UntidyCrashes(z);
      assert Run(NextOwn, z, steps).value == Crashed;
    }
  }

  lemma UntidyCrashes(z: State) returns (steps: seq<Step>)
    requires || z.Crashed?
             || (!Up(z) && z.due.Nothing? && z.wantRead)
             || (!Up(z) && z.due.Nothing? && z.listed)
             || (Up(z) && z.due.Nothing? && z.destroyed)
             || (Sound(z) && Doomed(z))
    ensures Run(NextOwn, z, steps) == Some(Crashed)
  {
    hide Sound, Doomed;
    if z.Crashed? {
      steps := [];
    } else if !Up(z) && z.due.Nothing? && z.wantRead {
      steps := [Poll(Incoming), Readable(Eof)];
      OwnSteps(z, Poll(Incoming), Readable(Eof));
    } else if !Up(z) && z.due.Nothing? && z.listed {
      steps := [Poll(HungUp), HangUp];
      ListedCrashes(z);
    } else if Up(z) && z.due.Nothing? && z.destroyed {
      steps := [Release];
      OneStep(NextOwn, z, Release);
    } else {
      steps := DoomedCrashes(z);
    }
  }

  function ForcedCloseWhileNotReading(): seq<Step> {
    [Establish, StopRead, ForceClose, RunTask(WouldBlock), Poll(HungUp), HangUp]
  }

  lemma FirstStep(s: State, a: Step, t: State, steps: seq<Step>)
    requires Next(s, a) == Some(t)
    ensures Run(Next, s, [a] + steps) == Run(Next, t, steps)
  {
    hide Next;
    assert ([a] + steps)[1..] == steps;
  }

  /** The connection after the forced close. */
  function Closed(poller: PollerKind, mark: nat): State {
    State(poller, Disconnected, false, false, false, poller.UsesEPoll?, true, Nothing, [], [], mark, false, NotYet, [],
          [], {}, 0, 1, 1, 1)
  }

  lemma ReachesClosed(poller: PollerKind, mark: nat, steps: seq<Step>)
    ensures Run(Next, Initial(poller, mark), [Establish, StopRead, ForceClose, RunTask(WouldBlock)] + steps)
            == Run(Next, Closed(poller, mark), steps)
  {
    hide Run;
    var a := Initial(poller, mark);
    var b := a.(state := Connected, wantRead := true, listed := true, added := true, ups := 1);
    var c := b.(wantRead := false, reading := false, listed := false);
    var d := c.(state := Disconnecting, tasks := [ForceCloseTask]);
    assert c.tasks + [ForceCloseTask] == d.tasks && d.tasks[1..] == [] == a.tasks;
    FirstStep(a, Establish, b, [StopRead, ForceClose, RunTask(WouldBlock)] + steps);
    FirstStep(b, StopRead, c, [ForceClose, RunTask(WouldBlock)] + steps);
    FirstStep(c, ForceClose, d, [RunTask(WouldBlock)] + steps);
    FirstStep(d, RunTask(WouldBlock), Closed(poller, mark), steps);
    hide Next;
    assert [Establish, StopRead, ForceClose, RunTask(WouldBlock)] + steps
        == [Establish] + ([StopRead, ForceClose, RunTask(WouldBlock)] + steps);
    assert [StopRead, ForceClose, RunTask(WouldBlock)] + steps
        == [StopRead] + ([ForceClose, RunTask(WouldBlock)] + steps);
    assert [ForceClose, RunTask(WouldBlock)] + steps == [ForceClose] + ([RunTask(WouldBlock)] + steps);
  }

  /** Reading off, nothing to write, a forced close, and a peer that is gone: with epoll the hang-up is reported and
      fails the assertion of `handleClose`; with poll it is not reported. */
  lemma ForcedCloseTwice(mark: nat)
    ensures Run(Next, Initial(UsesEPoll, mark), ForcedCloseWhileNotReading()) == Some(Crashed)
    ensures Run(Next, Initial(UsesPoll, mark), ForcedCloseWhileNotReading()) == None
  {
    hide Run, Apply;
    ReachesClosed(UsesEPoll, mark, [Poll(HungUp), HangUp]);
    ReachesClosed(UsesPoll, mark, [Poll(HungUp), HangUp]);
    ClosedHangsUp(mark);
    assert [Establish, StopRead, ForceClose, RunTask(WouldBlock)] + [Poll(HungUp), HangUp]
        == ForcedCloseWhileNotReading();
  }

  lemma ClosedHangsUp(mark: nat)
    ensures Run(Next, Closed(UsesEPoll, mark), [Poll(HungUp), HangUp]) == Some(Crashed)
    ensures Run(Next, Closed(UsesPoll, mark), [Poll(HungUp), HangUp]) == None
  {
    var e := Closed(UsesEPoll, mark);
    assert [Poll(HungUp), HangUp] == [Poll(HungUp)] + [HangUp];
    FirstStep(e, Poll(HungUp), e.(due := HungUp), [HangUp]);
    OneStep(Next, e.(due := HungUp), HangUp);
  }

  /** A caller that never stops reading need not care about forced closes. */
  predicate Reads(s: State, step: Step)
    requires s.State?
  {
    !step.StopRead? && (step.StartRead? ==> !s.state.Disconnected?) && (step.Destroy? ==> !s.state.Disconnecting?)
  }

  function NextReading(s: State, step: Step): Option<State> {
    if s.State? && Reads(s, step) then Next(s, step) else None
  }

  lemma ReadingIsSafe(poller: PollerKind, mark: nat, steps: seq<Step>)
    requires Run(NextReading, Initial(poller, mark), steps).Some?
    ensures Inv(Run(NextReading, Initial(poller, mark), steps).value)
  {
    hide Run, Inv;
    var reading := (s: State) => Inv(s) && ReadsWhileUp(s);
    forall s, step | reading(s) && NextReading(s, step).Some?
      ensures reading(NextReading(s, step).value)
    {
      InvIsState(s);
      ReadingStep(s, step);
      StepKeeps(s, step);
    }
    InitialInv(poller, mark);
    KeptByRuns(NextReading, reading, Initial(poller, mark), steps);
  }

  predicate ReadsWhileUp(s: State) {
    s.State? && (Up(s) ==> s.wantRead)
  }

  lemma ReadingStep(s: State, step: Step)
    requires Inv(s) && ReadsWhileUp(s) && Enabled(s, step) && Reads(s, step)
    ensures Tidy(s, step) && ReadsWhileUp(Apply(s, step))
  {
    hide TakenBytes;
    StepKeeps(s, step);
  }

  /** After the direct write. */
  function Tried(s: State, m: Bytes, w: WriteResult): State
    requires s.State? && Possible(s, |m|, w)
  {
    var nwrote := if WritesDirectly(s) && w.Wrote? then w.n else 0;
    s.(socket := s.socket + m[..nwrote],
       tasks := s.tasks + (if WritesDirectly(s) && w.Wrote? && nwrote == |m| then [WriteComplete] else []),
       log := s.log + [if WritesDirectly(s) && w.Failed? && w.fault then Faulted(m) else Taken(m)])
  }

  lemma SendUnfolds(s: State, m: Bytes, w: WriteResult)
    requires Listing(s) && !s.state.Disconnected? && Possible(s, |m|, w)
    ensures var nwrote := if WritesDirectly(s) && w.Wrote? then w.n else 0;
            var t := Tried(s, m, w);
            SendInLoop(s, m, w)
            == if (WritesDirectly(s) && w.Failed? && w.fault) || nwrote == |m| then t
               else
                 var u := t.(tasks := t.tasks + (if |s.output| < s.mark <= |s.output| + |m| - nwrote then
                                 [HighWater(|s.output| + |m| - nwrote)] else []),
                             output := s.output + m[nwrote..]);
                 if s.wantWrite then u else Update(u, s.wantRead, true)
  {
  }

  lemma UpdatesWhenStopping(s: State)
    requires Inv(s) && Tidy(s, StopRead)
    ensures s.State? && (s.destroyed && (s.reading || s.wantRead) ==> s.poller.UsesEPoll?)
  {
  }

  /** The object: the handlers that run in the loop thread. */
  class TcpConnection {
    var state: StateE
    var wantRead: bool
    var wantWrite: bool
    var reading: bool
    var added: bool
    var outputBuffer: Bytes
    var tasks: seq<Task>
    const poller: PollerKind
    const highWaterMark: nat
    ghost var listed: bool
    ghost var due: Due
    ghost var destroyed: bool
    ghost var halfClose: HalfClose
    ghost var socket: Bytes
    ghost var log: seq<Sent>
    ghost var checked: set<Thread>
    ghost var delayed: nat
    ghost var ups: nat
    ghost var downs: nat
    ghost var closes: nat

    ghost function Now(): State
      reads this
    {
      State(poller, state, wantRead, wantWrite, reading, listed, added, due, outputBuffer, tasks, highWaterMark,
            destroyed, halfClose, socket, log, checked, delayed, ups, downs, closes)
    }

    constructor (kind: PollerKind, mark: nat)
      ensures Now() == Initial(kind, mark) && Inv(Now())
    {
      state, wantRead, wantWrite, reading, added, outputBuffer, tasks := Connecting, false, false, true, false, [], [];
      poller, highWaterMark, listed, due, destroyed := kind, mark, false, Nothing, false;
      halfClose, socket, log, checked, delayed, ups, downs, closes := NotYet, [], [], {}, 0, 0, 0, 0;
    }

    /** `Channel::update`. */
    method SetInterest(read: bool, write: bool)
      requires destroyed ==> poller.UsesEPoll?
      modifies this`wantRead, this`wantWrite, this`added, this`listed
      ensures Now() == Update(old(Now()), read, write)
    {
      wantRead, wantWrite, added := read, write, true;
      listed := read || write || (poller.UsesEPoll? && !listed);
    }

    /** The direct write, which is tried when nothing is in the output buffer. */
    method WriteDirectly(m: Bytes, w: WriteResult) returns (nwrote: nat, faultError: bool)
      requires Possible(Now(), |m|, w)
      modifies this`socket, this`tasks
      ensures nwrote == (if WritesDirectly(old(Now())) && w.Wrote? then w.n else 0) <= |m|
      ensures faultError <==> WritesDirectly(old(Now())) && w.Failed? && w.fault
      ensures socket == old(socket) + m[..nwrote]
      ensures tasks == old(tasks) + if WritesDirectly(old(Now())) && w.Wrote? && nwrote == |m| then [WriteComplete]
          else []
    {
      nwrote, faultError := 0, false;
      if !wantWrite && outputBuffer == [] {
        match w {
          case Wrote(n) =>
            nwrote := n;
            if |m| - nwrote == 0 {
              tasks := tasks + [WriteComplete];
            }
          case WouldBlock =>
          case Failed(fault) =>
            faultError := fault;
        }
      }
      socket := socket + m[..nwrote];
    }

    /** What the socket did not take is buffered, with a warning when the buffer crosses the mark. */
    method Buffer(rest: Bytes)
      requires !destroyed
      modifies this`outputBuffer, this`tasks, this`wantWrite, this`wantRead, this`added, this`listed
      ensures var s := old(Now());
              var u := s.(tasks := s.tasks + if |s.output| < s.mark <= |s.output| + |rest| then
                              [HighWater(|s.output| + |rest|)] else [],
                          output := s.output + rest);
              Now() == if s.wantWrite then u else Update(u, s.wantRead, true)
    {
      var oldLen, remaining := |outputBuffer|, |rest|;
      if oldLen + remaining >= highWaterMark && oldLen < highWaterMark {
        tasks := tasks + [HighWater(oldLen + remaining)];
      }
      outputBuffer := outputBuffer + rest;
      if !wantWrite {
        SetInterest(wantRead, true);
      }
    }

    /** `sendInLoop`, where the socket answers the direct write, if there is one, with `w`. */
    method Send(m: Bytes, w: WriteResult)
      requires Listing(Now()) && Possible(Now(), |m|, w)
      modifies this
      ensures Now() == SendInLoop(old(Now()), m, w)
    {
      if state.Disconnected? {
        log := log + [GivenUp(m)];
      } else {
        SendUp(m, w);
      }
    }

    method SendUp(m: Bytes, w: WriteResult)
      requires Listing(Now()) && Possible(Now(), |m|, w) && !state.Disconnected?
      modifies this`log, this`socket, this`tasks, this`outputBuffer, this`wantWrite, this`wantRead, this`added,
          this`listed
      ensures Now() == SendInLoop(old(Now()), m, w)
    {
      hide SendInLoop, Possible, Update;
      ghost var s := Now();
      SendUnfolds(s, m, w);
      var nwrote, faultError := WriteDirectly(m, w);
      log := log + [if faultError then Faulted(m) else Taken(m)];
      assert Now() == Tried(s, m, w);
      if !faultError && |m| - nwrote > 0 {
        Buffer(m[nwrote..]);
      }
    }

    method ShutdownWrite()
      requires Now().State?
      modifies this`halfClose
      ensures Now() == ShutdownInLoop(old(Now()))
    {
      if !wantWrite {
        if halfClose.NotYet? {
          halfClose := if state.Connected? || state.Disconnecting? then WhileUp else AfterClose;
        }
      }
    }

    method OnWritable(w: WriteResult)
      requires Inv(Now()) && Enabled(Now(), Writable(w))
      modifies this
      ensures Now() == HandleWrite(old(Now()), w) && Inv(Now())
    {
      WriteKeeps(Now(), w);
      InvIsState(Now());
      hide Inv;
      if wantWrite && w.Wrote? && w.n > 0 {
        socket := socket + outputBuffer[..w.n];
        outputBuffer := outputBuffer[w.n..];
        if outputBuffer == [] {
          tasks := tasks + [WriteComplete];
          SetInterest(wantRead, false);
          if state.Disconnecting? {
            ShutdownWrite();
          }
        }
      }
    }

    /** `handleClose`. */
    method OnClose()
      requires Up(Now()) && !destroyed
      modifies this
      ensures Now() == HandleClose(old(Now()))
    {
      assert state.Connected? || state.Disconnecting?;
      state, downs, closes := Disconnected, downs + 1, closes + 1;
      SetInterest(false, false);
    }

    /** `handleRead`, and a hang-up: the connection is up whenever one of them is called. */
    method OnReadable(r: ReadResult)
      requires Inv(Now()) && Enabled(Now(), Readable(r))
      modifies this
      ensures Now() == Apply(old(Now()), Readable(r)) && Inv(Now())
    {
      StepKeeps(Now(), Readable(r));
      InvIsState(Now());
      hide Inv, HandleClose;
      due := Nothing;
      if r.Eof? {
        OnClose();
      }
    }

    method OnHangUp()
      requires Inv(Now()) && Enabled(Now(), HangUp)
      modifies this
      ensures Now() == Apply(old(Now()), HangUp) && Inv(Now())
    {
      StepKeeps(Now(), HangUp);
      InvIsState(Now());
      hide Inv, HandleClose;
      due := Nothing;
      OnClose();
    }

    method StartReadInLoop()
      requires Inv(Now()) && Enabled(Now(), StartRead) && Tidy(Now(), StartRead)
      modifies this
      ensures Now() == Apply(old(Now()), StartRead) && Inv(Now())
    {
      StepKeeps(Now(), StartRead);
      InvIsState(Now());
      hide Inv;
      if !reading || !wantRead {
        reading := true;
        SetInterest(true, wantWrite);
      }
    }

    method StopReadInLoop()
      requires Inv(Now()) && Enabled(Now(), StopRead) && Tidy(Now(), StopRead)
      modifies this
      ensures Now() == Apply(old(Now()), StopRead) && Inv(Now())
    {
      StepKeeps(Now(), StopRead);
      UpdatesWhenStopping(Now());
      hide Inv;
      if reading || wantRead {
        reading := false;
        SetInterest(false, wantWrite);
      }
    }

    /** `connectDestroyed`, with the assertion of `Channel::remove`. */
    method ConnectDestroyed()
      requires Inv(Now()) && Enabled(Now(), Destroy) && Tidy(Now(), Destroy)
      modifies this
      ensures Now() == Apply(old(Now()), Destroy) && Inv(Now())
    {
      StepKeeps(Now(), Destroy);
      hide Inv;
      if state.Connected? {
        state, downs := Disconnected, downs + 1;
        SetInterest(false, false);
      }
      assert !wantRead && !wantWrite;
      destroyed, listed, added := true, false, false;
    }

    /** Runs the task at the head of the loop's queue. */
    method RunFirst(w: WriteResult)
      requires Inv(Now()) && Enabled(Now(), RunTask(w))
      modifies this
      ensures Now() == Apply(old(Now()), RunTask(w)) && Inv(Now())
    {
      TaskKeeps(Now(), w);
      InvIsState(Now());
      hide Inv, SendInLoop, ShutdownInLoop, HandleClose;
      var task := tasks[0];
      tasks := tasks[1..];
      match task {
        case SendTask(m) => Send(m, w);
        case ShutdownTask => ShutdownWrite();
        case ForceCloseTask =>
          if state.Connected? || state.Disconnecting? {
            OnClose();
          }
        case _ =>
      }
    }
  }
}
