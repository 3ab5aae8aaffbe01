/** The cross-thread functor queue of muduo/net/EventLoop.cc. Every critical section, system call and
    loop-thread action is one step; the steps of the loop thread and of any number of other threads
    interleave freely. The kernel's eventfd counter is part of the state. */
module EventLoops {
  import opened Machines

  /** Functors and foreign threads are known by number. */
  type Functor = nat
  type Thread = nat

  /** Where the loop thread is: outside `loop`, at `while (!quit_)`, in `poll`, handling active channels
      (the wakeup channel still among them or not), before the swap, or running the swapped-out functors. */
  datatype Phase = Idle | Top | Polling | Events(wakeReady: bool) | Swapping | Running(rest: seq<Functor>)

  /** `queued` and `ran` are the histories of pushes and of calls. `waking` holds the foreign threads between
      their push (or `quit_ = true`) and their write to the eventfd; `wakingHere` says the same of the loop thread. */
  datatype State = State(pending: seq<Functor>, calling: bool, eventfd: nat, quit: bool, phase: Phase,
                         waking: set<Thread>, wakingHere: bool, queued: seq<Functor>, ran: seq<Functor>)

  datatype Step =
    | Push(t: Thread, f: Functor)
    | Quit(t: Thread)
    | Wake(t: Thread)
    | PushHere(f: Functor)
    | QuitHere
    | WakeHere
    | EnterLoop
    | CheckQuit
    | PollReturns
    | ReadEventfd
    | EndEvents
    | Swap
    | RunNext
    | EndBatch

  const EVENTFD_MAX := 0xffff_ffff_ffff_fffe

  function Initial(): State {
    State([], false, 0, false, Idle, {}, false, [], [])
  }

  /** A write of 1 to the non-blocking eventfd: it fails, leaving the counter, when the counter is full. */
  function Written(counter: nat): nat {
    if counter < EVENTFD_MAX then counter + 1 else counter
  }

  /** Code of the user runs in the loop thread outside `loop`, in channel callbacks and in functors. */
  predicate UserCode(s: State) {
    !s.wakingHere && (s.phase.Idle? || s.phase.Events? || s.phase.Running?)
  }

  predicate Enabled(s: State, step: Step) {
    match step
    case Push(t, f) => t !in s.waking
    case Quit(t) => t !in s.waking
    case Wake(t) => t in s.waking
    case PushHere(f) => UserCode(s)
    case QuitHere => UserCode(s)
    case WakeHere => s.wakingHere
    case EnterLoop => s.phase.Idle? && !s.wakingHere
    case CheckQuit => s.phase.Top?
    case PollReturns => s.phase.Polling?
    case ReadEventfd => s.phase.Events? && s.phase.wakeReady && !s.wakingHere
    case EndEvents => s.phase.Events? && !s.phase.wakeReady && !s.wakingHere
    case Swap => s.phase.Swapping?
    case RunNext => s.phase.Running? && s.phase.rest != [] && !s.wakingHere
    case EndBatch => s.phase.Running? && s.phase.rest == [] && !s.wakingHere
  }

  function Apply(s: State, step: Step): State
    requires Enabled(s, step)
  {
    match step
    case Push(t, f) => s.(pending := s.pending + [f], queued := s.queued + [f], waking := s.waking + {t})
    case Quit(t) => s.(quit := true, waking := s.waking + {t})
    case Wake(t) => s.(eventfd := Written(s.eventfd), waking := s.waking - {t})
    case PushHere(f) => s.(pending := s.pending + [f], queued := s.queued + [f], wakingHere := s.calling)
    case QuitHere => s.(quit := true)
    case WakeHere => s.(eventfd := Written(s.eventfd), wakingHere := false)
    case EnterLoop => s.(quit := false, phase := Top)
    case CheckQuit => s.(phase := if s.quit then Idle else Polling)
    case PollReturns => s.(phase := Events(s.eventfd > 0))
    case ReadEventfd => s.(eventfd := 0, phase := Events(false))
    case EndEvents => s.(calling := true, phase := Swapping)
    case Swap => s.(pending := [], phase := Running(s.pending))
    case RunNext => s.(phase := Running(s.phase.rest[1..]), ran := s.ran + [s.phase.rest[0]])
    case EndBatch => s.(calling := false, phase := Top)
  }

  function Next(s: State, step: Step): Option<State> {
    if Enabled(s, step) then Some(Apply(s, step)) else None
  }

  // What every step keeps.

  function InFlight(s: State): seq<Functor> {
    if s.phase.Running? then s.phase.rest else []
  }

  /** Somebody has made, or is about to make, the eventfd readable. */
  predicate WakeupComing(s: State) {
    s.eventfd > 0 || s.waking != {} || s.wakingHere
  }

  predicate Inv(s: State) {
    && s.ran + InFlight(s) + s.pending == s.queued
    && (s.calling <==> s.phase.Swapping? || s.phase.Running?)
    && (s.wakingHere ==> s.phase.Running?)
    && (s.phase.Top? || s.phase.Polling? || s.phase.Running? ==> s.pending == [] || WakeupComing(s))
    && NoLostQuit(s)
  }

  /** The loop never sleeps on a functor that nobody will wake it for. */
  predicate NoLostWakeup(s: State) {
    s.phase.Polling? && s.pending != [] ==> s.eventfd > 0 || s.waking != {}
  }

  /** Nor when it was asked to quit. */
  predicate NoLostQuit(s: State) {
    s.phase.Polling? && s.quit ==> s.eventfd > 0 || s.waking != {}
  }

  /** Functors run in the order in which they were queued, each once, none skipped. */
  predicate Fifo(s: State) {
    s.ran <= s.queued
  }

  /** `loop` may be entered: nothing was queued, or a wakeup for it is on its way. */
  predicate EntryOk(s: State) {
    s.pending == [] || s.eventfd > 0 || s.waking != {}
  }

  lemma StepKeepsInv(s: State, step: Step)
    requires Inv(s) && Enabled(s, step) && (step.EnterLoop? ==> EntryOk(s))
    ensures Inv(Apply(s, step))
  {
    var s' := Apply(s, step);
    match step {
      case Wake(t) => assert s'.eventfd > 0;
      case Push(t, f) => assert t in s'.waking;
          assert s'.ran + InFlight(s') + s'.pending == s.ran + InFlight(s) + s.pending + [f];
      case PushHere(f) => assert s'.ran + InFlight(s') + s'.pending == s.ran + InFlight(s) + s.pending + [f];
      case Quit(t) => assert t in s'.waking;
      case RunNext => assert s'.ran + InFlight(s') == s.ran + InFlight(s);
      case _ =>
    }
  }

  /** The steps, with `loop` entered only when the queue is empty or a wakeup is under way. */
  function NextWhenEntered(s: State, step: Step): Option<State> {
    if step.EnterLoop? && !EntryOk(s) then None else Next(s, step)
  }

  // What was asked for, by the steps alone.

  /** The functors that all threads pushed, in order. */
  function Pushed(steps: seq<Step>): seq<Functor> {
    if steps == [] then []
    else
      Pushed(steps[..|steps| - 1]) + match steps[|steps| - 1]
        case Push(_, f) => [f]
        case PushHere(f) => [f]
        case _ => []
  }

  /** Somebody called `quit` since `loop` was entered. */
  function AskedToQuit(steps: seq<Step>): bool {
    steps != [] && match steps[|steps| - 1]
      case Quit(_) => true
      case QuitHere => true
      case EnterLoop => false
      case _ => AskedToQuit(steps[..|steps| - 1])
  }

  lemma {:induction false} QueuedIsPushed(s: State, steps: seq<Step>)
    requires Run(Next, s, steps).Some?
    ensures Run(Next, s, steps).value.queued == s.queued + Pushed(steps)
  {
    hide Run;
    if steps == [] {
      NoSteps(s);
    } else {
      LastOfRun(Next, s, steps);
      QueuedIsPushed(s, steps[..|steps| - 1]);
    }
  }

  lemma {:induction false} QuitIsAsked(steps: seq<Step>)
    requires Run(Next, Initial(), steps).Some?
    ensures Run(Next, Initial(), steps).value.quit == AskedToQuit(steps)
  {
    hide Run;
    if steps == [] {
      NoSteps(Initial());
    } else {
      LastOfRun(Next, Initial(), steps);
      QuitIsAsked(steps[..|steps| - 1]);
    }
  }

  /** The loop goes on to poll exactly when nobody has asked it to quit since it was entered; and it does not sleep on
      such a request. */
  lemma QuitDecides(steps: seq<Step>)
    requires Run(Next, Initial(), steps + [CheckQuit]).Some? && Run(Next, Initial(), steps).Some?
    ensures Run(Next, Initial(), steps + [CheckQuit]).value.phase == if AskedToQuit(steps) then Idle else Polling
  {
    StepAfterRun(Next, Initial(), steps, CheckQuit);
    QuitIsAsked(steps);
    hide Run, AskedToQuit;
  }

  lemma {:induction false} EnteredIsRun(s: State, steps: seq<Step>)
    requires Run(NextWhenEntered, s, steps).Some?
    ensures Run(Next, s, steps) == Run(NextWhenEntered, s, steps)
    decreases |steps|
  {
    hide Next;
    if steps != [] {
      EnteredIsRun(Next(s, steps[0]).value, steps[1..]);
    }
  }

  /** In every interleaving, no wakeup is lost, and the functors run are a prefix of those queued, which are those that
      were there and then the ones that were pushed. */
  lemma EveryRunIsSafe(s: State, steps: seq<Step>)
    requires Inv(s) && Run(NextWhenEntered, s, steps).Some?
    ensures var z := Run(NextWhenEntered, s, steps).value;
            Inv(z) && NoLostWakeup(z) && NoLostQuit(z) && Fifo(z) && z.queued == s.queued + Pushed(steps)
  {
    hide Run;
    forall x, a | Inv(x) && NextWhenEntered(x, a).Some?
      ensures Inv(NextWhenEntered(x, a).value)
    {
      StepKeepsInv(x, a);
    }
    KeptByRuns(NextWhenEntered, Inv, s, steps);
    EnteredIsRun(s, steps);
    QueuedIsPushed(s, steps);
    hide Next, NextWhenEntered, Pushed;
    var z := Run(NextWhenEntered, s, steps).value;
    assert z.queued == z.ran + (InFlight(z) + z.pending);
  }

  /** The steps inside one call of `loop`, and after it. */
  function NextInside(s: State, step: Step): Option<State> {
    if step.EnterLoop? then None else Next(s, step)
  }

  ghost predicate NeverLosesAWakeup(s: State) {
    forall steps :: Run(NextInside, s, steps).Some? ==> NoLostWakeup(Run(NextInside, s, steps).value)
  }

  /** The condition at entry is exact: a functor that the loop thread queued before `loop()`, with no
      other wakeup around, is one that the loop sleeps on. */
  lemma EntryDecides(s: State)
    requires Inv(s) && s.phase.Idle?
    ensures NeverLosesAWakeup(Apply(s, EnterLoop)) <==> EntryOk(s)
  {
    var e := Apply(s, EnterLoop);
    if EntryOk(s) {
      StepKeepsInv(s, EnterLoop);
      forall x, a | Inv(x) && NextInside(x, a).Some?
        ensures Inv(NextInside(x, a).value)
      {
        StepKeepsInv(x, a);
      }
      forall steps | Run(NextInside, e, steps).Some?
        ensures NoLostWakeup(Run(NextInside, e, steps).value)
      {
        KeptByRuns(NextInside, Inv, e, steps);
      }
    } else {
      OneStep(NextInside, e, CheckQuit);
      assert !NoLostWakeup(Run(NextInside, e, [CheckQuit]).value);
    }
  }

  /** Queued before `loop()` by the loop thread itself, a functor gets no wakeup. */
  lemma QueuedTooEarly(f: Functor)
    ensures var s := Apply(Initial(), PushHere(f)); Inv(s) && !NeverLosesAWakeup(Apply(s, EnterLoop))
  {
    var s := Apply(Initial(), PushHere(f));
    EntryDecides(s);
  }

  // A wakeup that comes is enough.

  function RunAll(n: nat): seq<Step> {
    seq(n, i => RunNext)
  }

  lemma {:induction false} BatchRuns(s: State)
    requires s.phase.Running? && !s.wakingHere
    ensures Run(Next, s, RunAll(|s.phase.rest|)) == Some(s.(phase := Running([]), ran := s.ran + s.phase.rest))
    decreases |s.phase.rest|
  {
    var rest := s.phase.rest;
    if rest == [] {
      assert s.ran + rest == s.ran;
    } else {
      BatchRuns(Apply(s, RunNext));
      assert RunAll(|rest|)[1..] == RunAll(|rest| - 1);
      assert s.ran + [rest[0]] + rest[1..] == s.ran + rest;
    }
  }

  /** The steps that the loop thread takes by itself from a poll that the eventfd wakes up. */
  function WakeAndRun(s: State): seq<Step> {
    [PollReturns, ReadEventfd, EndEvents, Swap] + RunAll(|s.pending|)
  }

  lemma ToTheBatch(s: State)
    requires Inv(s) && s.phase.Polling? && s.eventfd > 0
    ensures Run(Next, s, [PollReturns, ReadEventfd, EndEvents, Swap])
            == Some(s.(eventfd := 0, calling := true, pending := [], phase := Running(s.pending)))
  {
    hide Run;
    OneStep(Next, s, PollReturns);
    StepAfterRun(Next, s, [PollReturns], ReadEventfd);
    assert [PollReturns] + [ReadEventfd] == [PollReturns, ReadEventfd];
    StepAfterRun(Next, s, [PollReturns, ReadEventfd], EndEvents);
    assert [PollReturns, ReadEventfd] + [EndEvents] == [PollReturns, ReadEventfd, EndEvents];
    StepAfterRun(Next, s, [PollReturns, ReadEventfd, EndEvents], Swap);
    assert [PollReturns, ReadEventfd, EndEvents] + [Swap] == [PollReturns, ReadEventfd, EndEvents, Swap];
  }

  /** When the eventfd is readable, the loop thread on its own goes on to run everything that is queued. */
  lemma WakeupRunsEverything(s: State)
    requires Inv(s) && s.phase.Polling? && s.eventfd > 0
    ensures var z := Run(Next, s, WakeAndRun(s));
            z.Some? && z.value.ran == s.queued && z.value.pending == [] && z.value.phase == Running([])
  {
    hide Run, Next;
    ToTheBatch(s);
    var d := Run(Next, s, [PollReturns, ReadEventfd, EndEvents, Swap]).value;
    BatchRuns(d);
    RunsCompose(Next, s, [PollReturns, ReadEventfd, EndEvents, Swap], RunAll(|s.pending|));
    assert s.ran + InFlight(s) + s.pending == s.ran + s.pending;
  }

  /** Every functor that any thread pushed since the start has been run, in order, when a wakeup was served. */
  lemma PushedFunctorsRun(steps: seq<Step>)
    requires Run(NextWhenEntered, Initial(), steps).Some?
    requires var z := Run(NextWhenEntered, Initial(), steps).value; z.phase.Polling? && z.eventfd > 0
    ensures var all := steps + WakeAndRun(Run(NextWhenEntered, Initial(), steps).value);
            Run(Next, Initial(), all).Some? && Run(Next, Initial(), all).value.ran == Pushed(steps)
  {
    EveryRunIsSafe(Initial(), steps);
    EnteredIsRun(Initial(), steps);
    var z := Run(NextWhenEntered, Initial(), steps).value;
    hide Run, Inv, Pushed;
    WakeupRunsEverything(z);
    RunsCompose(Next, Initial(), steps, WakeAndRun(z));
    assert [] + Pushed(steps) == Pushed(steps);
  }

  /** So functors that wait while the loop polls are always run: at once, or after one write that is under way. */
  lemma PendingFunctorsGetRun(s: State) returns (steps: seq<Step>)
    requires Inv(s) && s.phase.Polling? && s.pending != []
    ensures Run(Next, s, steps).Some? && Run(Next, s, steps).value.ran == s.queued
  {
    if s.eventfd > 0 {
      WakeupRunsEverything(s);
      steps := WakeAndRun(s);
    } else {
      var t :| t in s.waking;
      var w := Apply(s, Wake(t));
      StepKeepsInv(s, Wake(t));
      WakeupRunsEverything(w);
      OneStep(Next, s, Wake(t));
      RunsCompose(Next, s, [Wake(t)], WakeAndRun(w));
      steps := [Wake(t)] + WakeAndRun(w);
    }
  }

  /** What a foreign thread does. */
  datatype Foreign = PushBy(t: Thread, f: Functor) | QuitBy(t: Thread) | WakeBy(t: Thread)

  function StepOf(a: Foreign): Step {
    match a
    case PushBy(t, f) => Push(t, f)
    case QuitBy(t) => Quit(t)
    case WakeBy(t) => Wake(t)
  }

  lemma NoSteps(s: State)
    ensures Run(Next, s, []) == Some(s)
  {
  }

  lemma StepTaken(s: State, step: Step)
    requires Inv(s) && Enabled(s, step) && !step.EnterLoop?
    ensures Run(Next, s, [step]) == Some(Apply(s, step)) && Inv(Apply(s, step))
  {
    OneStep(Next, s, step);
    StepKeepsInv(s, step);
  }

  lemma CallingIsRunning(s: State)
    requires Inv(s) && UserCode(s)
    ensures s.calling <==> s.phase.Running?
  {
  }

  lemma NobodyElse(waking: set<Thread>)
    ensures WakingAfter(waking, []) == waking
  {
  }

  lemma AllQueued(s: State)
    requires Inv(s) && s.phase.Swapping?
    ensures s.queued == s.ran + s.pending
  {
    assert s.ran + InFlight(s) + s.pending == s.ran + s.pending;
  }

  lemma BatchEnds(s: State)
    requires Inv(s) && Enabled(s, EndBatch)
    ensures Inv(Apply(s, EndBatch)) && NoLostWakeup(s.(phase := Polling)) && s.ran <= s.queued
  {
    assert s.queued == s.ran + (InFlight(s) + s.pending);
  }

  /** What a functor does to the queue of its own loop, and what foreign threads do meanwhile, or between a push of
      the functor and its wakeup. */
  datatype Action = Queue(f: Functor, others: seq<Foreign>) | AskQuit | Meanwhile(others: seq<Foreign>)

  // The steps that these come to. A thread does nothing else between its push and its wakeup.

  predicate May(waking: set<Thread>, a: Foreign) {
    if a.WakeBy? then a.t in waking else a.t !in waking
  }

  function WakingAfter(waking: set<Thread>, others: seq<Foreign>): set<Thread> {
    if others == [] then waking
    else
      var w, a := WakingAfter(waking, others[..|others| - 1]), others[|others| - 1];
      if !May(w, a) then w else if a.WakeBy? then w - {a.t} else w + {a.t}
  }

  function StepsOf(waking: set<Thread>, others: seq<Foreign>): seq<Step> {
    if others == [] then []
    else
      var init, a := others[..|others| - 1], others[|others| - 1];
      StepsOf(waking, init) + if May(WakingAfter(waking, init), a) then [StepOf(a)] else []
  }

  /** `queueInLoop` from the loop thread wakes the loop up when functors are being run. */
  function QueueSteps(waking: set<Thread>, f: Functor, others: seq<Foreign>, running: bool): seq<Step> {
    [PushHere(f)] + StepsOf(waking, others) + if running then [WakeHere] else []
  }

  function OthersOf(a: Action): seq<Foreign> {
    if a.AskQuit? then [] else a.others
  }

  function WakingAfterAll(waking: set<Thread>, actions: seq<Action>): set<Thread> {
    if actions == [] then waking
    else WakingAfter(WakingAfterAll(waking, actions[..|actions| - 1]), OthersOf(actions[|actions| - 1]))
  }

  function ActionSteps(waking: set<Thread>, actions: seq<Action>): seq<Step> {
    if actions == [] then []
    else
      var init, a := actions[..|actions| - 1], actions[|actions| - 1];
      var w := WakingAfterAll(waking, init);
      ActionSteps(waking, init) + StepsOfAction(w, a)
  }

  function StepsOfAction(waking: set<Thread>, a: Action): seq<Step> {
    match a
    case Queue(f, others) => QueueSteps(waking, f, others, true)
    case AskQuit => [QuitHere]
    case Meanwhile(others) => StepsOf(waking, others)
  }

  function WakingAfterBatch(waking: set<Thread>, functors: seq<Functor>, script: Functor -> seq<Action>): set<Thread> {
    if functors == [] then waking
    else
      WakingAfterAll(WakingAfterBatch(waking, functors[..|functors| - 1], script), script(functors[|functors| - 1]))
  }

  function BatchSteps(waking: set<Thread>, functors: seq<Functor>, script: Functor -> seq<Action>): seq<Step> {
    if functors == [] then []
    else
      var init, f := functors[..|functors| - 1], functors[|functors| - 1];
      BatchSteps(waking, init, script) + [RunNext] + ActionSteps(WakingAfterBatch(waking, init, script), script(f))
  }

  lemma OneMoreAction(waking: set<Thread>, actions: seq<Action>, i: nat)
    requires i < |actions|
    ensures var w := WakingAfterAll(waking, actions[..i]);
            && WakingAfterAll(waking, actions[..i + 1]) == WakingAfter(w, OthersOf(actions[i]))
            && [RunNext] + ActionSteps(waking, actions[..i + 1])
               == [RunNext] + ActionSteps(waking, actions[..i]) + StepsOfAction(w, actions[i])
  {
    hide WakingAfter, StepsOfAction, OthersOf;
    assert actions[..i + 1][..i] == actions[..i];
  }

  lemma NoActions(waking: set<Thread>)
    ensures ActionSteps(waking, []) == [] && WakingAfterAll(waking, []) == waking
  {
  }

  lemma OneMoreFunctor(waking: set<Thread>, functors: seq<Functor>, i: nat, script: Functor -> seq<Action>)
    requires i < |functors|
    ensures var w := WakingAfterBatch(waking, functors[..i], script);
            && WakingAfterBatch(waking, functors[..i + 1], script) == WakingAfterAll(w, script(functors[i]))
            && BatchSteps(waking, functors[..i + 1], script)
               == BatchSteps(waking, functors[..i], script) + ([RunNext] + ActionSteps(w, script(functors[i])))
  {
    hide WakingAfterAll, ActionSteps;
    assert functors[..i + 1][..i] == functors[..i];
  }

  lemma NoFunctors(waking: set<Thread>, script: Functor -> seq<Action>)
    ensures BatchSteps(waking, [], script) == [] && WakingAfterBatch(waking, [], script) == waking
  {
  }

  /** The object itself. Each method is one step of the machine above, or a stretch of the loop thread's steps with
      those of foreign threads in between. */
  class EventLoop {
    var pendingFunctors: seq<Functor>
    var callingPendingFunctors: bool
    var wakeupFd: nat
    var quit: bool
    ghost var phase: Phase
    var waking: set<Thread>
    ghost var wakingHere: bool
    ghost var queued: seq<Functor>
    ghost var ran: seq<Functor>

    ghost function Now(): State
      reads this
    {
      State(pendingFunctors, callingPendingFunctors, wakeupFd, quit, phase, waking, wakingHere, queued, ran)
    }

    constructor ()
      ensures Now() == Initial() && Inv(Now())
    {
      pendingFunctors, callingPendingFunctors, wakeupFd, quit, waking := [], false, 0, false, {};
      phase, wakingHere, queued, ran := Idle, false, [], [];
    }

    /** The critical section of `queueInLoop`, and whether a call of `Wakeup` has to follow it. */
    method PushBack(f: Functor, inLoopThread: bool, t: Thread) returns (wakeup: bool)
      requires Enabled(Now(), if inLoopThread then PushHere(f) else Push(t, f))
      modifies this
      ensures Now() == Apply(old(Now()), if inLoopThread then PushHere(f) else Push(t, f))
      ensures wakeup <==> if inLoopThread then wakingHere else t in waking
    {
      pendingFunctors := pendingFunctors + [f];
      wakeup := !inLoopThread || callingPendingFunctors;
      queued := queued + [f];
      if inLoopThread {
        wakingHere := wakeup;
      } else {
        waking := waking + {t};
      }
    }

    method Wakeup(inLoopThread: bool, t: Thread)
      requires Enabled(Now(), if inLoopThread then WakeHere else Wake(t))
      modifies this
      ensures Now() == Apply(old(Now()), if inLoopThread then WakeHere else Wake(t))
    {
      if wakeupFd < EVENTFD_MAX {
        wakeupFd := wakeupFd + 1;
      }
      if inLoopThread {
        wakingHere := false;
      } else {
        waking := waking - {t};
      }
    }

    /** `handleRead`: a read takes the whole counter. */
    method HandleRead()
      requires Enabled(Now(), ReadEventfd)
      modifies this
      ensures Now() == Apply(old(Now()), ReadEventfd)
    {
      wakeupFd := 0;
      phase := Events(false);
    }

    /** Foreign threads run. One that has yet to write to the eventfd does that before anything else. */
    method Others(others: seq<Foreign>) returns (ghost steps: seq<Step>)
      requires Inv(Now())
      modifies this
      ensures steps == StepsOf(old(waking), others) && waking == WakingAfter(old(waking), others)
      ensures Run(Next, old(Now()), steps) == Some(Now()) && Inv(Now())
      ensures phase == old(phase) && ran == old(ran) && wakingHere == old(wakingHere) && old(queued) <= queued
    {
      hide Run, Inv;
      ghost var s := Now();
      steps := [];
      NoSteps(s);
      for i := 0 to |others|
        invariant steps == StepsOf(s.waking, others[..i]) && waking == WakingAfter(s.waking, others[..i])
        invariant Run(Next, s, steps) == Some(Now()) && Inv(Now())
        invariant phase == s.phase && ran == s.ran && wakingHere == s.wakingHere && s.queued <= queued
      {
        ghost var before := Now();
        ghost var step := StepOf(others[i]);
        assert others[..i + 1][..i] == others[..i];
        if May(waking, others[i]) {
          StepKeepsInv(before, step);
          StepAfterRun(Next, s, steps, step);
          match others[i] {
            case PushBy(t, f) =>
              var _ := PushBack(f, false, t);
            case QuitBy(t) =>
              quit, waking := true, waking + {t};
            case WakeBy(t) =>
              Wakeup(false, t);
          }
          assert Now() == Apply(before, step);
          steps := steps + [step];
        }
      }
      assert others[..|others|] == others;
    }

    /** `queueInLoop` as the loop thread calls it, with the steps it takes. */
    method QueueHere(f: Functor, others: seq<Foreign>) returns (ghost steps: seq<Step>)
      requires Inv(Now()) && UserCode(Now())
      modifies this
      ensures steps == QueueSteps(old(waking), f, others, old(phase).Running?)
      ensures waking == WakingAfter(old(waking), others)
      ensures Run(Next, old(Now()), steps) == Some(Now()) && Inv(Now())
      ensures phase == old(phase) && ran == old(ran) && old(queued) + [f] <= queued && !wakingHere
    {
      hide Run, Inv;
      ghost var s := Now();
      CallingIsRunning(s);
      StepTaken(s, PushHere(f));
      var wakeup := PushBack(f, true, 0);
      steps := [PushHere(f)];
      ghost var more := Others(others);
      RunsCompose(Next, s, steps, more);
      steps := steps + more;
      if wakeup {
        StepKeepsInv(Now(), WakeHere);
        StepAfterRun(Next, s, steps, WakeHere);
        Wakeup(true, 0);
        steps := steps + [WakeHere];
      }
    }

    method Act(a: Action) returns (ghost steps: seq<Step>)
      requires Inv(Now()) && phase.Running? && !wakingHere
      modifies this
      ensures steps == StepsOfAction(old(waking), a) && waking == WakingAfter(old(waking), OthersOf(a))
      ensures Run(Next, old(Now()), steps) == Some(Now()) && Inv(Now())
      ensures phase == old(phase) && ran == old(ran) && old(queued) <= queued && !wakingHere
    {
      hide Run, Inv, QueueSteps, StepsOf, WakingAfter;
      NobodyElse(waking);
      match a {
        case Queue(g, others) =>
          steps := QueueHere(g, others);
        case AskQuit =>
          StepTaken(Now(), QuitHere);
          quit := true;
          steps := [QuitHere];
        case Meanwhile(others) =>
          steps := Others(others);
      }
    }

    /** One functor: it is called, and queues others or asks the loop to quit. */
    method Call(f: Functor, actions: seq<Action>) returns (ghost steps: seq<Step>)
      requires Inv(Now()) && phase.Running? && phase.rest != [] && f == phase.rest[0] && !wakingHere
      modifies this
      ensures steps == [RunNext] + ActionSteps(old(waking), actions) && waking == WakingAfterAll(old(waking), actions)
      ensures Run(Next, old(Now()), steps) == Some(Now()) && Inv(Now())
      ensures phase == Running(old(phase.rest)[1..]) && ran == old(ran) + [f] && old(queued) <= queued && !wakingHere
    {
      hide Run, Inv, StepsOfAction, WakingAfter, ActionSteps, WakingAfterAll, Next;
      ghost var s := Now();
      StepTaken(s, RunNext);
      NoActions(waking);
      phase, ran := Running(phase.rest[1..]), ran + [f];
      steps := [RunNext];
      for i := 0 to |actions|
        invariant steps == [RunNext] + ActionSteps(s.waking, actions[..i])
        invariant waking == WakingAfterAll(s.waking, actions[..i])
        invariant Run(Next, s, steps) == Some(Now()) && Inv(Now())
        invariant phase == Running(s.phase.rest[1..]) && ran == s.ran + [f] && s.queued <= queued && !wakingHere
      {
        OneMoreAction(s.waking, actions, i);
        ghost var more := Act(actions[i]);
        RunsCompose(Next, s, steps, more);
        steps := steps + more;
      }
      assert actions[..|actions|] == actions;
    }

    method BeginCalling(beforeSwap: seq<Foreign>) returns (ghost steps: seq<Step>)
      requires Inv(Now()) && phase == Events(false) && !wakingHere
      modifies this
      ensures steps == [EndEvents] + StepsOf(old(waking), beforeSwap) && waking == WakingAfter(old(waking), beforeSwap)
      ensures Run(Next, old(Now()), steps) == Some(Now()) && Inv(Now())
      ensures phase.Swapping? && !wakingHere && old(queued) <= queued
    {
      hide Run, Inv, Next;
      ghost var s := Now();
      StepTaken(s, EndEvents);
      callingPendingFunctors, phase := true, Swapping;
      steps := Others(beforeSwap);
      RunsCompose(Next, s, [EndEvents], steps);
      steps := [EndEvents] + steps;
    }

    method RunBatch(functors: seq<Functor>, script: Functor -> seq<Action>) returns (ghost steps: seq<Step>)
      requires Inv(Now()) && phase == Running(functors) && !wakingHere
      modifies this
      ensures steps == BatchSteps(old(waking), functors, script)
      ensures Run(Next, old(Now()), steps) == Some(Now()) && Inv(Now())
      ensures phase == Running([]) && ran == old(ran) + functors && !wakingHere
    {
      hide Run, Inv, Next, ActionSteps, WakingAfterAll, BatchSteps, WakingAfterBatch;
      ghost var s := Now();
      steps := [];
      NoFunctors(waking, script);
      NoSteps(s);
      for i := 0 to |functors|
        invariant steps == BatchSteps(s.waking, functors[..i], script)
        invariant waking == WakingAfterBatch(s.waking, functors[..i], script)
        invariant Run(Next, s, steps) == Some(Now()) && Inv(Now())
        invariant phase == Running(functors[i..]) && ran == s.ran + functors[..i] && !wakingHere
      {
        OneMoreFunctor(s.waking, functors, i, script);
        ghost var more := Call(functors[i], script(functors[i]));
        RunsCompose(Next, s, steps, more);
        steps := steps + more;
      }
      assert functors[..|functors|] == functors;
    }

    /** `doPendingFunctors`, whatever foreign threads do before the swap, before the first functor, and while functors
        run: it runs exactly what was queued at the swap, each functor with all that it does, and for what is queued
        later a wakeup is there or on its way. */
    method DoPendingFunctors(beforeSwap: seq<Foreign>, afterSwap: seq<Foreign>, script: Functor -> seq<Action>)
        returns (ghost first: seq<Step>, ghost atSwap: State, ghost rest: seq<Step>)
      requires Inv(Now()) && phase == Events(false) && !wakingHere
      modifies this
      ensures first == [EndEvents] + StepsOf(old(waking), beforeSwap)
      ensures var w := atSwap.waking;
              rest == [Swap] + StepsOf(w, afterSwap) + BatchSteps(WakingAfter(w, afterSwap), atSwap.pending, script)
                      + [EndBatch]
      ensures Run(Next, old(Now()), first) == Some(atSwap) && Run(Next, atSwap, rest) == Some(Now())
      ensures atSwap.phase.Swapping? && old(queued) <= atSwap.queued && ran == atSwap.queued
      ensures Inv(Now()) && phase == Top && ran <= queued
      ensures pendingFunctors != [] ==> wakeupFd > 0 || waking != {}
    {
      hide Run, Inv, Next, Apply, StepsOf, BatchSteps, WakingAfter;
      first := BeginCalling(beforeSwap);
      atSwap := Now();
      AllQueued(atSwap);
      var functors;
      functors, rest := SwapFunctors(afterSwap);
      ghost var more := RunBatch(functors, script);
      RunsCompose(Next, atSwap, rest, more);
      rest := rest + more;
      ghost var last := EndCalling();
      RunsCompose(Next, atSwap, rest, last);
      rest := rest + last;
    }

    method SwapFunctors(afterSwap: seq<Foreign>) returns (functors: seq<Functor>, ghost steps: seq<Step>)
      requires Inv(Now()) && phase.Swapping? && !wakingHere
      modifies this
      ensures functors == old(pendingFunctors) && ran == old(ran) && phase == Running(functors) && !wakingHere
      ensures steps == [Swap] + StepsOf(old(waking), afterSwap) && waking == WakingAfter(old(waking), afterSwap)
      ensures Run(Next, old(Now()), steps) == Some(Now()) && Inv(Now())
    {
      hide Run, Inv, Next, StepsOf, WakingAfter;
      ghost var s := Now();
      StepTaken(s, Swap);
      functors := pendingFunctors;
      pendingFunctors, phase := [], Running(functors);
      steps := Others(afterSwap);
      RunsCompose(Next, s, [Swap], steps);
      steps := [Swap] + steps;
    }

    method EndCalling() returns (ghost steps: seq<Step>)
      requires Inv(Now()) && phase == Running([]) && !wakingHere
      modifies this
      ensures steps == [EndBatch] && Run(Next, old(Now()), steps) == Some(Now()) && Inv(Now())
      ensures phase == Top && ran == old(ran) && ran <= queued
      ensures pendingFunctors != [] ==> wakeupFd > 0 || waking != {}
    {
      hide Run, Inv, Next;
      ghost var done := Now();
      BatchEnds(done);
      StepTaken(done, EndBatch);
      steps := [EndBatch];
      callingPendingFunctors, phase := false, Top;
    }
  }
}
