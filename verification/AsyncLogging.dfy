/** The double-buffering log front end of muduo/base/AsyncLogging.cc: any number of threads `append` under the
    mutex while the logging thread goes round its loop of swapping buffers out (under the mutex), writing them, and
    refilling its two spare buffers. A buffer is the list of the messages copied into it. */
module AsyncLoggings {
  import opened Machines

  type Message = string
  type Buffer = seq<Message>

  const LARGE_BUFFER: nat := 4000 * 1000

  function Size(b: Buffer): nat {
    if b == [] then 0 else Size(b[..|b| - 1]) + |b[|b| - 1]|
  }

  /** `FixedBuffer::append` copies nothing unless more room is left than the message takes: a message goes in whole
      or not at all, and the buffer does not overflow. */
  function Appended(b: Buffer, m: Message): (r: Buffer)
    ensures r == b || (r == b + [m] && Size(r) < LARGE_BUFFER)
  {
    assert (b + [m])[..|b|] == b;
    if LARGE_BUFFER - Size(b) > |m| then b + [m] else b
  }

  /** What goes into the log file: a buffer, or the notice that so many were dropped. */
  datatype Entry = Data(buffer: Buffer) | Notice(dropped: nat)

  /** Where the logging thread is: before the critical section, before the writing, before the refilling. */
  datatype Place = AtTop | BeforeWrite | BeforeRefill

  /** A buffer pointer that was moved from is `None`. `appended` is the history of calls of `append`, `batches`
      that of the batches the logging thread has dealt with. A failed assertion or a null pointer makes the
      state `Crashed`. */
  datatype State = Crashed
    | State(current: Option<Buffer>, next: Option<Buffer>, buffers: seq<Buffer>,
            newBuffer1: Option<Buffer>, newBuffer2: Option<Buffer>, toWrite: seq<Buffer>, place: Place,
            output: seq<Entry>, appended: seq<Message>, batches: seq<seq<Buffer>>)

  datatype Step = Append(m: Message) | SwapBuffers | Write | Refill

  function Initial(): State {
    State(Some([]), Some([]), [], Some([]), Some([]), [], AtTop, [], [], [])
  }

  function Apply(s: State, step: Step): State
    requires s.State?
  {
    match step
    case Append(m) =>
      if s.current.None? then Crashed
      else if LARGE_BUFFER - Size(s.current.value) > |m| then
        s.(current := Some(Appended(s.current.value, m)), appended := s.appended + [m])
      else
        s.(buffers := s.buffers + [s.current.value], appended := s.appended + [m], next := None,
           current := Some(Appended(if s.next.Some? then s.next.value else [], m)))
    case SwapBuffers =>
      if s.newBuffer1 != Some([]) || s.newBuffer2 != Some([]) || s.toWrite != [] || s.current.None? then Crashed
      else
        s.(toWrite := s.buffers + [s.current.value], buffers := [], current := s.newBuffer1, newBuffer1 := None,
           next := if s.next.None? then s.newBuffer2 else s.next,
           newBuffer2 := if s.next.None? then None else s.newBuffer2, place := BeforeWrite)
    case Write =>
      if s.toWrite == [] then Crashed
      else
        s.(toWrite := Kept(s.toWrite), output := s.output + EntriesOf(s.toWrite), batches := s.batches + [s.toWrite],
           place := BeforeRefill)
    case Refill =>
      var two := if |s.toWrite| > 2 then s.toWrite[..2] else s.toWrite;
      var need := (if s.newBuffer1.None? then 1 else 0) + (if s.newBuffer2.None? then 1 else 0);
      if |two| < need then Crashed
      else
        s.(newBuffer1 := if s.newBuffer1.None? then Some([]) else s.newBuffer1,
           newBuffer2 := if s.newBuffer2.None? then Some([]) else s.newBuffer2,
           toWrite := [], place := AtTop)
  }

  function Next(s: State, step: Step): Option<State> {
    if s.Crashed? then None
    else match step
      case Append(m) => Some(Apply(s, step))
      case SwapBuffers => if s.place.AtTop? then Some(Apply(s, step)) else None
      case Write => if s.place.BeforeWrite? then Some(Apply(s, step)) else None
      case Refill => if s.place.BeforeRefill? then Some(Apply(s, step)) else None
  }

  /** Of a batch of more than 25 buffers only the first two are kept. */
  function Kept(batch: seq<Buffer>): seq<Buffer> {
    if |batch| > 25 then batch[..2] else batch
  }

  function DataOf(batch: seq<Buffer>): seq<Entry> {
    seq(|batch|, i requires 0 <= i < |batch| => Data(batch[i]))
  }

  function EntriesOf(batch: seq<Buffer>): seq<Entry> {
    (if |batch| > 25 then [Notice(|batch| - 2)] else []) + DataOf(Kept(batch))
  }

  // What is to be kept: every message that fits into a buffer, in order.

  function Fitting(ms: seq<Message>): seq<Message> {
    if ms == [] then []
    else
      var m := ms[|ms| - 1];
      Fitting(ms[..|ms| - 1]) + if |m| < LARGE_BUFFER then [m] else []
  }

  function Flatten<T>(s: seq<seq<T>>): seq<T> {
    if s == [] then [] else Flatten(s[..|s| - 1]) + s[|s| - 1]
  }

  lemma FlattenAppend<T>(s: seq<seq<T>>, t: seq<T>)
    ensures Flatten(s + [t]) == Flatten(s) + t
  {
    assert (s + [t])[..|s|] == s;
  }

  lemma {:induction false} FlattenConcat<T>(a: seq<seq<T>>, b: seq<seq<T>>)
    ensures Flatten(a + b) == Flatten(a) + Flatten(b)
  {
    hide Flatten;
    if b == [] {
      FlattenEmpty<T>();
      assert a + b == a;
    } else {
      var init, last := b[..|b| - 1], b[|b| - 1];
      FlattenConcat(a, init);
      FlattenAppend(init, last);
      FlattenAppend(a + init, last);
      assert init + [last] == b && a + init + [last] == a + b;
      assert Flatten(a) + Flatten(init) + last == Flatten(a) + (Flatten(init) + last);
    }
  }

  lemma FittingAppend(ms: seq<Message>, m: Message)
    ensures Fitting(ms + [m]) == Fitting(ms) + if |m| < LARGE_BUFFER then [m] else []
  {
    assert (ms + [m])[..|ms|] == ms;
  }

  lemma SizeAppend(b: Buffer, m: Message)
    ensures Size(b + [m]) == Size(b) + |m|
  {
    assert (b + [m])[..|b|] == b;
  }

  /** The buffers that hold messages nobody has written yet, oldest first. */
  function Waiting(s: State): seq<Buffer>
    requires s.State? && s.current.Some?
  {
    (if s.place.BeforeWrite? then s.toWrite else []) + s.buffers + [s.current.value]
  }

  /** Every batch dealt with, then what waits: all the messages that fit, in the order of the calls. */
  predicate Conserved(s: State)
    requires s.State? && s.current.Some?
  {
    Flatten(Flatten(s.batches)) + Flatten(Waiting(s)) == Fitting(s.appended)
  }

  function Outputs(batches: seq<seq<Buffer>>): seq<Entry> {
    if batches == [] then [] else Outputs(batches[..|batches| - 1]) + EntriesOf(batches[|batches| - 1])
  }

  /** How the logging thread's spare buffers stand, and that a refill finds enough buffers to recycle. */
  predicate Spares(s: State)
    requires s.State?
  {
    match s.place
    case AtTop => s.newBuffer1 == Some([]) && s.newBuffer2 == Some([]) && s.toWrite == []
    case _ =>
      && s.newBuffer1 == None && s.toWrite != []
      && (s.newBuffer2 == Some([]) || (s.newBuffer2 == None && |s.toWrite| >= 2))
  }

  /** The pointers: the current buffer is there, and the next one is missing only when full buffers are queued. */
  predicate Shape(s: State) {
    && s.State?
    && s.current.Some?
    && (s.next == Some([]) || (s.next == None && s.buffers != []))
    && Spares(s)
    && Size(s.current.value) < LARGE_BUFFER
  }

  predicate Inv(s: State) {
    Shape(s) && Conserved(s) && s.output == Outputs(s.batches)
  }

  lemma AppendKeepsShape(s: State, m: Message)
    requires Shape(s)
    ensures Shape(Apply(s, Append(m)))
  {
    SizeAppend(s.current.value, m);
    SizeAppend([], m);
    assert Size([]) == 0;
    hide Size;
  }

  lemma LoopKeepsShape(s: State, step: Step)
    requires Shape(s) && !step.Append? && Next(s, step).Some?
    ensures Shape(Apply(s, step))
  {
    assert Size([]) == 0;
    hide Size, EntriesOf;
  }

  /** The message joins the current buffer, or a new one after it. */
  lemma AppendGrows(s: State, m: Message)
    requires Shape(s)
    ensures var z := Apply(s, Append(m));
            z.State? && z.current.Some?
            && Flatten(Waiting(z)) == Flatten(Waiting(s)) + if |m| < LARGE_BUFFER then [m] else []
  {
    hide Flatten, Spares, Apply, Size, Shape;
    AppendParts(s, m);
    var z := Apply(s, Append(m));
    var b := s.current.value;
    var front := (if s.place.BeforeWrite? then s.toWrite else []) + s.buffers;
    FlattenAppend(front, b);
    if LARGE_BUFFER - Size(b) > |m| {
      FlattenAppend(front, b + [m]);
      assert Waiting(z) == front + [b + [m]];
      assert Flatten(front) + (b + [m]) == Flatten(front) + b + [m];
    } else {
      var c := if |m| < LARGE_BUFFER then [m] else [];
      FlattenAppend(front + [b], c);
      assert Waiting(z) == front + [b] + [c];
    }
  }

  /** What an append changes. */
  lemma AppendParts(s: State, m: Message)
    requires Shape(s)
    ensures s.State? && s.current.Some? && Size(s.current.value) < LARGE_BUFFER
    ensures var z := Apply(s, Append(m));
            && z.State? && z.current.Some? && z.place == s.place && z.toWrite == s.toWrite
            && if LARGE_BUFFER - Size(s.current.value) > |m| then
                 z.buffers == s.buffers && z.current.value == s.current.value + [m] && |m| < LARGE_BUFFER
               else
                 && z.buffers == s.buffers + [s.current.value]
                 && z.current.value == (if |m| < LARGE_BUFFER then [m] else [])
  {
    hide Spares;
    assert Size([]) == 0 && [] + [m] == [m];
  }

  lemma AppendKeepsInv(s: State, m: Message)
    requires Inv(s)
    ensures Inv(Apply(s, Append(m)))
  {
    hide Fitting, Flatten, Shape, Waiting, Apply, Outputs, Size;
    HasCurrent(s);
    AppendKeepsShape(s, m);
    AppendGrows(s, m);
    FittingAppend(s.appended, m);
    AppendHistory(s, m);
    var z := Apply(s, Append(m));
    assert Flatten(Flatten(s.batches)) + (Flatten(Waiting(s)) + if |m| < LARGE_BUFFER then [m] else [])
        == Flatten(Flatten(s.batches)) + Flatten(Waiting(s)) + if |m| < LARGE_BUFFER then [m] else [];
  }

  lemma AppendHistory(s: State, m: Message)
    requires Shape(s)
    ensures var z := Apply(s, Append(m));
            z.State? && z.appended == s.appended + [m] && z.batches == s.batches && z.output == s.output
  {
  }

  lemma SwapConserves(s: State)
    requires Inv(s) && s.place.AtTop?
    ensures Inv(Apply(s, SwapBuffers))
  {
    hide Flatten, Fitting, Outputs, Size;
    LoopKeepsShape(s, SwapBuffers);
    var z := Apply(s, SwapBuffers);
    FlattenAppend(Waiting(s), []);
    assert Waiting(z) == Waiting(s) + [[]];
  }

  lemma BatchMoves(batches: seq<seq<Buffer>>, batch: seq<Buffer>, rest: seq<Buffer>)
    ensures Flatten(Flatten(batches + [batch])) + Flatten(rest) == Flatten(Flatten(batches)) + Flatten(batch + rest)
  {
    hide *;
    FlattenAppend(batches, batch);
    FlattenConcat(Flatten(batches), batch);
    FlattenConcat(batch, rest);
    assert Flatten(Flatten(batches)) + Flatten(batch) + Flatten(rest)
        == Flatten(Flatten(batches)) + (Flatten(batch) + Flatten(rest));
  }

  lemma OutputsAppend(batches: seq<seq<Buffer>>, batch: seq<Buffer>)
    ensures Outputs(batches + [batch]) == Outputs(batches) + EntriesOf(batch)
  {
    hide EntriesOf;
    assert (batches + [batch])[..|batches|] == batches;
  }

  lemma WriteConserves(s: State)
    requires Inv(s) && s.place.BeforeWrite?
    ensures Inv(Apply(s, Write))
  {
    hide Flatten, Fitting, Size, EntriesOf, Kept, Outputs, Spares, Shape;
    HasCurrent(s);
    HasBatch(s);
    LoopKeepsShape(s, Write);
    BatchMoves(s.batches, s.toWrite, s.buffers + [s.current.value]);
    OutputsAppend(s.batches, s.toWrite);
    assert Waiting(s) == s.toWrite + (s.buffers + [s.current.value]);
    assert Waiting(Apply(s, Write)) == s.buffers + [s.current.value];
  }

  lemma HasBatch(s: State)
    requires Inv(s) && !s.place.AtTop?
    ensures s.State? && s.toWrite != []
  {
  }

  lemma RefillConserves(s: State)
    requires Inv(s) && s.place.BeforeRefill?
    ensures Inv(Apply(s, Refill))
  {
    LoopKeepsShape(s, Refill);
    hide Flatten, Fitting, Outputs, Size;
    assert Waiting(Apply(s, Refill)) == Waiting(s);
  }

  lemma LoopKeepsInv(s: State, step: Step)
    requires Inv(s) && !step.Append? && Next(s, step).Some?
    ensures Inv(Apply(s, step))
  {
    hide Inv, Apply;
    match step {
      case SwapBuffers => SwapConserves(s);
      case Write => WriteConserves(s);
      case Refill => RefillConserves(s);
    }
  }

  lemma NextKeepsInv(s: State, step: Step)
    requires Inv(s) && Next(s, step).Some?
    ensures Inv(Next(s, step).value)
  {
    hide Inv, Apply;
    if step.Append? {
      AppendKeepsInv(s, step.m);
    } else {
      LoopKeepsInv(s, step);
    }
  }

  lemma FlattenEmpty<T>()
    ensures Flatten<T>([]) == []
  {
  }

  lemma InitialInv()
    ensures Inv(Initial())
  {
    assert Size([]) == 0;
    hide Flatten, Size;
    FlattenEmpty<Message>();
    FlattenEmpty<Buffer>();
    FlattenAppend<Message>([], []);
    assert Waiting(Initial()) == [] + [[]];
  }

  lemma AppendFrame(s: State, m: Message)
    requires Inv(s)
    ensures var z := Apply(s, Append(m));
            && z.State? && z.appended == s.appended + [m] && z.place == s.place && z.newBuffer1 == s.newBuffer1
            && z.newBuffer2 == s.newBuffer2 && z.toWrite == s.toWrite && z.output == s.output && z.batches == s.batches
  {
  }

  lemma LoopFrame(s: State, step: Step)
    requires Inv(s) && !step.Append? && Next(s, step).Some?
    ensures var z := Apply(s, step);
            && z.State? && z.appended == s.appended
            && z.batches == s.batches + (if step.Write? then [s.toWrite] else [])
            && z.place == (match step case SwapBuffers => BeforeWrite case Write => BeforeRefill case _ => AtTop)
  {
    hide EntriesOf, Kept, Outputs, Flatten, Fitting, Size;
  }

  lemma HasCurrent(s: State)
    requires Inv(s)
    ensures s.State? && s.current.Some? && (s.next.Some? ==> s.next.value == [])
  {
  }

  /** In every interleaving of appends with the logging thread no assertion of the source fails and no null buffer
      is used; `nextBuffer_` is null only when full buffers are queued; and nothing is lost but what `Outputs` drops. */
  lemma EveryRunConserves(steps: seq<Step>)
    requires Run(Next, Initial(), steps).Some?
    ensures Inv(Run(Next, Initial(), steps).value)
  {
    hide Inv, Apply, Run;
    forall s, step | Inv(s) && Next(s, step).Some?
      ensures Inv(Next(s, step).value)
    {
      NextKeepsInv(s, step);
    }
    InitialInv();
    KeptByRuns(Next, Inv, Initial(), steps);
  }

  /** The messages of the calls of `append`, in their order. */
  function LoggedBy(steps: seq<Step>): seq<Message> {
    if steps == [] then []
    else
      var last := steps[|steps| - 1];
      LoggedBy(steps[..|steps| - 1]) + if last.Append? then [last.m] else []
  }

  /** The history of a run is that of its calls. */
  lemma {:induction false} AppendedIsLogged(steps: seq<Step>)
    requires Run(Next, Initial(), steps).Some?
    ensures Run(Next, Initial(), steps).value.State? && Run(Next, Initial(), steps).value.appended == LoggedBy(steps)
    decreases |steps|
  {
    hide Inv, Apply;
    if steps != [] {
      var init, last := steps[..|steps| - 1], steps[|steps| - 1];
      LastOfRun(Next, Initial(), steps);
      AppendedIsLogged(init);
      EveryRunConserves(init);
      hide Run;
      var s := Run(Next, Initial(), init).value;
      if last.Append? {
        AppendFrame(s, last.m);
      } else {
        LoopFrame(s, last);
      }
    }
  }

  // What the file holds.

  /** A batch of up to 25 buffers is written whole, in order; of a longer one the first two, after a notice of how
      many were dropped. */
  lemma BatchIsWritten(s: State)
    requires s.State? && s.toWrite != []
    ensures var batch, z := s.toWrite, Apply(s, Write);
            && z.State? && s.output <= z.output
            && var written := z.output[|s.output|..];
               if |batch| <= 25 then
                 |written| == |batch| && forall i :: 0 <= i < |batch| ==> written[i] == Data(batch[i])
               else written == [Notice(|batch| - 2), Data(batch[0]), Data(batch[1])]
  {
  }

  /** The batches hold these messages, those that fit, and no others. */
  predicate Hold(batches: seq<seq<Buffer>>, ms: seq<Message>) {
    Flatten(Flatten(batches)) == Fitting(ms)
  }

  /** The critical section takes every message that was logged before it. */
  lemma SwapTakesAll(s: State)
    requires Inv(s) && s.place.AtTop?
    ensures var z := Apply(s, SwapBuffers);
            && z.State? && z.current.Some? && z.batches == s.batches
            && Hold(s.batches + [z.toWrite], s.appended)
  {
    hide Flatten, Fitting, Outputs, Size;
    var z := Apply(s, SwapBuffers);
    FlattenEmpty<Message>();
    BatchMoves(s.batches, z.toWrite, []);
    assert Waiting(s) == z.toWrite == z.toWrite + [];
    assert Flatten(Flatten(s.batches + [z.toWrite])) + [] == Flatten(Flatten(s.batches + [z.toWrite]));
  }

  function Appends(ms: seq<Message>): seq<Step> {
    seq(|ms|, i requires 0 <= i < |ms| => Append(ms[i]))
  }

  lemma {:induction false} AppendsFrame(s: State, ms: seq<Message>)
    requires Inv(s)
    ensures var z := Run(Next, s, Appends(ms));
            && z.Some? && Inv(z.value) && z.value.State? && z.value.place == s.place
            && z.value.toWrite == s.toWrite && z.value.batches == s.batches
    decreases |ms|
  {
    hide Inv, Apply;
    HasCurrent(s);
    if ms != [] {
      AppendKeepsInv(s, ms[0]);
      AppendFrame(s, ms[0]);
      AppendsFrame(Apply(s, Append(ms[0])), ms[1..]);
      assert Appends(ms)[1..] == Appends(ms[1..]);
    }
  }

  /** Whatever was logged before the critical section has been dealt with once its batch is written, and nothing that
      was logged later: no message has to wait for another round. */
  lemma OneRoundIsEnough(s: State, ms: seq<Message>)
    requires Inv(s) && s.place.AtTop?
    ensures var z := Run(Next, s, [SwapBuffers] + Appends(ms) + [Write]);
            z.Some? && z.value.State? && Hold(z.value.batches, s.appended)
  {
    hide Inv, Apply, Run, Hold, Appends;
    HasCurrent(s);
    OneStep(Next, s, SwapBuffers);
    LoopKeepsInv(s, SwapBuffers);
    LoopFrame(s, SwapBuffers);
    SwapTakesAll(s);
    var a := Apply(s, SwapBuffers);
    AppendsFrame(a, ms);
    RunsCompose(Next, s, [SwapBuffers], Appends(ms));
    var b := Run(Next, a, Appends(ms)).value;
    LoopFrame(b, Write);
    StepAfterRun(Next, s, [SwapBuffers] + Appends(ms), Write);
  }

  function Messages(output: seq<Entry>): seq<Message> {
    if output == [] then []
    else
      var e := output[|output| - 1];
      Messages(output[..|output| - 1]) + if e.Data? then e.buffer else []
  }

  lemma {:induction false} MessagesConcat(a: seq<Entry>, b: seq<Entry>)
    ensures Messages(a + b) == Messages(a) + Messages(b)
  {
    if b == [] {
      assert a + b == a;
    } else {
      assert (a + b)[..|a + b| - 1] == a + b[..|b| - 1];
      MessagesConcat(a, b[..|b| - 1]);
    }
  }

  lemma {:induction false} MessagesOfData(batch: seq<Buffer>)
    ensures Messages(DataOf(batch)) == Flatten(batch)
  {
    if batch != [] {
      assert DataOf(batch)[..|batch| - 1] == DataOf(batch[..|batch| - 1]);
      MessagesOfData(batch[..|batch| - 1]);
    }
  }

  lemma MessagesOfEntries(batch: seq<Buffer>)
    ensures Messages(EntriesOf(batch)) == Flatten(Kept(batch))
  {
    MessagesOfData(Kept(batch));
    if |batch| > 25 {
      var notice := [Notice(|batch| - 2)];
      assert notice[..0] == [];
      assert Messages(notice) == [];
      MessagesConcat(notice, DataOf(Kept(batch)));
    } else {
      assert EntriesOf(batch) == DataOf(batch);
    }
  }

  function KeptAll(batches: seq<seq<Buffer>>): seq<Buffer> {
    if batches == [] then [] else KeptAll(batches[..|batches| - 1]) + Kept(batches[|batches| - 1])
  }

  /** The file holds exactly the messages of the buffers that were kept, whole and in order. */
  lemma {:induction false} FileHoldsTheKept(batches: seq<seq<Buffer>>)
    ensures Messages(Outputs(batches)) == Flatten(KeptAll(batches))
  {
    if batches != [] {
      var init, last := batches[..|batches| - 1], batches[|batches| - 1];
      FileHoldsTheKept(init);
      MessagesConcat(Outputs(init), EntriesOf(last));
      MessagesOfEntries(last);
      FlattenConcat(KeptAll(init), Kept(last));
    }
  }

  /** How many messages went down with dropped buffers. */
  function Lost(batches: seq<seq<Buffer>>): nat {
    if batches == [] then 0
    else
      var last := batches[|batches| - 1];
      Lost(batches[..|batches| - 1]) + |Flatten(last[|Kept(last)|..])|
  }

  lemma {:induction false} LossCounted(batches: seq<seq<Buffer>>)
    ensures |Flatten(Flatten(batches))| == |Flatten(KeptAll(batches))| + Lost(batches)
    ensures Lost(batches) == 0 ==> Flatten(Flatten(batches)) == Flatten(KeptAll(batches))
  {
    if batches != [] {
      var init, last := batches[..|batches| - 1], batches[|batches| - 1];
      LossCounted(init);
      var kept, rest := Kept(last), last[|Kept(last)|..];
      assert last == kept + rest;
      FlattenConcat(kept, rest);
      FlattenConcat(Flatten(init), last);
      FlattenConcat(KeptAll(init), kept);
    }
  }

  // Which buffers are empty.

  predicate AllSmall(ms: seq<Message>) {
    forall i :: 0 <= i < |ms| ==> |ms[i]| < LARGE_BUFFER
  }

  predicate NoneEmpty(batch: seq<Buffer>) {
    forall i :: 0 <= i < |batch| ==> batch[i] != []
  }

  /** The current buffer, which comes last, may be empty when it is swapped out. */
  predicate Filled(batch: seq<Buffer>) {
    batch != [] ==> NoneEmpty(batch[..|batch| - 1])
  }

  /** While all messages fit, a buffer is queued only when there is something in it. */
  predicate BuffersFilled(s: State) {
    s.State? && (AllSmall(s.appended) ==>
      && NoneEmpty(s.buffers)
      && (s.place.BeforeWrite? ==> Filled(s.toWrite))
      && forall i :: 0 <= i < |s.batches| ==> Filled(s.batches[i]))
  }

  lemma StepFills(s: State, step: Step)
    requires Shape(s) && BuffersFilled(s) && Next(s, step).Some? && Next(s, step).value.State?
    ensures BuffersFilled(Next(s, step).value)
  {
    hide Spares, EntriesOf, Kept;
    var z := Next(s, step).value;
    match step {
      case Append(m) =>
        assert AllSmall(z.appended) ==> AllSmall(s.appended) && |m| < LARGE_BUFFER by {
          assert forall i :: 0 <= i < |s.appended| ==> z.appended[i] == s.appended[i];
          assert z.appended[|s.appended|] == m;
        }
      case SwapBuffers =>
        assert z.toWrite[..|z.toWrite| - 1] == s.buffers;
      case _ =>
    }
  }

  lemma EveryRunFills(steps: seq<Step>)
    requires Run(Next, Initial(), steps).Some?
    ensures BuffersFilled(Run(Next, Initial(), steps).value)
  {
    hide Inv, Next, Run, BuffersFilled;
    var both := (s: State) => Inv(s) && BuffersFilled(s);
    forall s, step | both(s) && Next(s, step).Some?
      ensures both(Next(s, step).value)
    {
      NextKeepsInv(s, step);
      InvIsShape(s);
      InvIsShape(Next(s, step).value);
      StepFills(s, step);
    }
    InitialInv();
    InitialFilled();
    KeptByRuns(Next, both, Initial(), steps);
  }

  lemma InvIsShape(s: State)
    requires Inv(s)
    ensures Shape(s) && s.State?
  {
  }

  lemma InitialFilled()
    ensures BuffersFilled(Initial())
  {
  }

  lemma {:induction false} FilledIsLong(batch: seq<Buffer>)
    requires NoneEmpty(batch)
    ensures |Flatten(batch)| >= |batch|
  {
    if batch != [] {
      FilledIsLong(batch[..|batch| - 1]);
    }
  }

  lemma SomethingDropped(batch: seq<Buffer>)
    requires Filled(batch) && |batch| > 25
    ensures Flatten(batch[|Kept(batch)|..]) != []
  {
    var init, rest := batch[..|batch| - 1], batch[2..];
    assert rest[..|rest| - 1] == init[2..];
    FilledIsLong(init[2..]);
  }

  /** Messages get lost exactly in the batches of more than 25 buffers. */
  lemma {:induction false} LostInLongBatches(batches: seq<seq<Buffer>>)
    requires forall i :: 0 <= i < |batches| ==> Filled(batches[i])
    ensures Lost(batches) == 0 <==> forall i :: 0 <= i < |batches| ==> |batches[i]| <= 25
  {
    hide Filled, Flatten;
    if batches != [] {
      var init, last := batches[..|batches| - 1], batches[|batches| - 1];
      LostInLongBatches(init);
      FlattenEmpty<Message>();
      if |last| > 25 {
        SomethingDropped(last);
      } else {
        assert last[|Kept(last)|..] == [];
        assert forall i :: 0 <= i < |init| ==> init[i] == batches[i];
      }
    }
  }

  /** The file followed by what waits is all of the log exactly when no message was as big as a buffer and no batch
      had more than 25 buffers. */
  lemma CompleteLog(steps: seq<Step>)
    requires Run(Next, Initial(), steps).Some?
    ensures var s := Run(Next, Initial(), steps).value;
            && s.State? && s.current.Some? && s.appended == LoggedBy(steps)
            && (Messages(s.output) + Flatten(Waiting(s)) == s.appended
                <==> AllSmall(s.appended) && forall i :: 0 <= i < |s.batches| ==> |s.batches[i]| <= 25)
  {
    hide Run, Shape, Fitting, Flatten, Messages, KeptAll, Outputs, Lost, AllSmall, Filled, LoggedBy;
    AppendedIsLogged(steps);
    EveryRunConserves(steps);
    EveryRunFills(steps);
    var s := Run(Next, Initial(), steps).value;
    FileHoldsTheKept(s.batches);
    LossCounted(s.batches);
    AllFit(s.appended);
    HasCurrent(s);
    assert AllSmall(s.appended) ==> forall i :: 0 <= i < |s.batches| ==> Filled(s.batches[i]);
    if AllSmall(s.appended) {
      LostInLongBatches(s.batches);
    }
  }

  /** A message as big as a buffer is lost. */
  lemma BigMessageIsLost(m: Message)
    requires |m| >= LARGE_BUFFER
    ensures var z := Run(Next, Initial(), [Append(m)]);
            z.Some? && z.value.State? && z.value.current.Some?
            && Messages(z.value.output) + Flatten(Waiting(z.value)) != z.value.appended
  {
    OneStep(Next, Initial(), Append(m));
    hide Run, Messages, Flatten;
    var z := Run(Next, Initial(), [Append(m)]).value;
    InitialInv();
    AppendHistory(Initial(), m);
    assert z.appended[0] == m;
    CompleteLog([Append(m)]);
  }

  /** A message that is more than half a buffer goes into a buffer that is empty, and not behind another such one. */
  lemma AppendsAlone(s: State, m: Message)
    requires LARGE_BUFFER / 2 <= |m| < LARGE_BUFFER && s.State? && (s.next.Some? ==> s.next.value == [])
    ensures s.current == Some([]) ==> Apply(s, Append(m)) == s.(current := Some([m]), appended := s.appended + [m])
    ensures s.current == Some([m]) ==>
              Apply(s, Append(m)) == s.(buffers := s.buffers + [[m]], appended := s.appended + [m], next := None)
  {
    SizeAppend([], m);
    assert Size([]) == 0 && [] + [m] == [m];
  }

  /** After so many messages of which two do not fit into one buffer, each is in a buffer of its own. */
  lemma {:induction false} OneInEach(m: Message, n: nat)
    requires LARGE_BUFFER / 2 <= |m| < LARGE_BUFFER && n > 0
    ensures var z := Run(Next, Initial(), seq(n, _ => Append(m)));
            && z.Some? && z.value.State? && z.value.place.AtTop? && z.value.current == Some([m])
            && |z.value.buffers| == n - 1 && z.value.batches == []
            && z.value.newBuffer1 == Some([]) && z.value.newBuffer2 == Some([]) && z.value.toWrite == []
            && (z.value.next.Some? ==> z.value.next.value == [])
  {
    hide Run, Apply;
    if n == 1 {
      AppendsAlone(Initial(), m);
      OneStep(Next, Initial(), Append(m));
      assert seq(1, _ => Append(m)) == [Append(m)];
    } else {
      OneInEach(m, n - 1);
      var s := Run(Next, Initial(), seq(n - 1, _ => Append(m))).value;
      AppendsAlone(s, m);
      StepAfterRun(Next, Initial(), seq(n - 1, _ => Append(m)), Append(m));
      assert seq(n, _ => Append(m)) == seq(n - 1, _ => Append(m)) + [Append(m)];
    }
  }

  /** Twenty-six such messages that come while the logging thread is held up: buffers are dropped. */
  lemma LongBatchIsLost(m: Message)
    requires LARGE_BUFFER / 2 <= |m| < LARGE_BUFFER
    ensures var z := Run(Next, Initial(), seq(26, _ => Append(m)) + [SwapBuffers] + [Write]);
            z.Some? && z.value.State? && z.value.current.Some?
            && Messages(z.value.output) + Flatten(Waiting(z.value)) != z.value.appended
  {
    hide Run, Messages, Flatten, EntriesOf;
    var steps := seq(26, _ => Append(m));
    OneInEach(m, 26);
    StepAfterRun(Next, Initial(), steps, SwapBuffers);
    StepAfterRun(Next, Initial(), steps + [SwapBuffers], Write);
    CompleteLog(steps + [SwapBuffers] + [Write]);
    var z := Run(Next, Initial(), steps + [SwapBuffers] + [Write]).value;
    assert |z.batches[0]| == 26;
  }

  lemma {:induction false} AllFit(ms: seq<Message>)
    ensures Fitting(ms) == ms <==> AllSmall(ms)
    ensures |Fitting(ms)| <= |ms|
  {
    if ms != [] {
      var init, m := ms[..|ms| - 1], ms[|ms| - 1];
      AllFit(init);
      if |m| < LARGE_BUFFER {
        assert ms == init + [m];
        assert Fitting(ms)[..|Fitting(init)|] == Fitting(init);
        if Fitting(ms) == ms {
          assert Fitting(init) == init;
        }
      } else {
        assert |Fitting(ms)| < |ms|;
      }
    }
  }

  /** What the producers append while the logging thread waits, writes and refills in one round. */
  datatype Round = Round(waiting: seq<Message>, writing: seq<Message>, refilling: seq<Message>)

  function All(r: Round): seq<Message> {
    r.waiting + r.writing + r.refilling
  }

  function AllOf(rounds: seq<Round>): seq<Message> {
    if rounds == [] then [] else AllOf(rounds[..|rounds| - 1]) + All(rounds[|rounds| - 1])
  }

  /** The object. `AppendLine` and the three stretches of `threadFunc` are the steps of the machine. */
  class AsyncLogging {
    var currentBuffer: Option<Buffer>
    var nextBuffer: Option<Buffer>
    var buffers: seq<Buffer>
    var newBuffer1: Option<Buffer>
    var newBuffer2: Option<Buffer>
    var buffersToWrite: seq<Buffer>
    var output: seq<Entry>
    ghost var place: Place
    ghost var appended: seq<Message>
    ghost var batches: seq<seq<Buffer>>

    ghost function Now(): State
      reads this
    {
      State(currentBuffer, nextBuffer, buffers, newBuffer1, newBuffer2, buffersToWrite, place, output, appended,
          batches)
    }

    constructor ()
      ensures Now() == Initial() && Inv(Now())
    {
      currentBuffer, nextBuffer, buffers := Some([]), Some([]), [];
      newBuffer1, newBuffer2, buffersToWrite, output := Some([]), Some([]), [], [];
      place, appended, batches := AtTop, [], [];
      InitialInv();
    }

    method AppendLine(m: Message)
      requires Inv(Now())
      modifies this
      ensures Now() == Apply(old(Now()), Append(m)) && Inv(Now())
    {
      hide Inv, Size, Conserved, Flatten, Fitting, Outputs, Spares;
      HasCurrent(Now());
      AppendKeepsInv(Now(), m);
      if LARGE_BUFFER - Size(currentBuffer.value) > |m| {
        currentBuffer := Some(Appended(currentBuffer.value, m));
      } else {
        buffers := buffers + [currentBuffer.value];
        currentBuffer := None;
        if nextBuffer.Some? {
          currentBuffer, nextBuffer := nextBuffer, None;
        } else {
          currentBuffer := Some([]);
        }
        currentBuffer := Some(Appended(currentBuffer.value, m));
      }
      appended := appended + [m];
    }

    method AppendLines(ms: seq<Message>)
      requires Inv(Now())
      modifies this
      ensures Inv(Now()) && appended == old(appended) + ms
      ensures place == old(place) && newBuffer1 == old(newBuffer1) && newBuffer2 == old(newBuffer2)
      ensures buffersToWrite == old(buffersToWrite) && output == old(output) && batches == old(batches)
    {
      hide Inv, Apply;
      for i := 0 to |ms|
        invariant Inv(Now()) && appended == old(appended) + ms[..i]
        invariant place == old(place) && newBuffer1 == old(newBuffer1) && newBuffer2 == old(newBuffer2)
        invariant buffersToWrite == old(buffersToWrite) && output == old(output) && batches == old(batches)
      {
        ghost var s := Now();
        AppendLine(ms[i]);
        AppendFrame(s, ms[i]);
      }
    }

    /** The critical section of `threadFunc`. */
    method SwapOut()
      requires Inv(Now()) && place.AtTop?
      modifies this
      ensures Now() == Apply(old(Now()), SwapBuffers) && Inv(Now())
    {
      LoopKeepsInv(Now(), SwapBuffers);
      hide Size, Conserved, Flatten, Fitting, Outputs;
      assert newBuffer1.Some? && newBuffer1.value == [] && newBuffer2.Some? && newBuffer2.value == [];
      assert buffersToWrite == [];
      buffers := buffers + [currentBuffer.value];
      currentBuffer, newBuffer1 := newBuffer1, None;
      buffersToWrite, buffers := buffers, buffersToWrite;
      if nextBuffer.None? {
        nextBuffer, newBuffer2 := newBuffer2, None;
      }
      place := BeforeWrite;
    }

    method WriteBuffers()
      modifies this`output
      ensures output == old(output) + DataOf(buffersToWrite)
    {
      for i := 0 to |buffersToWrite|
        invariant output == old(output) + DataOf(buffersToWrite[..i])
      {
        output := output + [Data(buffersToWrite[i])];
        assert DataOf(buffersToWrite[..i + 1]) == DataOf(buffersToWrite[..i]) + [Data(buffersToWrite[i])];
      }
      assert buffersToWrite[..|buffersToWrite|] == buffersToWrite;
    }

    /** Drops buffers when there are too many, and writes the others to the file. */
    method WriteOut()
      requires Inv(Now()) && place.BeforeWrite?
      modifies this
      ensures Now() == Apply(old(Now()), Write) && Inv(Now())
    {
      hide Inv, Size, DataOf;
      HasBatch(Now());
      LoopKeepsInv(Now(), Write);
      batches := batches + [buffersToWrite];
      if |buffersToWrite| > 25 {
        output := output + [Notice(|buffersToWrite| - 2)];
        buffersToWrite := buffersToWrite[..2];
      }
      WriteBuffers();
      place := BeforeRefill;
      assert output == old(output) + EntriesOf(old(buffersToWrite));
    }

    /** Recycles at most two of the buffers that were written. */
    method RefillSpares()
      requires Inv(Now()) && place.BeforeRefill?
      modifies this
      ensures Now() == Apply(old(Now()), Refill) && Inv(Now())
    {
      LoopKeepsInv(Now(), Refill);
      hide Size, Conserved, Flatten, Fitting, Outputs;
      if |buffersToWrite| > 2 {
        buffersToWrite := buffersToWrite[..2];
      }
      if newBuffer1.None? {
        assert buffersToWrite != [];
        newBuffer1 := Some([]);
        buffersToWrite := buffersToWrite[..|buffersToWrite| - 1];
      }
      if newBuffer2.None? {
        assert buffersToWrite != [];
        newBuffer2 := Some([]);
        buffersToWrite := buffersToWrite[..|buffersToWrite| - 1];
      }
      buffersToWrite := [];
      place := AtTop;
    }

    /** Once round the loop of `threadFunc`, with the appends that come in meanwhile. */
    method OneRound(r: Round)
      requires Inv(Now()) && place.AtTop?
      modifies this
      ensures Inv(Now()) && place.AtTop? && appended == old(appended) + All(r)
      ensures |batches| == |old(batches)| + 1 && old(batches) <= batches
      ensures Hold(batches, old(appended) + r.waiting)
    {
      hide Inv, Apply, Hold;
      AppendLines(r.waiting);
      LoopFrame(Now(), SwapBuffers);
      SwapTakesAll(Now());
      SwapOut();
      ghost var dealt := batches + [buffersToWrite];
      assert Hold(dealt, old(appended) + r.waiting);
      AppendLines(r.writing);
      LoopFrame(Now(), Write);
      WriteOut();
      assert batches == dealt;
      AppendLines(r.refilling);
      LoopFrame(Now(), Refill);
      RefillSpares();
      assert batches == dealt + [] == dealt;
    }

    /** `threadFunc` for as many rounds as it runs before it is stopped. */
    method ThreadFunc(rounds: seq<Round>)
      requires Inv(Now()) && place.AtTop?
      modifies this
      ensures Inv(Now()) && place.AtTop? && appended == old(appended) + AllOf(rounds)
      ensures |batches| == |old(batches)| + |rounds| && old(batches) <= batches
    {
      hide Inv, All;
      for i := 0 to |rounds|
        invariant Inv(Now()) && place.AtTop? && appended == old(appended) + AllOf(rounds[..i])
        invariant |batches| == |old(batches)| + i && old(batches) <= batches
      {
        OneRound(rounds[i]);
        assert rounds[..i + 1][..i] == rounds[..i];
      }
      assert rounds[..|rounds|] == rounds;
    }
  }
}
