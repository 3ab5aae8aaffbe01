# Verification of muduo's protocols, data structures and parsers

This project models the parts of the muduo network library and of its examples in which correctness is not obvious
from reading one function, and proves properties of them with Dafny. `dafny verify dfyconfig.toml` checks everything.

How the models relate to the C++ code:

- **Dancing links** (`DancingLinks`, `ExactCover`, `LinkBuilding`, `SudokuRules`, `SudokuMatrix`, `SudokuSolver`,
  `Sudoku`): the node pool is an array of records linked by index, as `nodes_` is; the methods do the writes of the
  C++ methods in their order. What the links mean is stated by a matrix with the part of it that is still in place (a
  layout), and what the matrix means by the rules of sudoku.
- **Event-driven protocols** (`EventLoop`, `AsyncLogging`, `TcpConnection`, `TimerQueue`, `TimerCancellation`): every
  critical section, system call or handler is one step of a state machine; steps of different threads interleave
  freely. What a system call answers is a parameter of the step. A failed `assert` or a null pointer is a state of its
  own (`Crashed`), so that the invariants say that it is not reached. Beside each machine stands a class whose methods
  are the C++ methods, proved to be its steps. Histories (functors run, messages appended, timers cancelled) are part
  of the machine's state and ghost fields of the class.
- **Pollers** (`Poller`): both classes against one interest table. The fields of the channel objects are maps from
  channels.
- **Byte streams** (`Streams`, `Endian`, `Buffer`, `ProtobufCodec`, `LengthHeaderCodec`, `Http`, `MemcacheSession`,
  `MemcacheCommands`, `Multiplexer`, `RpcBalancer`): a message handler is a loop of rounds, each of which takes a
  prefix of the buffer, waits, or gives up. One theorem says when such a loop does not notice how the stream was cut;
  every parser is an instance of it. The methods run on the `Buffer` class. Bytes are integers from 0 to 255, text is
  ASCII.
- **Stores, windows and wheels** (`MemcacheStore`, `SudokuStat`, `IdleConnections`): the fast structure against a map,
  a history, or a counter for each connection.
- **Numbers and dates** (`LogStream`, `Calendar`, `TimeZone`): truncating division is written out; the calendar is
  stated on its own by month lengths and the leap rule.

Where the code does not do what one would wish, the exact condition under which it does is a lemma: functors queued
before `loop()` (`EventLoops.EntryDecides`), log messages that are lost (`AsyncLoggings.CompleteLog`), connections
that are closed by force, or whose reading is switched, when the poller has taken them off its list
(`TcpConnections.TidyIsExact`), a timer cancelled before its insertion (`TimerCancellation.CancelDecides`), illegal
poller calls (`Pollers.PollFollows`), ids of the multiplexer that are given again (`Multiplexer.ReuseDecides`), dates
before 1 March -4800 (`Calendar.DateSurvives`), local times shown twice (`TimeZones.LocalRoundTrip`), request lines of
1024 bytes or more (`MemcacheSession.LongLinesDependOnChunks`), output left over from a `get` that failed
(`MemcacheSession.OutputLeftOver`), keys called `noreply` (`MemcacheCommands.NoreplyIsNoKey`), and raw messages too
short for an id and a checksum (`RpcBalancer.PatchNeedsRoom`).

That a step of a machine is the right one is not left to the function that makes it: histories are tied to the steps
of the run (`EventLoops.QueuedIsPushed`, `TcpConnections.LogIsHistory`, `AsyncLoggings.AppendedIsLogged`), and what an
operation leaves is stated of the state before and after it (`TimerQueues.EndSettles`,
`MemcacheStore.EachPolicyLeaves`, `Multiplexer.EntriesAsTold`).

## Model

| member | source | states |
|---|---|---|
| `Sudoku.SolveSudoku` | muduo_server_learn/muduo-master/examples/sudoku/sudoku.cc:263-291 | for every string of 81 characters, clashing givens and non-digits included, the result is not `NoSolution` exactly when the cells are digits and a completion exists, and then it is one that keeps every given |
| `Sudoku.SolveBoard` | muduo_server_learn/muduo-master/examples/sudoku/sudoku.cc:279-281 | on a freshly built solver `solve` returns true exactly when the board has a completion, and leaves one in it |
| `Sudoku.Printed` | muduo_server_learn/muduo-master/examples/sudoku/sudoku.cc:282-287 | the printed digits read back as the board |
| `SudokuSolving.SudokuSolver.Solve` | muduo_server_learn/muduo-master/examples/sudoku/sudoku.cc:95-133 | terminates (fewer columns each recursion); false: every link, size, the stack and the board are as before, and no exact cover exists; true: the rows on the stack and those found are an exact cover, and the board is filled in from them |
| `SudokuSolving.SudokuSolver.TryRow` | muduo_server_learn/muduo-master/examples/sudoku/sudoku.cc:119-129 | one turn of the loop over rows: a choice that fails leaves the pool as covering the column left it, and its remainder has no exact cover |
| `SudokuSolving.SudokuSolver.Cover` | muduo_server_learn/muduo-master/examples/sudoku/sudoku.cc:218-229 | the nested loops, walking links that they change, make exactly the pool with the column and its rows taken out |
| `SudokuSolving.SudokuSolver.Uncover` | muduo_server_learn/muduo-master/examples/sudoku/sudoku.cc:231-242 | from the pool that covering made, the loops restore the pool before it, node for node |
| `SudokuSolving.SudokuSolver.CoverRest` | muduo_server_learn/muduo-master/examples/sudoku/sudoku.cc:120-122 | covers the columns of the rest of a row, left to right |
| `SudokuSolving.SudokuSolver.UncoverRest` | muduo_server_learn/muduo-master/examples/sudoku/sudoku.cc:127-129 | uncovers them right to left, back to the very pool before |
| `SudokuSolving.SudokuSolver.UnlinkNode` | muduo_server_learn/muduo-master/examples/sudoku/sudoku.cc:224-226 | the three writes take one node out of its column and count it off |
| `SudokuSolving.SudokuSolver.RelinkNode` | muduo_server_learn/muduo-master/examples/sudoku/sudoku.cc:235-237 | the three writes put it back |
| `SudokuSolving.SudokuSolver.GetMinColumn` | muduo_server_learn/muduo-master/examples/sudoku/sudoku.cc:201-216 | the first column smaller than all before it that either has at most one node or is no larger than any column after it: a smallest column, unless a column of one or no nodes ends the search early |
| `SudokuSolving.SudokuSolver.ReadRow` | muduo_server_learn/muduo-master/examples/sudoku/sudoku.cc:99-108 | going round the ring of a chosen row finds its cell and its value |
| `SudokuSolving.SudokuSolver.WriteSolution` | muduo_server_learn/muduo-master/examples/sudoku/sudoku.cc:97-113 | writes every chosen cell and no other |
| `SudokuSolving.SudokuSolver.constructor` | muduo_server_learn/muduo-master/examples/sudoku/sudoku.cc:33-93 | builds, for any board, a link structure that stands for the exact-cover problem of the board, within `kMaxNodes` nodes |
| `SudokuSolving.SudokuSolver.MarkUnits` | muduo_server_learn/muduo-master/examples/sudoku/sudoku.cc:43-55 | the three tables say which values every row, column and box holds |
| `SudokuSolving.SudokuSolver.AppendColumn` | muduo_server_learn/muduo-master/examples/sudoku/sudoku.cc:158-165 | a new header at the end of the header ring |
| `SudokuSolving.SudokuSolver.NewRow` | muduo_server_learn/muduo-master/examples/sudoku/sudoku.cc:167-184 | a new node at the bottom of its column |
| `SudokuSolving.SudokuSolver.AddCandidate` | muduo_server_learn/muduo-master/examples/sudoku/sudoku.cc:81-89 | four nodes joined into one row |
| `DancingLinks.RelinkUndoesUnlink` | muduo_server_learn/muduo-master/examples/sudoku/sudoku.cc:224-237 | putting a node back undoes taking it out, for any pool in which its neighbours point to it |
| `DancingLinks.RelinkHeaderUndoesUnlinkHeader` | muduo_server_learn/muduo-master/examples/sudoku/sudoku.cc:220-241 | the same for a column header |
| `DancingLinks.UnlinkShrinksRing` | muduo_server_learn/muduo-master/examples/sudoku/sudoku.cc:222-226 | taking a node out leaves the ring of its column without it, and a ring |
| `ExactCover.UnlinkRemoves` | muduo_server_learn/muduo-master/examples/sudoku/sudoku.cc:223-227 | a pool that stands for a layout stands, after one node is taken out, for the layout without it |
| `ExactCover.PartialCoverRepresents` | muduo_server_learn/muduo-master/examples/sudoku/sudoku.cc:218-229 | at every point of `cover` the pool stands for the layout with what was taken out so far missing |
| `ExactCover.CoverRepresents` | muduo_server_learn/muduo-master/examples/sudoku/sudoku.cc:218-229 | a covered pool stands for the layout without the column and its rows |
| `ExactCover.CoverIsConsistent` | muduo_server_learn/muduo-master/examples/sudoku/sudoku.cc:218-229 | covering keeps the rows that are still in place whole |
| `ExactCover.ChoiceExtends` | muduo_server_learn/muduo-master/examples/sudoku/sudoku.cc:118-126 | an exact cover of what a choice leaves, with the chosen row, is one of the whole |
| `ExactCover.ChoiceRestricts` | muduo_server_learn/muduo-master/examples/sudoku/sudoku.cc:118-126 | an exact cover that uses the chosen row, without it, is one of what the choice leaves |
| `ExactCover.SomeChoiceIsTaken` | muduo_server_learn/muduo-master/examples/sudoku/sudoku.cc:116-118 | every exact cover uses one of the rows of the column chosen |
| `ExactCover.NoChoiceNoCover` | muduo_server_learn/muduo-master/examples/sudoku/sudoku.cc:118-132 | when no row of the column can be completed there is no exact cover: the search is complete |
| `ExactCover.ChosenIsSmaller` | muduo_server_learn/muduo-master/examples/sudoku/sudoku.cc:95-133 | a choice leaves strictly fewer columns: the recursion ends |
| `LinkBuilding.PutLeftGrowsRing` | muduo_server_learn/muduo-master/examples/sudoku/sudoku.cc:244-250 | `put_left` appends to a ring |
| `LinkBuilding.PutUpGrowsRing` | muduo_server_learn/muduo-master/examples/sudoku/sudoku.cc:252-260 | `put_up` appends to the ring of a column |
| `LinkBuilding.AddHeadRepresents` | muduo_server_learn/muduo-master/examples/sudoku/sudoku.cc:158-165 | a pool with one more header stands for the layout with one more column |
| `LinkBuilding.AddNodeRepresents` | muduo_server_learn/muduo-master/examples/sudoku/sudoku.cc:167-184 | a pool with one more node stands for the layout with one more row of one node |
| `LinkBuilding.FuseRepresents` | muduo_server_learn/muduo-master/examples/sudoku/sudoku.cc:82-88 | the three `put_left` turn four rows of one node into one row of four |
| `SudokuRules.UnitComplete` | muduo_server_learn/muduo-master/examples/sudoku/sudoku.cc:63-72 | a unit whose nine cells hold nine different values from 1 to 9 holds them all |
| `SudokuRules.CoverCompletes` | muduo_server_learn/muduo-master/examples/sudoku/sudoku.cc:56-92 | placements that meet every constraint exactly once complete the board |
| `SudokuRules.CompletionCovers` | muduo_server_learn/muduo-master/examples/sudoku/sudoku.cc:56-92 | what a completion adds to the board meets every constraint exactly once |
| `SudokuMatrix.CoverPlaces` | muduo_server_learn/muduo-master/examples/sudoku/sudoku.cc:74-92 | an exact cover of the links is a set of placements that meets every constraint once |
| `SudokuMatrix.PlacesCover` | muduo_server_learn/muduo-master/examples/sudoku/sudoku.cc:74-92 | and the other way round |
| `SudokuMatrix.NoCoverNoCompletion` | muduo_server_learn/muduo-master/examples/sudoku/sudoku.cc:95-133 | a board whose links have no exact cover has no completion, also when its givens clash |
| `SudokuMatrix.WrittenIsCompletion` | muduo_server_learn/muduo-master/examples/sudoku/sudoku.cc:97-113 | the board written from an exact cover is a completion |
| `EventLoops.StepKeepsInv` | muduo_server_learn/muduo-master/muduo/net/EventLoop.cc:111-130 | every step of the loop thread or of any other thread keeps: functors run, in flight and pending are those queued, in order; and whoever made the queue non-empty after the swap has made, or will make, the eventfd readable |
| `EventLoops.EveryRunIsSafe` | muduo_server_learn/muduo-master/muduo/net/EventLoop.cc:103-171 | in every interleaving of any number of threads, a loop in `poll` with pending functors, or asked to quit, has a non-zero eventfd or a thread before its `wakeup`; the functors queued are those that were there and then exactly those of the pushes, in their order, whoever pushed; and the functors run are a prefix of them |
| `EventLoops.QueuedIsPushed` | muduo_server_learn/muduo-master/muduo/net/EventLoop.cc:160-171 | over any run the history of functors grows by exactly the functors of the steps that push, of any thread, in order |
| `EventLoops.PushedFunctorsRun` | muduo_server_learn/muduo-master/muduo/net/EventLoop.cc:111-130 | once a wakeup is served, every functor that any thread pushed since the start has been run, in the order of the pushes |
| `EventLoops.QuitDecides` | muduo_server_learn/muduo-master/muduo/net/EventLoop.cc:103-146 | the loop goes on to poll exactly when nobody has called `quit` since it was entered, and does not sleep on such a call |
| `EventLoops.EntryDecides` | muduo_server_learn/muduo-master/muduo/net/EventLoop.cc:103-114 | entering `loop` can lose a wakeup exactly when the queue is not empty, the eventfd is zero and no wakeup is under way |
| `EventLoops.QueuedTooEarly` | muduo_server_learn/muduo-master/muduo/net/EventLoop.cc:160-171 | a functor that the loop thread queues before `loop()` is such a case |
| `EventLoops.WakeupRunsEverything` | muduo_server_learn/muduo-master/muduo/net/EventLoop.cc:111-130 | with the eventfd readable the loop thread by itself goes on to run everything queued |
| `EventLoops.PendingFunctorsGetRun` | muduo_server_learn/muduo-master/muduo/net/EventLoop.cc:254-269 | from any poll with pending functors, at most one write that is under way leads to all of them being run |
| `EventLoops.EventLoop.PushBack` | muduo_server_learn/muduo-master/muduo/net/EventLoop.cc:160-171 | the critical section of `queueInLoop` of any thread: the functor joins the queue, and when a wakeup must follow |
| `EventLoops.EventLoop.Wakeup` | muduo_server_learn/muduo-master/muduo/net/EventLoop.cc:234-242 | adds one to the counter unless it is full, which leaves it readable too |
| `EventLoops.EventLoop.HandleRead` | muduo_server_learn/muduo-master/muduo/net/EventLoop.cc:244-252 | one read takes the whole counter |
| `EventLoops.EventLoop.QueueHere` | muduo_server_learn/muduo-master/muduo/net/EventLoop.cc:160-171 | `queueInLoop` from the loop thread takes exactly the steps push, those of foreign threads meanwhile, and wakeup if it is needed, and leaves a wakeup behind when functors are running |
| `EventLoops.EventLoop.Others` | muduo_server_learn/muduo-master/muduo/net/EventLoop.cc:136-171 | foreign threads that queue functors, ask the loop to quit and write to the eventfd take exactly the legal ones of these steps, in order |
| `EventLoops.EventLoop.DoPendingFunctors` | muduo_server_learn/muduo-master/muduo/net/EventLoop.cc:254-269 | whatever foreign threads push, wake or quit before the swap, before the first functor and while functors run, it runs exactly what was queued at the swap, each followed by what the functor itself does, and what is queued later has a wakeup that is there or on its way |
| `AsyncLoggings.AppendKeepsInv` | muduo_server_learn/muduo-master/muduo/base/AsyncLogging.cc:34-56 | `append`, at any point of the logging thread's loop, keeps the invariant below, for messages of any size |
| `AsyncLoggings.LoopKeepsInv` | muduo_server_learn/muduo-master/muduo/base/AsyncLogging.cc:69-133 | so do the three stretches of the loop |
| `AsyncLoggings.EveryRunConserves` | muduo_server_learn/muduo-master/muduo/base/AsyncLogging.cc:34-133 | in every interleaving no assertion of the source fails, `nextBuffer_` is null only when buffers are queued, `currentBuffer_` never is, and batches dealt with, batch at hand, queued and current buffers hold all messages that fit a buffer, in order |
| `AsyncLoggings.AppendedIsLogged` | muduo_server_learn/muduo-master/muduo/base/AsyncLogging.cc:34-56 | the history of a run is the messages of its calls of `append`, in order |
| `AsyncLoggings.BatchIsWritten` | muduo_server_learn/muduo-master/muduo/base/AsyncLogging.cc:92-107 | a batch of up to 25 buffers is written buffer for buffer, in order; of a longer one a notice of how many were dropped, then the first two |
| `AsyncLoggings.OneRoundIsEnough` | muduo_server_learn/muduo-master/muduo/base/AsyncLogging.cc:69-107 | whatever was logged before the critical section has been dealt with when its batch is written, and nothing logged later, whatever is appended meanwhile |
| `AsyncLoggings.FileHoldsTheKept` | muduo_server_learn/muduo-master/muduo/base/AsyncLogging.cc:92-107 | the file holds exactly the messages of the buffers that were not dropped, whole and in order |
| `AsyncLoggings.CompleteLog` | muduo_server_learn/muduo-master/muduo/base/AsyncLogging.cc:34-107 | file plus waiting buffers are all the messages of the calls of `append` exactly when every message is smaller than a buffer and no batch has more than 25 buffers |
| `AsyncLoggings.BigMessageIsLost` | muduo_server_learn/muduo-master/muduo/base/AsyncLogging.cc:34-56 | a message as big as a buffer is lost |
| `AsyncLoggings.LongBatchIsLost` | muduo_server_learn/muduo-master/muduo/base/AsyncLogging.cc:92-101 | twenty-six messages of more than half a buffer while the logging thread is held up: buffers are dropped |
| `AsyncLoggings.EveryRunFills` | muduo_server_learn/muduo-master/muduo/base/AsyncLogging.cc:34-92 | while all messages fit, a buffer is queued only when there is something in it, so that only the last of a batch can be empty |
| `AsyncLoggings.LostInLongBatches` | muduo_server_learn/muduo-master/muduo/base/AsyncLogging.cc:92-101 | messages go down with dropped buffers exactly when some batch has more than 25 |
| `AsyncLoggings.AsyncLogging.AppendLine` | muduo_server_learn/muduo-master/muduo/base/AsyncLogging.cc:34-56 | the branches of `append` on the buffer pointers |
| `AsyncLoggings.AsyncLogging.SwapOut` | muduo_server_learn/muduo-master/muduo/base/AsyncLogging.cc:75-88 | the critical section; its assertions hold |
| `AsyncLoggings.AsyncLogging.WriteOut` | muduo_server_learn/muduo-master/muduo/base/AsyncLogging.cc:90-107 | drops all but two of more than 25 buffers, with a notice, and writes the rest |
| `AsyncLoggings.AsyncLogging.RefillSpares` | muduo_server_learn/muduo-master/muduo/base/AsyncLogging.cc:109-131 | both refills find a buffer to recycle |
| `AsyncLoggings.AsyncLogging.ThreadFunc` | muduo_server_learn/muduo-master/muduo/base/AsyncLogging.cc:58-135 | any number of rounds, with messages appended between any two of its stretches |
| `AsyncLoggings.AsyncLogging.OneRound` | muduo_server_learn/muduo-master/muduo/base/AsyncLogging.cc:69-133 | one round, with messages appended between any two of its stretches: the batches then hold exactly what was logged before its critical section |
| `AsyncLoggings.Appended` | muduo_server_learn/muduo-master/muduo/base/LogStream.h:39-47 | a buffer takes a message whole or not at all |
| `TcpConnections.SendConserves` | muduo_server_learn/muduo-master/muduo/net/TcpConnection.cc:139-192 | bytes given to the socket and bytes buffered are those of the messages accepted, however the socket answers |
| `TcpConnections.StepKeeps` | muduo_server_learn/muduo-master/muduo/net/TcpConnection.cc:139-421 | every handler, task, report of the poller and call of another thread, the callers' ones being tidy, keeps: conservation; write interest exactly when the output is not empty while the connection is up; half-close only with everything flushed; a pending close has a task, a timer or a flush ahead of it; at most one up, one down and one close notice; the descriptor listed exactly while the connection is up and its channel waits for something. What a step does besides is stated by the lemmas that follow |
| `TcpConnections.EveryRunIsSafe` | muduo_server_learn/muduo-master/muduo/net/TcpConnection.cc:139-421 | so over every run in which the callers are tidy no assertion fails and all of that holds, with either poller |
| `TcpConnections.SocketGetsAPrefix` | muduo_server_learn/muduo-master/muduo/net/TcpConnection.cc:87-213 | what the socket got is a prefix of the messages that reached the loop thread in the run (sent there while connected, or queued by another thread and run) and were taken, and all of them at a half-close of a live connection |
| `TcpConnections.LogIsHistory` | muduo_server_learn/muduo-master/muduo/net/TcpConnection.cc:87-192 | over every tidy run the log is, in order, exactly the messages that reached the loop thread, each with its fate: given up after the end, lost only when a direct write failed for good, taken otherwise |
| `TcpConnections.ReachingIsLogged` | muduo_server_learn/muduo-master/muduo/net/TcpConnection.cc:87-192 | each step logs exactly the message that it brings to the loop thread, if any |
| `TcpConnections.AcceptsWhileConnected` | muduo_server_learn/muduo-master/muduo/net/TcpConnection.cc:92-337 | a connection takes messages exactly from its establishment until it was shut down, closed, closed by force or destroyed, as the steps tell |
| `TcpConnections.CheckingDecides` | muduo_server_learn/muduo-master/muduo/net/TcpConnection.cc:92-110 | a thread that calls `send` goes on to queue its message exactly when it found the connection connected |
| `TcpConnections.CheckedStays` | muduo_server_learn/muduo-master/muduo/net/TcpConnection.cc:92-110 | what it found stays with it until it queues, whatever happens meanwhile |
| `TcpConnections.MessagesKeepOrder` | muduo_server_learn/muduo-master/muduo/net/TcpConnection.cc:92-132 | the messages that other threads queued are, in the order of the calls, those the loop thread got to and then those still waiting: none lost, none twice |
| `TcpConnections.WritesExactly` | muduo_server_learn/muduo-master/muduo/net/TcpConnection.cc:139-391 | each step gives to the socket exactly as many bytes of what was waiting, or of the message, as the socket took, and none when no write is tried |
| `TcpConnections.CompletesExactly` | muduo_server_learn/muduo-master/muduo/net/TcpConnection.cc:150-162 | a write-complete callback is queued by the steps that write all there is, and by no other |
| `TcpConnections.ShutdownIsGranted` | muduo_server_learn/muduo-master/muduo/net/TcpConnection.cc:194-213 | `shutdown` of a connection that is up: no message is accepted any more, and the half-close comes at once or by a task, or waits for the output |
| `TcpConnections.LastWriteShutsDown` | muduo_server_learn/muduo-master/muduo/net/TcpConnection.cc:368-391 | and then it comes with the write that takes the last of the output |
| `TcpConnections.ForcedCloseIsGranted` | muduo_server_learn/muduo-master/muduo/net/TcpConnection.cc:239-269 | a forced close of a live connection is queued, at once or after the delay, and its task closes the connection and tells user and owner |
| `TcpConnections.OwnerIsTold` | muduo_server_learn/muduo-master/muduo/net/TcpConnection.cc:334-421 | the owner is told of every end but the one that it brought about itself |
| `TcpConnections.ReadingIsSwitched` | muduo_server_learn/muduo-master/muduo/net/TcpConnection.cc:293-321 | reading is on or off as it was asked for |
| `TcpConnections.WarnsExactlyWhenCrossing` | muduo_server_learn/muduo-master/muduo/net/TcpConnection.cc:177-185 | a step queues one high-water callback, with the new size, exactly when it takes the output from below the mark to it or above |
| `TcpConnections.SomeWriteDrops` | muduo_server_learn/muduo-master/muduo/net/TcpConnection.cc:368-391 | an output that goes from the mark or above to below it was written down by `handleWrite` |
| `TcpConnections.CrossingsAreSeparated` | muduo_server_learn/muduo-master/muduo/net/TcpConnection.cc:177-185 | between two crossings, so between two callbacks, such a write lies |
| `TcpConnections.TidyIsExact` | muduo_server_learn/muduo-master/muduo/net/TcpConnection.cc:238-421 | the condition on callers is exact: what the loop, the kernel and the timers do after a step fails no assertion if and only if the step was tidy (with epoll: reading is on around a forced close, and neither `startRead` nor a first `stopRead` comes after the end; with poll only `startRead`, and `stopRead` after the removal; and no destruction while it is being shut down) |
| `TcpConnections.ClosingRelists` | muduo_server_learn/muduo-master/muduo/net/TcpConnection.cc:408-421 | with epoll, `handleClose` leaves the descriptor listed exactly when the channel waited for nothing before it |
| `TcpConnections.ForcedCloseTwice` | muduo_server_learn/muduo-master/muduo/net/TcpConnection.cc:238-274 | the input: reading off, nothing to write, a forced close, and a peer that is gone; with epoll the next hang-up fails the assertion of `handleClose`, with poll there is none |
| `TcpConnections.ReadingIsSafe` | muduo_server_learn/muduo-master/muduo/net/TcpConnection.cc:139-421 | a caller that never stops reading need not care about forced closes: over every run no assertion fails |
| `TcpConnections.TcpConnection.Send` | muduo_server_learn/muduo-master/muduo/net/TcpConnection.cc:139-192 | `sendInLoop` in place |
| `TcpConnections.TcpConnection.OnWritable` | muduo_server_learn/muduo-master/muduo/net/TcpConnection.cc:368-406 | `handleWrite` in place |
| `TcpConnections.TcpConnection.OnClose` | muduo_server_learn/muduo-master/muduo/net/TcpConnection.cc:408-421 | `handleClose` does this step of the machine |
| `TcpConnections.TcpConnection.OnReadable` | muduo_server_learn/muduo-master/muduo/net/TcpConnection.cc:345-366 | `handleRead` in place; the assertion of `handleClose` holds |
| `TcpConnections.TcpConnection.OnHangUp` | muduo_server_learn/muduo-master/muduo/net/TcpConnection.cc:408-421 | a hang-up in place; the assertion of `handleClose` holds |
| `TcpConnections.TcpConnection.StartReadInLoop` | muduo_server_learn/muduo-master/muduo/net/TcpConnection.cc:298-311 | `startReadInLoop` in place |
| `TcpConnections.TcpConnection.StopReadInLoop` | muduo_server_learn/muduo-master/muduo/net/TcpConnection.cc:313-321 | `stopReadInLoop` in place |
| `TcpConnections.TcpConnection.ConnectDestroyed` | muduo_server_learn/muduo-master/muduo/net/TcpConnection.cc:334-343 | `connectDestroyed` in place, with the assertion of `Channel::remove` |
| `TcpConnections.TcpConnection.RunFirst` | muduo_server_learn/muduo-master/muduo/net/TcpConnection.cc:205-269 | the tasks that other threads and earlier calls left in the loop's queue |
| `TimerQueues.DueExactly` | muduo_server_learn/muduo-master/muduo/net/TimerQueue.cc:183-191 | the sentry splits the ordered set into what expires by now and what does not |
| `TimerQueues.BeginKeeps` | muduo_server_learn/muduo-master/muduo/net/TimerQueue.cc:163-202 | `getExpired` takes out exactly the timers with expiration <= now, in order, finds each in the active set, and leaves the two sets with the same timers |
| `TimerQueues.AddKeeps` | muduo_server_learn/muduo-master/muduo/net/TimerQueue.cc:132-141 | `addTimerInLoop` fails no assertion and keeps the timerfd early enough |
| `TimerQueues.AddInserts` | muduo_server_learn/muduo-master/muduo/net/TimerQueue.cc:132-141 | adds one entry, leaves all others, and sets the timerfd exactly when the timer is earlier than all others |
| `TimerQueues.CancelKeeps` | muduo_server_learn/muduo-master/muduo/net/TimerQueue.cc:143-161 | `cancelInLoop` of any id, live, stale or made up, fails no assertion and touches no deleted timer |
| `TimerQueues.CancelRemoves` | muduo_server_learn/muduo-master/muduo/net/TimerQueue.cc:143-161 | takes out exactly the timer and its entry when it is in the set; leaves both sets otherwise, and remembers the id while callbacks run |
| `TimerQueues.ResetKeeps` | muduo_server_learn/muduo-master/muduo/net/TimerQueue.cc:204-233 | `reset` keeps every timer in just one place, the two sets alike, and the timerfd early enough; what it does with the batch is `EndSettles` |
| `TimerQueues.EndSettles` | muduo_server_learn/muduo-master/muduo/net/TimerQueue.cc:204-233 | after `handleRead` each timer of the batch that repeats and was not cancelled meanwhile stands in the ordered set with expiration `now + interval`, the same sequence and interval; every other timer of the batch is gone; timers and entries outside the batch are as before |
| `TimerCancellation.RepeatingRunsAgain` | muduo_server_learn/muduo-master/muduo/net/TimerQueue.cc:163-217 | so a repeating timer that has run with its batch and was not cancelled runs again in a later batch |
| `TimerQueues.EveryRunIsSafe` | muduo_server_learn/muduo-master/muduo/net/TimerQueue.cc:132-259 | over every run, with callbacks and other threads adding and cancelling, every timer is in just one place and all of that holds |
| `TimerQueues.SameSize` | muduo_server_learn/muduo-master/muduo/net/TimerQueue.cc:146-160 | the two sets have the same size, as the source asserts at every turn |
| `TimerQueues.NonEmptyIsArmed` | muduo_server_learn/muduo-master/muduo/net/TimerQueue.cc:41-55 | with timers queued the timerfd is set no later than the earliest expiration or 100 microseconds after the setting; no condition on expirations is needed |
| `TimerQueues.TimespecIsTheDeadline` | muduo_server_learn/muduo-master/muduo/net/TimerQueue.cc:41-55 | seconds and nanoseconds of `howMuchTimeFromNow` add up to that deadline |
| `TimerQueues.CancelledNeverRunsLater` | muduo_server_learn/muduo-master/muduo/net/TimerQueue.cc:156-159 | a timer cancelled while inserted, also from a callback of its own batch, runs in no later batch |
| `TimerQueues.CancelledTooEarly` | muduo_server_learn/muduo-master/muduo/net/TimerQueue.cc:126-141 | a timer cancelled before its insertion is inserted all the same |
| `TimerCancellation.CancelDecides` | muduo_server_learn/muduo-master/muduo/net/TimerQueue.cc:104-159 | `cancel` keeps a timer that exists from running in later batches if and only if the loop has inserted the timer; one that is cancelled too early is inserted and runs |
| `TimerQueues.CreateMakes` | muduo_server_learn/muduo-master/muduo/net/TimerQueue.cc:116-124 | `addTimer` makes a timer with the next sequence number, as asked for, and leaves all others |
| `TimerQueues.EveryBatchInOrder` | muduo_server_learn/muduo-master/muduo/net/TimerQueue.cc:174-177 | the callbacks of a batch are run each once and in the order of the batch |
| `TimerQueues.TimerQueue.HandleRead` | muduo_server_learn/muduo-master/muduo/net/TimerQueue.cc:163-181 | `handleRead` as a whole takes exactly these steps: the read, one call for each timer that is due, in order, each followed by the additions and cancellations that its callback makes, and the reset |
| `TimerQueues.TimerQueue.InsertTimer` | muduo_server_learn/muduo-master/muduo/net/TimerQueue.cc:235-259 | `insert`, both assertions included |
| `TimerQueues.TimerQueue.AddTimerInLoop` | muduo_server_learn/muduo-master/muduo/net/TimerQueue.cc:132-141 | `addTimerInLoop` |
| `TimerQueues.TimerQueue.CancelInLoop` | muduo_server_learn/muduo-master/muduo/net/TimerQueue.cc:143-161 | `cancelInLoop` |
| `TimerQueues.TimerQueue.GetExpired` | muduo_server_learn/muduo-master/muduo/net/TimerQueue.cc:183-202 | `getExpired` with its loop |
| `TimerQueues.TimerQueue.ResetTimers` | muduo_server_learn/muduo-master/muduo/net/TimerQueue.cc:204-233 | `reset` with its loop, as `EndSettles` says |
| `Pollers.PollDropsInner` | muduo_server_learn/muduo-master/muduo/net/poller/PollPoller.cc:129-139 | swap and pop keeps channel indices and slots in bijection |
| `Pollers.PollFollows` | muduo_server_learn/muduo-master/muduo/net/poller/PollPoller.cc:75-140 | `PollPoller` follows the interest table; an assertion fails exactly when a removed channel is updated again, a descriptor is taken twice, or a channel is removed that was not silenced by a later update |
| `Pollers.PollLists` | muduo_server_learn/muduo-master/muduo/net/poller/PollPoller.cc:75-108 | after an update of a registered channel its descriptor is polled exactly when the mask is not empty |
| `Pollers.PollWatchesTheTable` | muduo_server_learn/muduo-master/muduo/net/poller/PollPoller.cc:75-110 | the slots that poll(2) heeds, with non-zero masks, are the table's |
| `Pollers.EPollFollows` | muduo_server_learn/muduo-master/muduo/net/poller/EPollPoller.cc:107-192 | `EPollPoller` follows the table and keeps a descriptor in the kernel's list exactly when its index is kAdded; it fails exactly on an illegal call |
| `Pollers.EPollLists` | muduo_server_learn/muduo-master/muduo/net/poller/EPollPoller.cc:107-146 | an update with an empty mask takes a descriptor off the kernel's list, or puts it on when it was not there |
| `Pollers.EPollWatchesTheTable` | muduo_server_learn/muduo-master/muduo/net/poller/EPollPoller.cc:107-149 | the kernel's list, with non-zero masks, is the table's |
| `Pollers.BothPollersFollow` | muduo_server_learn/muduo-master/muduo/net/poller/PollPoller.cc:75-140 | after any legal sequence of updates and removals both pollers watch the same descriptors with the same masks: those that the last operation on each descriptor asked for |
| `Pollers.TableStands` | muduo_server_learn/muduo-master/muduo/net/poller/PollPoller.cc:75-140 | the table holds for each descriptor what the last operation on it left |
| `Pollers.PollPoller.UpdateChannel` | muduo_server_learn/muduo-master/muduo/net/poller/PollPoller.cc:75-110 | `updateChannel` |
| `Pollers.PollPoller.RemoveChannel` | muduo_server_learn/muduo-master/muduo/net/poller/PollPoller.cc:112-140 | `removeChannel` |
| `Pollers.PollPoller.FillActiveChannels` | muduo_server_learn/muduo-master/muduo/net/poller/PollPoller.cc:55-73 | the loop, which stops after the announced number of marked slots, reports them all and finds each in the map |
| `Pollers.ReportedExactly` | muduo_server_learn/muduo-master/muduo/net/poller/PollPoller.cc:55-73 | after a poll a channel is reported with events `r` exactly when it is registered and its slot has `revents == r > 0` |
| `Pollers.ReportedInOrder` | muduo_server_learn/muduo-master/muduo/net/poller/PollPoller.cc:55-73 | one report for each marked slot, in the order of the slots |
| `Pollers.EPollPoller.UpdateChannel` | muduo_server_learn/muduo-master/muduo/net/poller/EPollPoller.cc:107-149 | `updateChannel` |
| `Pollers.EPollPoller.RemoveChannel` | muduo_server_learn/muduo-master/muduo/net/poller/EPollPoller.cc:151-170 | `removeChannel` |
| `Calendar.JulianDayRoundTrip` | muduo_server_learn/muduo-master/muduo/base/Date.cc:29-42 | from Julian day -32044 on, the date of a day is a real date and has that day number |
| `Calendar.DateRoundTrip` | muduo_server_learn/muduo-master/muduo/base/Date.cc:20-27 | from 1 March -4800 on, the day number of a date gives the date back |
| `Calendar.ValidFromTheFirstDay` | muduo_server_learn/muduo-master/muduo/base/Date.cc:29-42 | the result of `getYearMonthDay` is a real date exactly from day -32044 on |
| `Calendar.DateSurvives` | muduo_server_learn/muduo-master/muduo/base/Date.cc:20-42 | a real date survives the way there and back exactly from 1 March -4800 on |
| `Calendar.FirstDayCollides` | muduo_server_learn/muduo-master/muduo/base/Date.cc:20-27 | the day before has the same number |
| `Calendar.NextDayIsOneMore` | muduo_server_learn/muduo-master/muduo/base/Date.cc:20-27 | the next day of the Gregorian calendar, by month lengths and the leap rule, has the next number and the next week day |
| `Calendar.Anchor` | muduo_server_learn/muduo-master/muduo/base/Date.cc:46 | 1 January 2000 is day 2451545, a Saturday; 1 January 1970 is the epoch, a Thursday |
| `Calendar.UtcRoundTrip` | muduo_server_learn/muduo-master/muduo/base/TimeZone.cc:322-363 | `fromUtcTime(toUtcTime(t)) == t`, negative t included, from that day on |
| `Calendar.UtcIsValid` | muduo_server_learn/muduo-master/muduo/base/TimeZone.cc:322-348 | `toUtcTime` gives a real time exactly from that day on |
| `Calendar.Ticks` | muduo_server_learn/muduo-master/muduo/base/TimeZone.cc:76-87 | from one second to the next the clock ticks: seconds carry into minutes, minutes into hours, hours into days, and days into week days from Julian day 0 on |
| `Calendar.ClockStarts` | muduo_server_learn/muduo-master/muduo/base/TimeZone.cc:322-348 | second 0 is midnight of Thursday, 1 January 1970 |
| `Calendar.BrokenDownRoundTrip` | muduo_server_learn/muduo-master/muduo/base/TimeZone.cc:322-363 | `toUtcTime(fromUtcTime(u))` gives every field of a real time back, and its week day |
| `Calendar.YearDay` | muduo_server_learn/muduo-master/muduo/base/TimeZone.cc:342-346 | `tm_yday` counts the days of the year that went before exactly when the year is not -4800 |
| `TimeZones.FindsThePeriod` | muduo_server_learn/muduo-master/muduo/base/TimeZone.cc:223-255 | `findLocaltime` finds the period that the time lies in |
| `TimeZones.ShowsThePeriod` | muduo_server_learn/muduo-master/muduo/base/TimeZone.cc:277-297 | `toLocalTime` is the UTC time shifted by the offset of the period that the moment lies in, with its flag |
| `TimeZones.LocalRoundTrip` | muduo_server_learn/muduo-master/muduo/base/TimeZone.cc:277-320 | `fromLocalTime(toLocalTime(t)) == t` exactly when the clock time is not shown again later, or that is a one-hour step from summer time to standard time, for the period that `t` lies in |
| `TimeZones.FixedZoneRoundTrip` | muduo_server_learn/muduo-master/muduo/base/TimeZone.cc:270-275 | a zone of one offset loses no moment |
| `Streams.DrainInTwo` | muduo_server_learn/muduo-master/muduo/net/TcpConnection.cc:347-355 | a handler that is called with all that was received and not yet consumed, and whose rounds are stable, does the same on a buffer at once or in two portions |
| `Streams.ChunkingDoesNotMatter` | muduo_server_learn/muduo-master/muduo/net/TcpConnection.cc:347-355 | so what it has done when all chunks have come depends on their concatenation only |
| `Streams.DecodeUndoesEncode` | muduo_server_learn/muduo-master/muduo/net/protobuf/ProtobufCodecLite.cc:42-97 | a parser that takes one encoding takes any sequence of them, in order, with nothing left |
| `Endian.PeekUndoesAppend` | muduo_server_learn/muduo-master/muduo/net/Buffer.h:224-247 | an integer of any width, appended in network order and peeked, is itself, also when negative |
| `Endian.AppendUndoesPeek` | muduo_server_learn/muduo-master/muduo/net/Buffer.h:290-323 | and the bytes of a peeked integer are those it is appended as |
| `Endian.NetworkOrder` | muduo_server_learn/muduo-master/muduo/net/Buffer.h:224-247 | byte `i` of an appended integer counts the powers of 256 that are left after it |
| `Buffers.Buffer.MoveToFront` | muduo_server_learn/muduo-master/muduo/net/Buffer.h:397-408 | the overlapping copy, byte by byte, keeps the contents; it is used only when `kCheapPrepend < readerIndex_` |
| `Buffers.Buffer.MakeSpace` | muduo_server_learn/muduo-master/muduo/net/Buffer.h:390-409 | both branches keep the contents and make the room; the source's assertion holds |
| `Buffers.Buffer.Append` | muduo_server_learn/muduo-master/muduo/net/Buffer.h:182-187 | the contents grow by the data |
| `Buffers.Buffer.Prepend` | muduo_server_learn/muduo-master/muduo/net/Buffer.h:354-360 | the data come before the contents |
| `Buffers.Buffer.Retrieve` | muduo_server_learn/muduo-master/muduo/net/Buffer.h:113-124 | the contents lose their front, and the indices go home when nothing is left |
| `Buffers.Buffer.Unwrite` | muduo_server_learn/muduo-master/muduo/net/Buffer.h:215-219 | the contents lose their end |
| `Buffers.Buffer.Shrink` | muduo_server_learn/muduo-master/muduo/net/Buffer.h:362-369 | the contents stay, with the room asked for |
| `Buffers.Buffer.ReadFd` | muduo_server_learn/muduo-master/muduo/net/Buffer.cc:25-57 | what was read follows the contents, whether it fitted or overflowed into the second segment |
| `Buffers.Buffer.ReadLimit` | muduo_server_learn/muduo-master/muduo/net/Buffer.cc:35-37 | one read with both segments takes at most 128 KiB less one |
| `Buffers.Buffer.ReadInt` | muduo_server_learn/muduo-master/muduo/net/Buffer.h:254-285 | reads the integer whose bytes came first |
| `Buffers.Buffer.AppendInt` | muduo_server_learn/muduo-master/muduo/net/Buffer.h:224-249 | the contents grow by the big-endian bytes of the integer |
| `Buffers.CrlfIsStable` | muduo_server_learn/muduo-master/muduo/net/Buffer.h:80-85 | a line end that was found stays the first one |
| `Buffers.Buffer.FindCRLF` | muduo_server_learn/muduo-master/muduo/net/Buffer.h:80-85 | finds the first one |
| `ProtobufCodec.DeliveryIgnoresChunks` | muduo_server_learn/muduo-master/muduo/net/protobuf/ProtobufCodecLite.cc:58-97 | on arbitrary bytes, the messages delivered depend on the stream only, not on the chunks |
| `ProtobufCodec.ParseUndoesBody` | muduo_server_learn/muduo-master/muduo/net/protobuf/ProtobufCodecLite.cc:192-225 | checksum, tag and payload of a framed message are accepted |
| `ProtobufCodec.ParseDecides` | muduo_server_learn/muduo-master/muduo/net/protobuf/ProtobufCodecLite.cc:184-225 | on any bytes the answer of `parse` says what was there: a message only for tag, payload and the checksum of both, and which of the three is wrong otherwise |
| `ProtobufCodec.FrameDecides` | muduo_server_learn/muduo-master/muduo/net/protobuf/ProtobufCodecLite.cc:62-96 | a whole frame is passed over, delivers its one message, or delivers nothing and stops the loop before it with its error code, as its bytes decide: wrong checksum, wrong tag, payload that does not parse |
| `ProtobufCodec.OnlyOneFate` | muduo_server_learn/muduo-master/muduo/net/protobuf/ProtobufCodecLite.cc:62-96 | and the bytes decide just one of these |
| `ProtobufCodec.BadLengthStops` | muduo_server_learn/muduo-master/muduo/net/protobuf/ProtobufCodecLite.cc:64-69 | a length below the least or above the largest stops the loop with `kInvalidLength`, whatever follows |
| `ProtobufCodec.AlteredByteIsNoticed` | muduo_server_learn/muduo-master/muduo/net/protobuf/ProtobufCodecLite.cc:178-190 | a frame of which one byte after the length was altered, in tag, payload or checksum, is not delivered: the loop stops with `kCheckSumError` |
| `ProtobufCodec.MessagesArrive` | muduo_server_learn/muduo-master/muduo/net/protobuf/ProtobufCodecLite.cc:42-97 | any sequence of messages within the length limit arrives complete and in order, for all chunkings, and nothing is left in the buffer |
| `ProtobufCodec.FillEmptyBuffer` | muduo_server_learn/muduo-master/muduo/net/protobuf/ProtobufCodecLite.cc:42-56 | `fillEmptyBuffer` on a buffer |
| `ProtobufCodec.OnMessage` | muduo_server_learn/muduo-master/muduo/net/protobuf/ProtobufCodecLite.cc:58-97 | `onMessage` on a buffer is the parser loop, and reports the error of `ErrorAt` exactly when it gives up |
| `LengthHeaderCodec.MessagesArrive` | muduo_server_learn/muduo-master/examples/asio/chat/codec.h:21-65 | messages of up to 65536 bytes arrive as sent, for all chunkings |
| `LengthHeaderCodec.LongMessagesDoNot` | muduo_server_learn/muduo-master/examples/asio/chat/codec.h:33-38 | a longer one, which `send` does not refuse, makes the receiver give up |
| `LengthHeaderCodec.OnMessage` | muduo_server_learn/muduo-master/examples/asio/chat/codec.h:21-52 | `onMessage` on a buffer is the parser loop |
| `Http.ParsingIgnoresChunks` | muduo_server_learn/muduo-master/muduo/net/http/HttpContext.cc:60-118 | verdict, fields and bytes consumed are the same for every chunking |
| `Http.ParseUndoesPrint` | muduo_server_learn/muduo-master/muduo/net/http/HttpContext.cc:16-118 | a printed request with trimmed values is parsed to the same method, version, path, query and headers, and what follows it is left |
| `Http.RequestSurvives` | muduo_server_learn/muduo-master/muduo/net/http/HttpContext.cc:16-118 | a request with its header map, the fields printed in any order and cut into any chunks, is parsed to the same request, and what follows it is left |
| `Http.HeadersOfMap` | muduo_server_learn/muduo-master/muduo/net/http/HttpRequest.h:135-149 | a header map is what its fields are parsed to, in any order of printing |
| `Http.RequestLineParses` | muduo_server_learn/muduo-master/muduo/net/http/HttpContext.cc:16-57 | the request line alone |
| `Http.AcceptsExactly` | muduo_server_learn/muduo-master/muduo/net/http/HttpContext.cc:16-57 | a request line is accepted exactly when it is the line of a request with a known method and version and a target without spaces |
| `Http.AcceptedIsPrinted` | muduo_server_learn/muduo-master/muduo/net/http/HttpContext.cc:16-57 | the request read from an accepted line is the one that prints it |
| `Http.RefusesExactly` | muduo_server_learn/muduo-master/muduo/net/http/HttpContext.cc:60-118 | `parseRequest` on a new connection answers false exactly when the first line is complete and is no such line; header lines are never refused |
| `Http.ValueIsTrimmed` | muduo_server_learn/muduo-master/muduo/net/http/HttpRequest.h:135-149 | of any header line the field is what stands before the first colon, and the value what stands after it without the blanks on both sides |
| `Http.NoColonEnds` | muduo_server_learn/muduo-master/muduo/net/http/HttpContext.cc:86-108 | a line without a colon ends the request |
| `Http.HttpRequest.AddHeaderLine` | muduo_server_learn/muduo-master/muduo/net/http/HttpRequest.h:135-149 | `addHeader` with its two trimming loops |
| `Http.HttpRequest.SetMethod` | muduo_server_learn/muduo-master/muduo/net/http/HttpRequest.h:53-82 | `setMethod`; its assertion holds |
| `Http.HttpContext.RequestLineOf` | muduo_server_learn/muduo-master/muduo/net/http/HttpContext.cc:16-57 | `processRequestLine`, with the fields it sets before it fails |
| `Http.HttpContext.Parse` | muduo_server_learn/muduo-master/muduo/net/http/HttpContext.cc:60-118 | `parseRequest` on a buffer |
| `LogStreams.Convert` | muduo_server_learn/muduo-master/muduo/base/LogStream.cc:46-67 | writes the decimal numeral of any integer, negative ones through the middle of the digit table, with the terminating zero |
| `LogStreams.ConvertHex` | muduo_server_learn/muduo-master/muduo/base/LogStream.cc:69-85 | writes the hexadecimal numeral |
| `LogStreams.NumeralIsTheNumber` | muduo_server_learn/muduo-master/muduo/base/LogStream.cc:46-67 | the numeral reads as the number and has no leading zero |
| `LogStreams.DecimalFits` | muduo_server_learn/muduo-master/muduo/base/LogStream.cc:237-244 | any 64-bit integer takes at most 20 characters |
| `MemcacheStore.Server.StoreItem` | muduo_server_learn/muduo-master/examples/memcached/server/MemcacheServer.cc:44-138 | on the shards, does for each of the six policies what the single map does; answers that the item was stored exactly when the key's item changed, and changes no other key |
| `MemcacheStore.Server.GetItem` | muduo_server_learn/muduo-master/examples/memcached/server/MemcacheServer.cc:140-147 | finds the item of the map |
| `MemcacheStore.Server.DeleteItem` | muduo_server_learn/muduo-master/examples/memcached/server/MemcacheServer.cc:149-155 | deletes it and no other, and answers whether it was there |
| `MemcacheStore.EachPolicyLeaves` | muduo_server_learn/muduo-master/examples/memcached/server/MemcacheServer.cc:44-138 | `set` leaves the new item; `add` leaves an item that is there and else the new one; `replace`, `append` and `prepend` leave a missing key missing, and else the new value or both joined; `cas` stores exactly over the item with the number given; what is stored has the next number |
| `MemcacheStore.StoredMeansChanged` | muduo_server_learn/muduo-master/examples/memcached/server/MemcacheServer.cc:44-138 | of the other keys none changes, and the item was stored exactly when the key has another item than before |
| `MemcacheStore.DeleteLeaves` | muduo_server_learn/muduo-master/examples/memcached/server/MemcacheServer.cc:149-155 | after `deleteItem` the key has no item and every other key has what it had |
| `MemcacheStore.PayloadsConcatenate` | muduo_server_learn/muduo-master/examples/memcached/server/MemcacheServer.cc:88-118 | append and prepend concatenate payloads, keep one line end, and keep flags and expiry time |
| `MemcacheStore.EveryRunIsSafe` | muduo_server_learn/muduo-master/examples/memcached/server/MemcacheServer.cc:44-155 | over every run items sit under their keys, end with a line end, and have distinct numbers |
| `MemcacheStore.NumberTellsMutation` | muduo_server_learn/muduo-master/examples/memcached/server/MemcacheServer.cc:119-131 | a key still has the number that was read exactly when it was not stored or deleted since |
| `MemcacheStore.CasSucceedsIfUnmutated` | muduo_server_learn/muduo-master/examples/memcached/server/MemcacheServer.cc:119-131 | so a `kCas` store with it succeeds exactly then, whatever other sessions do |
| `MemcacheStore.ItemBuffer.constructor` | muduo_server_learn/muduo-master/examples/memcached/server/Item.cc:14-31 | key first, value to come |
| `MemcacheStore.ItemBuffer.Append` | muduo_server_learn/muduo-master/examples/memcached/server/Item.cc:33-39 | appends within the array; the assertions hold |
| `MemcacheStore.ItemBuffer.ResetKey` | muduo_server_learn/muduo-master/examples/memcached/server/Item.cc:56-63 | a needle for another key |
| `MemcacheStore.ItemBuffer.IsComplete` | muduo_server_learn/muduo-master/examples/memcached/server/Item.h:105-110 | a full buffer is the item, and ends with a line end exactly when its value does |
| `MemcacheSession.SessionIgnoresChunks` | muduo_server_learn/muduo-master/examples/memcached/server/Session.cc:73-199 | calling `onMessage` for every chunk does what one call on the whole stream does, replies, store and shutdown included, when every complete line is shorter than 1024 bytes |
| `MemcacheSession.LongLinesDependOnChunks` | muduo_server_learn/muduo-master/examples/memcached/server/Session.cc:73-134 | a stream that leaves the connection open when it arrives at once is served alike in all chunks exactly when every complete line in it is shorter than 1024 bytes |
| `MemcacheSession.OneLineIsCut` | muduo_server_learn/muduo-master/examples/memcached/server/Session.cc:97-117 | for a single line, whatever it asks for: exactly when it is shorter than 1024 bytes |
| `MemcacheSession.EverySessionIsOrderly` | muduo_server_learn/muduo-master/examples/memcached/server/Session.cc:201-207 | for all chunks, the fields of a request are clean at every new command, so the assertions hold; the store keeps its invariant |
| `MemcacheSession.StorageTakesItsData` | muduo_server_learn/muduo-master/examples/memcached/server/Session.cc:136-181 | an accepted storage command takes its line and exactly the announced bytes plus two, stores them exactly when the two are a line end, and leaves the session ready |
| `MemcacheSession.TokensOfWords` | muduo_server_learn/muduo-master/examples/memcached/server/Session.cc:19-42 | words joined by spaces are the tokens |
| `MemcacheSession.NumberIsReadBack` | muduo_server_learn/muduo-master/examples/memcached/server/Session.cc:52-66 | a decimal numeral is read back |
| `MemcacheSession.SetIsAccepted` | muduo_server_learn/muduo-master/examples/memcached/server/Session.cc:325-394 | a `set` line as a client writes it is accepted as it was meant |
| `MemcacheSession.OutputLeftOver` | muduo_server_learn/muduo-master/examples/memcached/server/Session.cc:237-268 | `get` leaves its output buffer empty exactly when all keys are short enough and the connection is open, or a key is too long, nothing was found before it and the buffer was empty |
| `MemcacheSession.StaleOutput` | muduo_server_learn/muduo-master/examples/memcached/server/Session.cc:237-268 | the input on which output is left over: a `get` of an item that is there and then a key that is too long |
| `MemcacheSession.Client.OnMessage` | muduo_server_learn/muduo-master/examples/memcached/server/Session.cc:73-134 | `onMessage` on a buffer is the parser loop, with lines of any length, and the shutdown when a command is incomplete after 1024 bytes |
| `MemcacheSession.Client.ReceiveFrom` | muduo_server_learn/muduo-master/examples/memcached/server/Session.cc:136-181 | `receiveValue` |
| `MemcacheSession.Client.DiscardFrom` | muduo_server_learn/muduo-master/examples/memcached/server/Session.cc:183-199 | `discardValue` |
| `MemcacheCommands.LineIsRead` | muduo_server_learn/muduo-master/examples/memcached/server/Session.cc:210-230 | words joined by spaces, with ` noreply` behind them or not, are read as those words and that wish |
| `MemcacheCommands.Dispatch` | muduo_server_learn/muduo-master/examples/memcached/server/Session.cc:229-305 | each of the words that are no storage words stands for its command, and every other word for none |
| `MemcacheCommands.SixStorageWords` | muduo_server_learn/muduo-master/examples/memcached/server/Session.cc:325-340 | the six storage words, and no other, stand for the six policies |
| `MemcacheCommands.StorageIsAccepted` | muduo_server_learn/muduo-master/examples/memcached/server/Session.cc:342-393 | each of the six commands is taken as it is written: key, flags, time, length and number |
| `MemcacheCommands.StorageIsServed` | muduo_server_learn/muduo-master/examples/memcached/server/Session.cc:136-181 | a storage command with its data: ending in a line end they are stored by the policy of the word, and the answer is STORED, NOT_STORED, EXISTS or NOT_FOUND by what became of the key; otherwise nothing is stored and the chunk is called bad; the session is ready again |
| `MemcacheCommands.LargeIsDiscarded` | muduo_server_learn/muduo-master/examples/memcached/server/Session.cc:379-387 | a value of more than 1048576 bytes: the key loses its item, all the data are passed over, and the client is told |
| `MemcacheCommands.LaterTimesAreRelative` | muduo_server_learn/muduo-master/examples/memcached/server/Session.cc:355-367 | times of more than thirty days are points in time, at least one second after the start |
| `MemcacheCommands.DeleteIsServed` | muduo_server_learn/muduo-master/examples/memcached/server/Session.cc:396-423 | `delete` of a key removes exactly that key, and answers DELETED or NOT_FOUND by whether it was there |
| `MemcacheCommands.NoreplyIsNoKey` | muduo_server_learn/muduo-master/examples/memcached/server/Session.cc:210-219 | the input: a key called `noreply` cannot be deleted with an answer |
| `MemcacheCommands.LongKeyIsRefused` | muduo_server_learn/muduo-master/examples/memcached/server/Session.cc:396-406 | a key of more than 250 bytes is refused and the store left alone |
| `MemcacheCommands.GetIsServed` | muduo_server_learn/muduo-master/examples/memcached/server/Session.cc:237-269 | `get` and `gets` leave the store alone, and the client reads back from the answer exactly the items of the keys that are there, in the order of the keys, with their numbers for `gets`, and the end |
| `MemcacheCommands.BlockIsRead` | muduo_server_learn/muduo-master/examples/memcached/server/Item.cc:41-54 | what one item puts out is read back as key, flags, number and value |
| `MemcacheCommands.VersionIsServed` | muduo_server_learn/muduo-master/examples/memcached/server/Session.cc:274-281 | `version` is answered and changes nothing |
| `MemcacheCommands.QuitIsServed` | muduo_server_learn/muduo-master/examples/memcached/server/Session.cc:290-299 | `quit` and `shutdown` close the connection, `shutdown` stops the server, and neither is answered |
| `Multiplexer.SplitCarriesTheData` | muduo_server_learn/muduo-master/examples/multiplexer/multiplexer.cc:93-106 | the packets of one client's buffer carry exactly its bytes, in order |
| `Multiplexer.SendBackendBuffer` | muduo_server_learn/muduo-master/examples/multiplexer/multiplexer.cc:93-106 | `sendBackendBuffer` on a buffer |
| `Multiplexer.ClientsGetTheirBytes` | muduo_server_learn/muduo-master/examples/multiplexer/multiplexer.cc:108-138 | for every interleaving of packets and every chunking, each client gets exactly the payloads for it |
| `Multiplexer.EveryRunKeeps` | muduo_server_learn/muduo-master/examples/multiplexer/demux.cc:79-182 | with chunks and proxy connections coming up and closing in any order, bytes handed over followed by bytes pending are the stream of the id, until its connection closes; packets dealt with and bytes left are what arrived |
| `Multiplexer.StreamsArrive` | muduo_server_learn/muduo-master/examples/multiplexer/demux.cc:79-115 | when legal packets have arrived in the chunks of the run, whatever the cuts and connections, all were dealt with in order, every id in use has an entry and each open stream is complete; or the demultiplexer is stuck before an announcement of an id that was announced before and whose entry is still there |
| `Multiplexer.EventsAreLegal` | muduo_server_learn/muduo-master/examples/multiplexer/multiplexer.cc:140-195 | what clients do, no id being given to two of them at a time, becomes legal packets, and the stream of a connected client is what it sent since it connected |
| `Multiplexer.AlwaysAPrefix` | muduo_server_learn/muduo-master/examples/multiplexer/demux.cc:79-115 | before that, what was dealt with is a prefix of what was sent |
| `Multiplexer.ClientBytesArrive` | muduo_server_learn/muduo-master/examples/multiplexer/demux.cc:79-153 | end to end, from what clients do (connect, send, disconnect, in any order, ids given again): when all has arrived, a connected client has an entry, and what its connection was handed, with what is pending, is exactly what the client sent; or the demultiplexer is stuck at an id that was given again while its entry was there |
| `Multiplexer.NothingIsLost` | muduo_server_learn/muduo-master/examples/multiplexer/demux.cc:79-182 | and as long as neither the client nor the far side of its connection goes, that connection was handed all that the client sent, or while it is not up all of it waits |
| `Multiplexer.EntriesAsTold` | muduo_server_learn/muduo-master/examples/multiplexer/demux.cc:79-182 | for every id, whether there is an entry, whether its connection is up or closed, and what it was handed are told by the packets that came and the connections that came up or went down, in their order, alone |
| `Multiplexer.ServerFollows` | muduo_server_learn/muduo-master/examples/multiplexer/demux.cc:79-182 | every run of the server, with chunks, is such a run of packets and connections, with the packets dealt with and the connections of the run |
| `Multiplexer.ClosedHasCause` | muduo_server_learn/muduo-master/examples/multiplexer/demux.cc:141-179 | a connection is closed only when it went down, or was told that its client went |
| `Multiplexer.PrefixCode` | muduo_server_learn/muduo-master/examples/multiplexer/multiplexer.cc:64-83 | no sequence of packets can be taken for another |
| `Multiplexer.AnnouncementIsRead` | muduo_server_learn/muduo-master/examples/multiplexer/demux.cc:117-138 | the announcement of an id is read as that id and opens an empty stream |
| `Multiplexer.DataNeedsAnnouncement` | muduo_server_learn/muduo-master/examples/multiplexer/demux.cc:93-106 | a data packet fails an assertion exactly when its id is not announced |
| `Multiplexer.NeverGivesUp` | muduo_server_learn/muduo-master/examples/multiplexer/demux.cc:79-138 | when no id is announced a second time no assertion fails on any prefix of legal packets |
| `Multiplexer.GivesUpOnRepeats` | muduo_server_learn/muduo-master/examples/multiplexer/demux.cc:79-153 | on a prefix of legal packets the only assertion that fails is the one on a repeated announcement |
| `Multiplexer.ReuseDecides` | muduo_server_learn/muduo-master/examples/multiplexer/demux.cc:117-179 | a client goes and its id is given to the next one, whatever happens in between: the new announcement is dealt with exactly when the old client's connection was not up at its farewell |
| `Multiplexer.OnServerMessage` | muduo_server_learn/muduo-master/examples/multiplexer/demux.cc:79-115 | `onServerMessage` on a buffer is the parser loop |
| `RpcBalancer.PatchTakes` | muduo_server_learn/muduo-master/examples/protobuf/rpcbalancer/balancer_raw.cc:52-62 | replacing the id keeps length, tag and every other byte, leaves a checksum that holds, and the new id is parsed |
| `RpcBalancer.PatchUndoesPatch` | muduo_server_learn/muduo-master/examples/protobuf/rpcbalancer/balancer_raw.cc:28-62 | putting the old id back gives the very bytes of the message |
| `RpcBalancer.PatchNeedsRoom` | muduo_server_learn/muduo-master/examples/protobuf/rpcbalancer/balancer_raw.cc:33-45 | among the messages that `parse` takes, ids can be replaced exactly in those in which the id does not reach into the checksum |
| `RpcBalancer.CrowdedIsTaken` | muduo_server_learn/muduo-master/examples/protobuf/rpcbalancer/balancer_raw.cc:28-50 | for every tag there is a message that `parse` takes and whose id reaches into the checksum |
| `RpcBalancer.UpdateId` | muduo_server_learn/muduo-master/examples/protobuf/rpcbalancer/balancer_raw.cc:52-62 | `updateId` in place |
| `RpcBalancer.EveryReplyIsWanted` | muduo_server_learn/muduo-master/examples/protobuf/rpcbalancer/balancer_raw.cc:95-188 | over every run, with raw messages and message objects, and responses late, repeated or made up, every reply goes to the client that asked, under its own id unless the reply is too short for an id and a checksum, and no request is answered twice |
| `RpcBalancer.RepliesAreAnswers` | muduo_server_learn/muduo-master/examples/protobuf/rpcbalancer/balancer_raw.cc:95-188 | over every run the replies are exactly the first responses to each of the requests, counted from 1, each for the client that asked and under its id |
| `RpcBalancer.EchoComesBack` | muduo_server_learn/muduo-master/examples/protobuf/rpcbalancer/balancer_raw.cc:95-188 | a message, with room for both, that is echoed by the backend reaches the client byte for byte as it was sent |
| `RpcBalancer.Choose` | muduo_server_learn/muduo-master/examples/protobuf/rpcbalancer/balancer_raw.cc:295-310 | the first backend that is up from the current one on is chosen, and the next message starts behind it |
| `SudokuStats.AdvanceKeeps` | muduo_server_learn/muduo-master/examples/sudoku/stat.h:120-129 | jumping ahead by any number of seconds keeps every bucket right, and the window reaches back as far as before, but not over more than a minute |
| `SudokuStats.CountKeeps` | muduo_server_learn/muduo-master/examples/sudoku/stat.h:102-107 | counting a response in its bucket keeps every bucket right |
| `SudokuStats.OutsideKeeps` | muduo_server_learn/muduo-master/examples/sudoku/stat.h:153-158 | a response before the window does not show in it |
| `SudokuStats.SudokuStat.RecordResponse` | muduo_server_learn/muduo-master/examples/sudoku/stat.h:85-160 | for seconds after the epoch in any order, bucket and latency of every second in the window are what the history since the last reset says; the window reaches back as far as before, but not over more than a minute, and begins anew after a gap of a minute |
| `SudokuStats.SudokuStat.Reset` | muduo_server_learn/muduo-master/examples/sudoku/stat.h:68-83 | begins a new history |
| `IdleConnections.EntryExistsWhileCounting` | muduo_server_learn/muduo-master/examples/idleconnection/echo.cc:33-72 | a connection's entry exists exactly while fewer than N ticks have passed since its last activity |
| `IdleConnections.StepRefines` | muduo_server_learn/muduo-master/examples/idleconnection/echo.cc:33-78 | every event does to the ring of shared entries what it does to a counter for each connection |
| `IdleConnections.EveryRunAgrees` | muduo_server_learn/muduo-master/examples/idleconnection/echo.cc:33-78 | over every run the two agree, and no connection is shut down twice |
| `IdleConnections.SilentConnections` | muduo_server_learn/muduo-master/examples/idleconnection/echo.h:41-48 | in every run of the wheel, a connection that falls silent after connecting, or after sending while it has an entry, has one while fewer than N ticks pass, and is shut down on the N-th and on no other |
| `IdleConnections.GoneIsLeftAlone` | muduo_server_learn/muduo-master/examples/idleconnection/echo.cc:48-52 | a connection that went down is shut down no more, although its entry stays in the buckets |
| `IdleConnections.EchoServer.OnTimer` | muduo_server_learn/muduo-master/examples/idleconnection/echo.cc:74-78 | the turn of the ring, with the destructors it runs |
| `IdleConnections.EchoServer.OnMessage` | muduo_server_learn/muduo-master/examples/idleconnection/echo.cc:55-72 | `onMessage` |
| `IdleConnections.EchoServer.OnConnection` | muduo_server_learn/muduo-master/examples/idleconnection/echo.cc:33-53 | `onConnection` |

## Left out

- The stochastic side of I/O: sockets, epoll, eventfd and timerfd are steps that answer freely within what the kernel guarantees; files and logging output are sequences.
- Liveness and wall-clock performance: only safety over runs, termination of loops, and that a given continuation reaches a state.
- Two threads calling `shutdown` or `forceClose` of one connection at the same instant, or one of them while the loop thread closes it: the test and the assignment of `state_` are one step here, while the source has them unsynchronised and says so.
- `TcpConnections.TcpConnection`: write-complete and high-water callbacks are taken to be set, and the mark not to change.
- `Connector`, `TcpClient` and the destructor of `TcpServer`.
- 64-bit and 32-bit wrap-around of counters, sequence numbers, cas numbers, byte counts and Julian day numbers, except where the memcached session narrows a number that a client sent.
- `AsyncLoggings.Appended`: a buffer is the list of messages copied into it, not their bytes in one array.
- `TimerQueues.TimerQueue`: timer objects are entries of a heap map, and their callbacks appear as the steps they take; `double` intervals are whole microseconds, and the two clocks of the kernel advance together.
- `MemcacheSession.Client`: the session's fields are one record that the methods replace; the store it uses is the single map that the sharded server is proved to be, and the steps of other sessions do not interleave with one `onMessage`.
- `MemcacheSession.Client.OnMessage`: ends at a missing key, a negative byte count and one within 2 of the largest `int`, for which the source has no defined behaviour; the binary protocol is not implemented there either.
- `Http.HttpContext.Parse`: is not called again after it got all or failed, as in the source; a second request in the same buffer waits for the next call.
- Protobuf serialization, zlib and the raw callback are parameters of the codec; the checksum is Adler-32 of section 2.2 of RFC 1950.
- `Multiplexer.ClientBytesArrive`: the backend stays up; traffic while it is down is excluded by assertions in the source. An id that is given again while its old entry is there fails an assertion of the demultiplexer (`Multiplexer.ReuseDecides`).
- Aliasing of a buffer with the data appended to it.
- The reading of TZif files: transition tables are given, strictly ascending (section 3.2 of RFC 8536), and further apart than the offsets differ; `gmtime_r` and `timegm` are taken to be `toUtcTime` and `fromUtcTime`, as the source's remarks ask.
- FastCGI records, the word-count and hub examples: their parsers and tables add easier members of kinds that are treated here.
- `formatSI`, `formatIEC`, floating-point output, plotting, `/proc` inspection.
- The reports of `EPollPoller::poll`: the kernel hands the channels back itself.
- In the balancer, clients that are gone: their replies are dropped where they are sent.
