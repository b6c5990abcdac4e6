# FluentNet, modelled and proved in Dafny

FluentNet is a header-only C++14 TCP library. This project models the parts of it that keep state and
proves what they are for. `dafny verify dfyconfig.toml` checks everything.

| file | part of the library |
|---|---|
| LogProtocol.dfy, LogProgress.dfy, LogRecord.dfy | the double-buffered log: producers and the writer thread, its progress, one record, one file |
| Calendar.dfy, Clock.dfy, Decimal.dfy | the logger's civil calendar, its cached date, its integer printer |
| Pool.dfy, PoolReuse.dfy | the connection pool and its incremental collector, and when it reuses slots |
| Interest.dfy, HalfClose.dfy, SendLedger.dfy, Connection.dfy | one connection: network state, epoll interest, half-close, pending sends, handlers |
| Buffer.dfy, Algorithms.dfy | the byte buffer and rounding up to a power of two |
| Reactor.dfy | one turn of the server: poll, accept, handle, loop |
| Looper.dfy, Futures.dfy, WhenFutures.dfy, Coroutine.dfy | the cooperative looper, future chains, `whenN`/`whenAll`, coroutine stacks |
| InetText.dfy | IPv4 addresses as text |

How it is modelled:

- The log is a concurrent protocol, so it is a step system: each step is one access to shared state by one
  thread (each assignment of `swap()`, each copied byte and each lock operation is a step of its own), and
  a run is any interleaving. `sflag` is read and written sequentially consistently.
- Objects that the library changes in place are classes with the same fields. Their methods are proved
  against functions on values, and the main results are lemmas about those functions or invariants
  (`Valid`) that every method keeps.
- Sockets, epoll, `write(2)`, `readv(2)`, clocks, try_lock, user callbacks and the order in which threads
  run are parameters that may take every value the system allows.
- Bundle addresses and stack contexts are numbered, and a number is never used again. So "this pointer is
  dangling" is the same as "this number is not allocated".

Where the code and its documentation or the obvious expectation differ, the model follows the code:

- `Completion::INVALID` is documented as "never", but its token polls true
  (`SendLedger.SmallTokensPollTrue`).
- `Context::send` writes to the socket without looking at the buffer, so it can overtake buffered bytes:
  `Connections.DirectWriteOvertakes` runs a connection into it. A send keeps the order, however much the
  socket takes, if and only if write interest is off, or it is empty, or all bytes are the same
  (`Connections.Context.SendKeepsOrderExactly`). `Connections.Context.Valid` keeps the order for all runs in
  which no direct write overtakes.
- The deferred half of `Context::shutdown` polls for CONNECTED after setting DISCONNECTING, so it gives up at
  its first poll (`HalfClose.PollGivesUp`; `Connections.DeferredShutdownGivesUp` runs a connection there). A shutdown ever half-closes the socket if and only if the context
  was CONNECTED with write interest off at the call (`HalfClose.ShutdownHalfClosesExactly`).
- A put needs its record to be at most as long as the buffer. A longer one passes the end
  (`LogProtocol.PutStaysInside`, and `LogProtocol.LongRecordPassesEnd` for a run that does it).
- The collector does not reuse every slot that is free. It reuses one if and only if a slot up to and
  including `_reusableIndex` is reusable (`PoolReuse.ReuseComesExactly`). The first seventeen connections
  stop it for as long as all of them stay open (`PoolReuse.LongLivedConnectionsBlock`).
- `roundToPowerOfTwo` is right exactly for 1 <= v <= 2^30 (`Algorithms.RoundedIsRightExactly`).
- The cached date of `Chrono::format` is right exactly when the clock has not gone back behind the cached
  day (`Clock.Formatter.Format`); `Clock.StaleDateIsShown` shows a stale one.

## Model

| member | source | states |
|---|---|---|
| LogProtocol.FilesArePrefixOfLog | include/logger/Log.hpp:1296-1360 | In every reachable state of any number of producers: files, then the writer's unwritten bytes, then the front buffer, then the record being appended, are all records in the order in which rmtx was locked; the files hold a prefix of that log |
| LogProtocol.QuietStateHoldsLog | include/logger/Log.hpp:1296-1360 | With no record in flight and nothing drained, files plus front buffer are exactly the log |
| LogProtocol.StepKeepsInv | include/logger/Log.hpp:1296-1360 | Every single step of every thread keeps the lock, flag, index, copy and accounting invariants |
| LogProtocol.SwapKeepsContents | include/logger/Log.hpp:1331-1340 | Between any two of the eight assignments of `swap()`, drained plus appended bytes are the same |
| LogProtocol.CopyExcludesSwap | include/logger/Log.hpp:1297-1311 | While a producer copies or advances `rcur`, it holds rmtx, the flag is raised, and no swap is between its first and fifth assignment |
| LogProtocol.WriterAndProducerUseDifferentBuffers | include/logger/Log.hpp:1307-1359 | The writer never drains the buffer that a producer fills |
| LogProtocol.PutStaysInside | include/logger/Log.hpp:1299-1309 | A put stays inside the buffer if and only if its record is no longer than the buffer |
| LogProtocol.LongRecordPassesEnd | include/logger/Log.hpp:1296-1340 | From every initial state, a producer with a record longer than the buffer can come to copy it with `rcur` plus its length past the end, up to the byte that belongs behind the end |
| LogProtocol.LoweredFlagHasWaiter | include/logger/Log.hpp:1300-1306 | A lowered flag means that exactly the holder of rmtx waits; it leaves its wait only with an empty front buffer |
| LogProtocol.WriterIsNotBlocked | include/logger/Log.hpp:1341-1354 | A waiting producer never blocks the writer |
| LogProtocol.SwapComes | include/logger/Log.hpp:1341-1360 | From any state with a waiting producer, any continuation with `Rank` writer steps contains the swap, whatever the others do |
| LogProgress.RecordIsPut | include/logger/Log.hpp:1296-1311 | In any interleaving, a producer that holds rmtx with a record that fits, or whose swap has come, has the record behind what was in the buffer after its length + 4 own steps; it has then released rmtx, and nobody has lowered the flag |
| LogProgress.PutIsNotBlocked | include/logger/Log.hpp:1296-1311 | No other thread can block that producer |
| LogProgress.RecordAsks | include/logger/Log.hpp:1300-1304 | In any interleaving, a producer whose record does not fit (`rcur` plus its length reaches the size) has lowered the flag after three own steps, and still holds rmtx |
| LogProgress.SwapLockComesFree | include/logger/Log.hpp:1327-1360 | Whatever producers do, the writer frees smtx after at most twelve of its steps |
| LogProgress.TimeoutDrains | include/logger/Log.hpp:1341-1360 | Without any request: after a timeout with rmtx free, at most size + 15 steps of the writer alone bring the whole log to the files |
| LogRecord.Put | include/logger/Log.hpp:1097-1107 | Writes the pieces with blanks between them and a newline at the end, in exactly `calspace` bytes, and nothing else |
| LogRecord.CalSpace | include/logger/Log.hpp:1071 | Total length plus number of pieces is the length of the written record |
| LogRecord.File.Append | include/logger/Log.hpp:1225-1234 | However `write` splits the bytes, exactly the first `count` are appended, and counted |
| Calendar.CalDateFollowsCalendar | include/logger/Log.hpp:615-630 | Day 0 is 1970-01-01, every day count gives a proleptic Gregorian date, and the next count gives the next date |
| Calendar.DaysInvertNumbering | include/logger/Log.hpp:615-630 | Any numbering that follows the calendar is inverted by counting days, so there is only one |
| Calendar.CalDateInvertsDays | include/logger/Log.hpp:615-630 | `calDate` and counting days undo each other on every day and every date |
| Calendar.YearOfEraFindsYear | include/logger/Log.hpp:622-625 | The division formula finds the year that the day of a 400-year era lies in, and years have their Gregorian length |
| Clock.CalTimeRecombines | include/logger/Log.hpp:632-649 | The four time fields recombine to the millisecond of the day for every time point, and are in range from the epoch on |
| Clock.Formatter.constructor | include/logger/Log.hpp:580-582 | The records start as the text of the epoch |
| Clock.Formatter.Format | include/logger/Log.hpp:573-612 | Year, month and day at 0, 5 and 8 of the date text are the date whose day count is that of the point, if the point is not before the cached day, and only then is it the fresh date; hour, minute, second and millisecond at 0, 3, 6 and 9 of the time text are the time of day |
| Clock.StaleDateIsShown | include/logger/Log.hpp:584-592 | A clock that goes back by a day is shown with the date of the later day |
| Clock.NondecreasingPointsShowTheirDates | include/logger/Log.hpp:584-592 | Over every nondecreasing sequence of points from the epoch to the end of 2049 each shown date is the fresh one |
| Decimal.ParseLength | include/logger/Log.hpp:989-1018 | Is the exact width of the decimal text |
| Decimal.Parse | include/logger/Log.hpp:930-946 | Fills exactly those bytes with the decimal text |
| Decimal.SignedTextReadsBack | include/logger/Log.hpp:930-946 | The text reads back as the printed number, with a sign exactly for negative ones |
| Pools.ConnectionPool.DoUpdate | include/utils/WeakReference.h:42-82 | One step in place is the step function about which the sweep results are proved |
| Pools.ConnectionPool.UpdateReusableIndex | include/utils/WeakReference.h:25-33 | At most two steps, none once the index is 0, each with its own observation of what is reusable |
| Pools.ConnectionPool.Emplace | include/network/Pool.h:41-65 | Sweeps, then overwrites a slot that is reusable when tested, at the index, or appends; names the freed slot |
| Pools.FullSweepPartitions | include/utils/WeakReference.h:42-82 | A full sweep is a stable partition: live slots first in old order, the index is their number, reusable ones behind, nothing lost, nothing behind the old index moved; without reusable slots nothing changes |
| Pools.FullSweepIsExact | include/utils/WeakReference.h:42-82 | It takes index + 1 steps if some slot is reusable, else index steps, and is not done earlier |
| Pools.EmplacedOwns | include/network/Pool.h:41-65 | An emplace adds its bundle once, frees at most one bundle that is reusable at its last test, and keeps every other one, whatever its sweep steps observed |
| Pools.EveryRunKeepsBundles | include/network/Pool.h:41-65 | Over every interleaving of single sweep steps, inserts and changes of what is reusable the window bounds hold and each bundle handed out and not freed sits in exactly one slot |
| Pools.ApplyKeepsSlots | include/network/Pool.h:41-65 | Each of these operations keeps that, and frees a bundle only while it is observed reusable |
| Pools.EmplaceIsRun | include/network/Pool.h:41-65 | A call of `emplace`, whatever its steps and its last test observe, is one of these runs |
| Pools.RunKeepsWindow | include/utils/WeakReference.h:42-82 | If reusable bundles stay reusable, the whole window is reusable after every sweep step, insert or change |
| PoolReuse.ReuseComesExactly | include/network/Pool.h:41-65 | From every reachable window, while nothing changes what is reusable: one of the next index + 1 connections takes over a slot if and only if a slot up to and including the index is reusable; if none is, no later one does |
| PoolReuse.StreakIsReused | include/network/Pool.h:41-65 | With a closed window over live slots and a run of slots from the index on that are reusable when their turn comes, as many connections overwrite exactly these slots, in order; nothing is appended, no other slot changes, and the index ends behind them |
| PoolReuse.BlockedPoolOnlyGrows | include/network/Pool.h:41-65 | With a closed window and live slots up to and including an index below the size, as long as these slots stay live, every insert appends and nothing is freed, whatever is reusable behind the index and whatever changes there |
| PoolReuse.LongLivedConnectionsBlock | include/network/Pool.h:41-65 | The first seventeen connections bring the pool there: while they live, it grows by one slot for each connection and frees none |
| Interest.TransitionsAgree | include/policy/MultiplexerPolicy.h:54-100 | Every transition of the handlers asks for a legal epoll operation, keeps kernel interest equal to `_events`, and never moves the network state back |
| Interest.ClosesOnce | include/handler/Handler.h:181-197 | Over every run there is one closing transition if and only if the run ends disconnected; nothing but ignored shutdowns follows it |
| Interest.MovesOn | include/policy/MultiplexerPolicy.h:54-100 | In every state that a run of transitions reaches, each transition that a handler makes is legal for epoll and extends the run |
| HalfClose.ShutdownHalfClosesExactly | include/network/Context.h:138-168 | Whatever follows a shutdown or close, the socket is ever half-closed if and only if it was before, or the context was CONNECTED with write interest off at the call |
| HalfClose.PollGivesUp | include/network/Context.h:150-166 | In every state in which the deferred task can poll, its first poll ends it without effect |
| HalfClose.OnlyShutdownHalfCloses | include/network/Context.h:138-168 | A step half-closes the socket if and only if it is a shutdown or close of a connected context with write interest off |
| Connections.DeferredShutdownGivesUp | include/network/Context.h:138-168 | A connection that is shut down with a byte buffered: its task has given up, and the socket is not half-closed |
| SendLedger.FlushedAccounts | include/handler/Handler.h:219-231 | `handleWriteComplete` takes the books for f flushed bytes to those for f + n |
| SendLedger.PendingIsTheRest | include/handler/Handler.h:219-231 | Pending sizes are positive and sum to the unflushed bytes; the counters differ by the queue length |
| SendLedger.CompletionIsExact | include/policy/SendPolicy.h:18 | A buffered send polls true if and only if the flushed bytes reach all bytes buffered through it |
| SendLedger.EveryRunCompletesExactly | include/network/Context.h:178-202 | The same over every run of sends and partial writes |
| SendLedger.SmallTokensPollTrue | include/policy/SendPolicy.h:10-18 | FAST_COMPLETE polls true, and so does INVALID |
| Connections.Context.UpdateMultiplexer | include/policy/MultiplexerPolicy.h:54-68 | Carries the legal epoll operation out |
| Connections.Context.HandleNewContext | include/handler/Handler.h:123-143 | Connects, registers for reading, and then what the connect callback sends is accepted and its shutdowns take place, up to the first call that throws; that is caught; invariant kept |
| Connections.Context.SendBytes | include/network/Context.h:178-202 | What goes to the wire, what is buffered, which token is given, in all branches, and whether the stream stays in order; pending sizes still sum to the buffer, write interest is on exactly while bytes are buffered, no byte is lost |
| Connections.Context.HandleWriteComplete | include/handler/Handler.h:219-231 | The loop over the pending sizes computes the flushed books |
| Connections.Context.HandleWrite | include/handler/Handler.h:163-178 | Wire plus buffer stay the same bytes in the same order, the wire grows by what is counted as flushed, and write interest goes off exactly when the buffer is empty |
| Connections.Context.HandleClose | include/handler/Handler.h:181-197 | An open connection ends disconnected and unregistered, with its socket half-closed as `shutdown` does it; a closed one is left alone |
| Connections.Context.Shutdown | include/network/Context.h:138-168 | CONNECTED becomes DISCONNECTING, and the socket is half-closed or a polling task posted; invariant kept |
| Connections.Context.PollShutdown | include/network/Context.h:150-166 | The posted task is done at its first poll, and has not half-closed the socket |
| Connections.Context.HandleRead | include/handler/Handler.h:146-160 | What the read delivers goes to the end of the input; new bytes run the message callback, whose sends are accepted and shutdowns take place up to the first call that throws; the end of the stream disconnects, a broken socket throws, and EAGAIN changes nothing |
| Connections.Context.HandleEvent | include/handler/HandlerBase.h:13-26 | For every combination of event bits, in the order of the code: exact network state, accepted bytes, flushed bytes, calls of the message callback and exceptions; an event that is output only puts the first of the buffered bytes on the wire; what happens to network state, interest and epoll registration is a run of the transitions of Interest; invariant kept |
| Connections.EventClosesExactly | include/handler/HandlerBase.h:13-26 | An event closes an open connection if and only if it is a hang-up without input, or reads the end of the stream |
| Connections.EventDeliversExactly | include/handler/Handler.h:146-160 | The message callback runs exactly for bytes that are read before anything was thrown |
| Connections.EventFlushesExactly | include/handler/Handler.h:163-178 | An output event flushes exactly as much as the socket takes of what is buffered; a failed write throws |
| Connections.ErrorThrows | include/handler/HandlerBase.h:13-26 | An error event throws, and nothing is read or written |
| Connections.Context.HandleOutput | include/handler/HandlerBase.h:23-25 | The first of the buffered bytes go to the wire, as many as the socket takes, and are counted |
| Connections.Context.CloseCallbackRunsOnce | include/handler/Handler.h:181-197 | Over the whole life of a connection the close callback runs once for its one closing transition, and not before it is disconnected |
| Connections.Context.CompletionPolls | include/policy/SendPolicy.h:18 | In every valid state a buffered send's completion polls true if and only if the flushed bytes reach it |
| Connections.StreamOrderIsKeptExactly | include/network/Context.h:181-188 | For any stream, buffer and data: every number of bytes the socket may take keeps the order if and only if the buffer is empty, or the data is, or all their bytes are the same |
| Connections.Context.SendKeepsOrderExactly | include/network/Context.h:178-202 | The same for a connected context, by its write interest |
| Connections.DirectWriteOvertakes | include/network/Context.h:181-188 | A connection that runs there: byte 1 is buffered, byte 2 is sent after it and is on the wire first |
| Buffers.Buffer.Gc | include/network/Buffer.h:68-74 | Moves the unread bytes to the front and changes none |
| Buffers.Buffer.ReuseIfPossible | include/network/Buffer.h:57-66 | Keeps the unread bytes; the bytes it moves in a run never exceed the bytes read |
| Buffers.Buffer.HasRead | include/network/Buffer.h:27 | Drops exactly the first n unread bytes |
| Buffers.Buffer.GcFor | include/network/Buffer.h:76-85 | Makes room for the hint; grows only if needed, and then to the least power of two that holds unread plus hint |
| Buffers.Buffer.Append | include/network/Buffer.h:87-91 | The unread bytes followed by the new ones; capacity stays below twice the peak demand once it has grown |
| Buffers.Buffer.ReadFrom | include/network/Buffer.h:93-113 | A scatter read of n bytes appends exactly those n bytes, also when it spills into the stack buffer |
| Buffers.Buffer.WriteTo | include/network/Buffer.h:115-130 | Bytes sent followed by bytes left are the old unread bytes; a failed write changes nothing |
| Algorithms.RoundToPowerOfTwo | include/utils/Algorithms.h:5-11 | The straight-line smearing computes `Rounded` |
| Algorithms.RoundedIsLeast | include/utils/Algorithms.h:5-11 | For 1 <= v <= 2^30 the result is the least power of two that is at least v |
| Algorithms.RoundedIsRightExactly | include/utils/Algorithms.h:5-11 | Over all 32-bit arguments it is a large enough power of two if and only if 1 <= v <= 2^30 |
| Reactor.Server.Poll | include/network/Multiplexer.h:44-62 | Files every reported event under the token read through its bundle, which is allocated |
| Reactor.ReportedExactly | include/network/Multiplexer.h:44-62 | Every ready event of a registered socket is filed, as often as it is ready, and no other |
| Reactor.Server.RegisteredIsNotReusable | include/network/Pool.h:57-65 | A registered bundle is allocated, its context is open, so it is not reusable |
| Reactor.Server.OpenAreRegistered | include/policy/MultiplexerPolicy.h:54-100 | Exactly the open contexts are registered |
| Reactor.Server.Accept | include/app/Server.h:211-219 | An accept between poll and handling frees no registered bundle; its new connection is open and registered |
| Reactor.Server.HandleEvents | include/handler/Handler.h:99-120 | Handles exactly the filed events, in order, each with an allocated bundle, up to and including one that throws something that is no `std::exception`; then, and only then, the buffer stays full |
| Reactor.Server.HandleEvent | include/handler/HandlerBase.h:13-26 | A bundle is closed exactly if its handler closes it, and no other bundle is |
| Reactor.ClosedByExactly | include/handler/Handler.h:99-120 | A bundle is closed by handled events if and only if the handler of one of its events closes it |
| Reactor.Server.Batch | include/app/Server.h:157-164 | One turn in the order of the code accepts a waiting connection, handles exactly the reported events, each with an allocated bundle, and leaves open what was open, plus the accepted connection, without what its handlers closed; it keeps the agreement of pool, contexts and kernel; an exception that leaves it ends it there |
| Reactor.Server.Loop | include/network/Context.h:150-166 | Polls each task that a shutdown has posted before, once, with its context allocated; what tasks post waits for the next turn, and the contexts of those tasks are open |
| Reactor.Server.Run | include/app/Server.h:152-154 | Over any number of turns, until an exception leaves `run`, no handled event has a freed bundle, no task of a shutdown polls a freed context, and every waiting connection is accepted |
| Loopers.Looper.Unroll4x | include/future/Looper.h:4-10 | The loop unrolled by 4, 2 and 1 is as many single steps as the queue was long; it resumes each queued task once, in order |
| Loopers.Looper.LoopOnceUnchecked | include/future/Looper.h:60-67 | Pops one coroutine, never from an empty queue; what it posts is queued before the coroutine itself, if that goes on |
| Loopers.StepsResumeInOrder | include/future/Looper.h:60-94 | Single steps take the first tasks in order; what they post or leave behind comes after all that was queued |
| Loopers.PassResumesEachOnce | include/future/Looper.h:80-94 | Tasks posted during a pass wait for the next one |
| Loopers.SurvivorsKeepOrder | include/future/Looper.h:60-67 | Coroutines that go on keep their relative order in the next queue, whatever the pass posts in between |
| Futures.FutureChain.SetValueOf | include/future/Promise.h:30-43 | Sets once and posts a request if a callback is attached; ignores a cancelled block, throws on a set one |
| Futures.FutureChain.FutureRoutine | include/future/Future.h:260-284 | Attaches in each state as the code does |
| Futures.FutureChain.ResumeFront | include/future/Future.h:135-186 | One resume of a request; in a reachable chain no promise is set twice |
| Futures.PollLoop | include/future/Future.h:164-172 | `poll(count, f)` yields until the first true answer, at most `count` times, and never asks again after it |
| Futures.StepInv | include/future/Future.h:250-284 | Every attach, set and pass keeps the state machine of the chain |
| Futures.QuietChainHoldsComposition | include/future/Future.h:135-186 | When no request is left the last future holds the composition of the stages, or nothing if one cancelled |
| Futures.QuietRunPipes | include/future/Future.h:135-186 | Over every run: a quiet chain is cancelled if and only if some `cancelIf` predicate is true of what the stages before it composed; otherwise its last future holds the functions of the `then` stages, applied in order to the first value, whatever the polls were asked |
| Futures.CancelReachesAttached | include/future/Future.h:260-284 | Whatever is attached behind a cancelled future is cancelled at once, and nothing is posted |
| Futures.PostsAreInOrder | include/future/Promise.h:30-69 | At any moment of any run each stage's request was posted at most once, in order, and none behind a stage that cancels |
| Futures.SchedulesAgree | include/future/Future.h:260-284 | The outcome does not depend on which stages are attached before or after the value is set |
| Futures.ChainTakesExactly | include/future/Looper.h:80-94 | An uncancelled chain whose polls come to an end finishes after exactly as many passes as it has stages and refusals left, not earlier |
| Futures.RefusedPollGoesOn | include/future/Future.h:151-160 | A poll that is refused for ever keeps its chain running, without an outcome |
| Futures.FullChainTakesCost | include/future/Looper.h:80-94 | Counted from the setting of the first value: stages plus refusals, `poll(count)` being refused at most `count` times |
| Futures.PassIsLooperPass | include/future/Looper.h:80-94 | One pass of a looper with any other coroutines in its queue, before and behind the chain's, is one pass of the chain |
| Futures.LooperTakesExactly | include/future/Looper.h:80-94 | On such a looper an uncancelled running chain leaves the queue after exactly as many looper passes as it has stages and refusals left, and then has its value |
| WhenFutures.WhenN.Poll | include/future/FuturesInternal.h:89-107 | A poll is done if and only if at least as many queries answer as results are missing; it asks from the back and stops at the answer that is enough, the asked ones are results or remain as queries in the order in which they were asked, the unasked are put aside; every result was seen with a value that satisfies the condition; while answers are missing, queries and results partition the inputs, nothing is left aside, and no remaining query answered |
| WhenFutures.WhenN.Finish | include/future/FuturesInternal.h:108-115 | Exactly n results, strictly increasing input indices, each seen with its value |
| WhenFutures.WhenAllPoll | include/future/FuturesInternal.h:54-73 | Passes if and only if all futures have a value at that moment, and then takes exactly these values |
| Coroutines.Environment.constructor | include/coroutine/Coroutine.h:135-140 | Main is alone on the call stack and owns the only context |
| Coroutines.Environment.Resume | include/coroutine/Coroutine.h:171-185 | Pushes the coroutine, with a pooled or new context at its first resume; never enters an exited one; every context keeps exactly one owner |
| Coroutines.Environment.Yield | include/coroutine/Coroutine.h:187-200 | Returns to the coroutine below; main stays at the bottom |
| Coroutines.Environment.Finish | include/coroutine/Coroutine.h:202-215 | Marks the exit, gives the context to the pool if and only if it has room, touches no other coroutine, and leaves the call stack; the pool stays filled exactly below its top |
| InetText.Split | include/utils/StringUtils.h:20-30 | Computes the pieces |
| InetText.PiecesAreMaximal | include/utils/StringUtils.h:20-30 | Pieces are increasing, free of the pivot, and end at a pivot or at the end |
| InetText.PiecesCover | include/utils/StringUtils.h:20-30 | Every character that is not the pivot lies in a piece |
| InetText.SplitUndoesJoin | include/utils/StringUtils.h:20-30 | Splitting undoes joining for all non-empty words without the pivot |
| InetText.ToDecReadsText | include/utils/StringUtils.h:37-45 | Reads the decimal text of every number that fits the type |
| InetText.IpToString | include/network/InetAddress.h:40-47 | Is the dotted-decimal text of the four octets |
| InetText.DottedIsFourBytes | include/network/InetAddress.h:40-47 | The text is four decimal words without leading zeros that denote the bytes from the highest to the lowest, with exactly three dots, one between each two |
| InetText.StringToIp | include/network/InetAddress.h:49-56 | Folds the pieces by shift and bitwise or |
| InetText.IpRoundTrip | include/network/InetAddress.h:40-56 | Parsing undoes printing for every 32-bit address |
| InetText.EndpointRoundTrip | include/network/InetAddress.h:17-38 | Address and port survive printing and parsing |

## Left out

- Real sockets, epoll, files and clocks: their results are parameters. File writes return between 1 and the
  remaining count, because `File::append` cannot see a negative result.
- The log after `kill()`: the writer leaves without a last flush, and a requesting producer would wait for
  ever. Runs end before the kill.
- Rolling of log files: `file` in the log protocol is the concatenation of all files in the order of writing.
- Buffers.Buffer.Append: requires unread plus appended size to be at most 2^30, the range in which
  `roundToPowerOfTwo` is right; the source has no guard.
- Buffers.Buffer.GcFor: has the same bound on unread plus hint.
- Buffers.Buffer.ReadFrom: has the same bound.
- `Buffer::clear`, `expand` and the typed overloads of `append`.
- Connections.Context.SendBytes: requires that the connection has left CONNECTING, because before
  `handleNewContext` a context has no multiplexer and no user has it; and the bound of Buffer.
- Connections.Context.HandleRead: requires unread input plus what arrives to be at most 2^30. What user code
  takes out of the input is `HasRead` of Buffer, which touches nothing else of a connection, so it is no call
  of a callback.
- User code that changes `events`, `output` or the event state directly, and epoll_ctl failures for reasons
  other than an illegal operation.
- Reactor.Server.Run: own-multiplexer mode only; with a shared multiplexer another thread may close a bundle
  between epoll_wait and the dispatch. Handlers may close, drain, send, shut down and change guards in any
  order, which is more than the code can do. `handleEvents` and `handleNewContext` catch `std::exception`
  only; when anything else leaves `run`, the events still filed or buffered come back if `run` is called
  again, after further accepts, and that second call is not modelled.
- Decimal.Parse: integers are unbounded; the least value of a type, whose negation overflows, has no defined
  text in the source.
- Calendar.CalDateFollowsCalendar: day counts are unbounded; the source needs `z + 719468` to fit its type.
- Clock.Formatter.Format: requires points from the epoch to the end of 2049, where the digit tables end.
- Futures: values are immutable, with one consumer for each future; exceptions in callbacks, `get()` and the
  timed `wait` stages are not modelled, and a polled functor is known by its answers.
- Coroutines.Environment.Resume: requires that the coroutine is not on the call stack; destruction of
  coroutines and the assembly of the context switch are not modelled.
- WhenFutures.WhenN.Finish: sorts by insertion; `std::sort` gives the same result because indices differ.
- The number printer for `double`, log levels and configuration, template metaprogramming, the HTTP example,
  the client's connector, and the bench programs: they would add easy members or restate library code.
