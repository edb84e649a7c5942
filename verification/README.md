# dc-bench, verified

A Dafny model of the stateful core of dc-bench, a latency benchmark over TCP and Homa, with proofs of what its protocols,
its accounting and its statistics promise. `dafny verify dfyconfig.toml` checks everything.

Each module follows one part of the program.

| module | models | main results |
|---|---|---|
| `Words` | 32- and 64-bit words with their wrap-around | |
| `Message` | the packed 22-byte header, frames and replies | codec inverse both ways; one byte changes in a reply |
| `ExactIo` | the blocking socket loops of both ends, imperatively, over a socket that chunks or fails as it likes | exactly the bytes, or a proper part at the first failed call; one frame per request |
| `Echo`, `EchoRuns` | client and handler over two bounded byte channels, one send, recv or loop test a step | echo correctness, framing if and only if no timeout inside a header, deadlock freedom, termination, exact completion |
| `Scheduler` | connection choice with its wrapping counter | separation of sizes; balance, in both policies with its exact condition |
| `OpenLoop` | dispatcher, queues, workers and the `running` flag | exactly once, complete and terminating drain, schedule-independent accounts |
| `ClosedLoop`, `Tally` | the dealt-out workers and the shared byte counter; what is counted and kept | exact shares and accounts under every interleaving |
| `ServerLifecycle` | `stop`, the accept thread and any number of handlers; two mutexes, two lists, descriptor reuse | complete shutdown, no wait cycle, no leak; when `stop` must return, exactly |
| `HomaMatcher` | sender and receiver around the table of pending RPCs | conservation, each sample its own RPC's, early responses |
| `Statistics`, `Percentiles` | the lazily sorted samples and three percentile rules | refinement of a multiset; nearest rank; agreement within one rank |
| `Csv` | the samples file, written and read | round trip |
| `Reals`, `Fairness` | Jain's index, coefficient of variation, min/max ratio | the inequalities and identities between the three |

Threads are state machines. An atomic access, a lock section or a system call is one step; `Enabled` says when a step is
possible and `Apply` what it does; a run is any sequence of enabled steps from the initial state, so a lemma about runs is
about every interleaving. Loops and classes that can be run by themselves are methods and classes as well, proved against
the functions the runs are described by. Sizes, round-trip times, clock readings and the kernel's choices are arbitrary
inputs or arbitrary steps.

Some properties one might expect of the code do not hold of it without a condition, and are proved with the exact one.

- *Framing.* A receive timeout that fires inside a header makes the handler start the header over and lose what it had
  (`src/tcp_server.cpp:140-143`). Whole frames are consumed at every loop top if and only if that never happens
  (`EchoRuns.FramedIffNoDiscard`). After it the request hangs if more bytes were lost than it has payload
  (`EchoRuns.DiscardHangs`); otherwise the handler takes later bytes of the same request for a header
  (`EchoRuns.DiscardShiftsHeader`).
- *The descriptor list.* `close(fd)` comes before the erase (`src/tcp_server.cpp:170-175`), so the kernel may hand the
  number out again in between and the erase then drops the new connection's entry. The list names every connection with a
  handler if and only if that never happens (`ServerLifecycle.ListedIffNoErasure`). If it never does, `stop` returns even
  with silent peers (`ServerLifecycle.StopReturns`). If it does, the shutdown can miss a connection. Connections have a
  receive timeout but no send timeout (`src/tcp_server.cpp:118-121`), and a handler that has a whole request in its
  socket's buffer goes on to answer it without testing `running_` again. So `stop` can wait in a join for as long as the
  peer neither reads nor resets (`ServerLifecycle.StopCanHang`). It is safe from that, whatever the buffers hold, if and
  only if no handler is in a transfer on a connection the shutdown missed (`ServerLifecycle.ReturnsIffAllReached`); for
  given buffers, `ServerLifecycle.ReturnsIffNobodyEndangered` says exactly when.
- *Echo.* A timeout inside a header can also make the client record a wrong response
  (`EchoRuns.WrongResponseCanHappen`); without one it never does (`EchoRuns.EchoCorrect`).
- *Balance within size classes.* Both classes share one counter. Runs of one class spread evenly
  (`Scheduler.SameClassBalance`); mixed sizes do if and only if the pool has at most two connections
  (`Scheduler.EvenInClassesIffTiny`).

Round robin is balanced for ever if and only if the pool size divides 2^32 (`Scheduler.BalancedIffDividesWord`), and the
reported percentile is the nearest-rank one if and only if 0 < p <= 100 (`Percentiles.PercentileIsNearestRank`).
`BoundedQueue` has no bound in the code, and none here.

## Model

| member | source | states |
|---|---|---|
| `Message.DecodeEncode` | include/dcbench/message.h:14-34 | Deserialising a serialised header gives the header back, for every header with any type byte |
| `Message.EncodeDecode` | include/dcbench/message.h:26-34 | Serialising a deserialised buffer gives the buffer back, for all 22-byte buffers |
| `Message.RetypeChangesOneByte` | src/tcp_server.cpp:145-161 | The server's decode, set type, encode changes the buffer at offset 13 and nowhere else |
| `Message.SerializeHeader` | include/dcbench/message.h:26-28 | Writes the 22 wire bytes to the front of the caller's buffer and leaves the rest of it alone |
| `Message.PayloadSizeDecoded` | include/dcbench/message.h:16-34 | Bytes 8 to 11, little-endian, are the payload_size field of the decoded header |
| `Message.ReplyKeepsAllButType` | src/tcp_server.cpp:145-167 | A reply parses as the request's header with type RESPONSE followed by the request's own payload |
| `Message.BuiltFrame` | src/tcp_client.cpp:167-182 | The header and zero payload do_request sends form a frame: a header followed by exactly what it announces |
| `Message.WantedOfPrefix` | src/tcp_server.cpp:178-187 | A reader holding a prefix of a frame never asks for bytes beyond it, and is complete exactly when it holds the frame |
| `ExactIo.RecvExact` | src/tcp_client.cpp:197-206 | For every chunking: fills the buffer with the next len bytes in order and succeeds, or stops at the first failed call having taken a proper part; other buffer bytes untouched |
| `ExactIo.SendExact` | src/tcp_client.cpp:208-217 | For every chunking: appends all the data to the stream, or a proper prefix of it up to the first failed call |
| `ExactIo.SendFrame` | src/tcp_server.cpp:160-167 | Header then payload go out as one frame, or a proper prefix of it at the first failed call |
| `ExactIo.RecvHeader` | src/tcp_server.cpp:139-145 | Succeeds exactly when 22 bytes were taken, and then holds their decoding; otherwise the bytes taken are gone |
| `ExactIo.RecvPayload` | src/tcp_client.cpp:189-192 | Takes exactly the announced number of bytes, none if it is zero |
| `ExactIo.DoRequest` | src/tcp_client.cpp:163-195 | Returns the 64-bit elapsed time if no socket call fails and 0 at the first that does; sends one frame, or a part; a completed call takes exactly one response frame off the stream, the only one that can start it, and a failed call less than a frame |
| `ExactIo.FrameUnique` | include/dcbench/message.h:14-24 | At most one frame starts a given byte stream |
| `ExactIo.Framed` | src/tcp_client.cpp:184-192 | A header and the payload it announces, taken off a stream, are its one leading frame |
| `ExactIo.ServeOne` | src/tcp_server.cpp:138-167 | One turn of the handler accounts for every byte it takes and sends and for a failed call; what it counts is a whole frame within the limit, and it gives up exactly on an announcement above it, reading no further, or a failed payload receive |
| `ExactIo.ConnectionHandler` | src/tcp_server.cpp:135-168 | For all chunkings and failures the turns of the loop account for every byte taken, every byte sent, every failed call and both counters; a failed header read or a whole reply is followed by another turn while the flag is set, anything else is the last |
| `ExactIo.RepliesInOrder` | src/tcp_server.cpp:138-168 | What a handler sends are the replies to the requests it counted, in order, only the last perhaps cut short |
| `ExactIo.TakenAreFrames` | src/tcp_server.cpp:138-168 | As long as failed header reads lose no bytes, what it took is the requests it counted, end to end, and at most the beginning of one it gave up on |
| `ExactIo.WithoutFailures` | src/tcp_server.cpp:138-168 | If no socket call fails, every turn answers one request in full, and only an announcement above the limit ends the loop early |
| `Echo.InitInv` | src/tcp_client.cpp:163-187 | A fresh connection satisfies the byte-conservation invariant |
| `Echo.TransfersAreSeparate` | src/tcp_client.cpp:176-192 | No send or receive crosses from a header into its payload, on either side |
| `Echo.ClientSendInv` | src/tcp_client.cpp:208-217 | A send of any size keeps it: what the handler holds plus what is in flight is what was sent |
| `Echo.ClientRecvInv` | src/tcp_client.cpp:184-206 | A recv of any size keeps it, and a completed response is the whole reply to the current request |
| `Echo.ServerRecvInv` | src/tcp_server.cpp:138-154 | A recv of any size keeps it, up to and including the size check and the start of the reply |
| `Echo.ServerSendInv` | src/tcp_server.cpp:160-198 | A send of any size keeps it, back to the loop top |
| `Echo.ClientFailsInv` | src/tcp_client.cpp:176-192 | A failed request on a connection closed or shut down keeps it, and the client goes on to its next request |
| `Echo.KeepsOpenInv` | src/tcp_server.cpp:138-143 | Loop tests, stop, shutdown, timeouts outside a header, resets and closes keep it |
| `Echo.LoopTopIsFramed` | src/tcp_server.cpp:138-139 | At the loop top the handler has taken whole frames off the connection |
| `Echo.StepInv` | src/tcp_server.cpp:135-198 | Every step of either side, except a timeout strictly inside a header, keeps the invariant |
| `EchoRuns.RunInv` | src/tcp_server.cpp:135-198 | The invariant holds after every run of any length and interleaving with no such timeout |
| `EchoRuns.WithinCapacity` | src/tcp_client.cpp:197-217 | In every run neither direction ever holds more than its capacity |
| `EchoRuns.OversizedEndsHandler` | src/tcp_server.cpp:145-147 | A header ends the handler at once, before any payload, exactly if it announces more than 4 MiB |
| `EchoRuns.EchoCorrect` | src/tcp_client.cpp:163-195 | In every such run the client's k-th result is its k-th request with only the type changed and the same payload, or a failure on a connection closed or shut down; an oversized request never gets a response |
| `EchoRuns.FramedIffNoDiscard` | src/tcp_server.cpp:118-143 | The bytes consumed at every handler loop top are whole request frames if and only if no receive timeout of the run fired strictly inside a header |
| `EchoRuns.DiscardLosesFraming` | src/tcp_server.cpp:140-143 | Such a timeout returns to the loop top with a byte count that is no concatenation of whole frames |
| `EchoRuns.DiscardHangs` | src/tcp_server.cpp:140-143 | After such a timeout that discards more bytes than the request has payload, the client waits in that request as long as the server runs, however the run goes on |
| `EchoRuns.DiscardShiftsHeader` | src/tcp_server.cpp:138-145 | Otherwise, after any number of such timeouts, the next header the handler decodes is the 22 bytes of the same request behind all the bytes discarded |
| `EchoRuns.MisalignedStep` | src/tcp_server.cpp:138-145 | No step but stop brings a misaligned reader back to a frame boundary before that header |
| `EchoRuns.StarvedStep` | src/tcp_server.cpp:138-143 | No step but stop gets a starved connection out of starvation |
| `EchoRuns.DiscardCanHappen` | src/tcp_server.cpp:118-143 | For every first request there is a four-step run that loses framing |
| `EchoRuns.WrongResponseCanHappen` | src/tcp_client.cpp:163-195 | For every request do_request builds with at least d zero payload bytes, 14 <= d <= 21, a run where one timeout after d header bytes makes the client record a response that is not its reply, server and connection still up |
| `EchoRuns.BenignStep` | src/tcp_client.cpp:197-217 | A failure-free step keeps the connection open and moves the account by exactly the bytes it moved |
| `EchoRuns.GoalIsFinish` | src/tcp_client.cpp:163-195 | The account never passes four times the request bytes, and reaches it exactly when the client is through |
| `EchoRuns.CompletionIsExact` | src/tcp_client.cpp:163-195 | A failure-free run moves at most four times the request bytes, and exactly that many if and only if every request got its reply |
| `EchoRuns.NeverStuck` | src/tcp_server.cpp:135-198 | Deadlock freedom for any channel capacities of at least one byte: an unfinished connection can move a byte, at most one loop test away |
| `EchoRuns.CanFinish` | src/tcp_server.cpp:135-198 | From every state of a failure-free run all requests can still complete, in a number of steps bounded by the bytes left |
| `EchoRuns.LoopTopAccount` | src/tcp_server.cpp:138-168 | The handler gets to its loop top by an answer or a timeout only, and leaves it by a test |
| `EchoRuns.RunsAreBounded` | src/tcp_server.cpp:135-198 | Termination: a failure-free run with t idle timeouts has at most (bytes to move) + (requests) + 1 + 2t steps |
| `EchoRuns.OnlyTimeoutsLeft` | src/tcp_server.cpp:135-198 | And once nothing but idle timeouts can follow, every request has its reply |
| `Scheduler.ChoiceSeparatesSizes` | src/priority_scheduler.cpp:32-40 | Every choice is in range; under size_aware the connections below the small pool get exactly the sizes up to 4096, which are exactly the priorities 5 and above |
| `Scheduler.LargeShare` | src/priority_scheduler.cpp:33-37 | Under size_aware a connection gets a large message at some counter value if and only if it is in the last quarter of the pool, rounded down, or is the last one |
| `Scheduler.SmallShare` | src/priority_scheduler.cpp:33-39 | And a small one if and only if it is none of those |
| `Scheduler.WholePool` | src/priority_scheduler.cpp:28-30 | Round robin reaches every connection of the pool and no other |
| `Scheduler.PriorityBands` | src/workload.cpp:55-64 | Priority p covers the sizes above 256 * 4^(6-p), unless p is 7, up to 256 * 4^(7-p), unless p is 0 |
| `Scheduler.PriorityScheduler.constructor` | src/priority_scheduler.cpp:16-17 | A fresh scheduler counts from zero |
| `Scheduler.PriorityScheduler.Select` | src/priority_scheduler.cpp:19-26 | The connection is the policy's choice at the old counter value, in range; the counter advances unless the policy is random |
| `Scheduler.PriorityScheduler.RoundRobinNext` | src/priority_scheduler.cpp:28-30 | The old counter modulo the pool; the counter wraps at 2^32 |
| `Scheduler.PriorityScheduler.SizeAwareNext` | src/priority_scheduler.cpp:32-40 | The old counter modulo the class's share of the pool, from that share's first connection |
| `Scheduler.CountIsHits` | src/priority_scheduler.cpp:28-40 | How often a connection is chosen is how many counter values leave its remainder |
| `Scheduler.HitsNoWrap` | src/priority_scheduler.cpp:28-30 | Closed form of those counts over any stretch without a wrap |
| `Scheduler.HitsWithWraps` | src/priority_scheduler.cpp:28-30 | Closed form of those counts over any number of turns of a wrapping counter |
| `Scheduler.TurnsBound` | src/priority_scheduler.cpp:28-30 | After q turns an earlier connection leads a later one by 0 to 1+q, and by at most 1 if the pool divides the turn |
| `Scheduler.RoundRobinBalance` | src/priority_scheduler.cpp:28-30 | From the initial state connection counts differ by at most one plus the number of wraps, earlier connections never behind |
| `Scheduler.BalancedIffDividesWord` | src/priority_scheduler.cpp:28-30 | Counts differ by at most one for ever if and only if the pool size divides 2^32; otherwise two turns make a gap of two |
| `Scheduler.SameClassBalance` | src/priority_scheduler.cpp:32-40 | A wrap-free run of messages of one class spreads within one over that class, from any counter value |
| `Scheduler.SmallMessagesBalance` | src/priority_scheduler.cpp:32-40 | So any wrap-free run of small messages spreads within one over the small connections and touches no other |
| `Scheduler.LargeMessagesBalance` | src/priority_scheduler.cpp:36-38 | And any wrap-free run of large messages over the large ones |
| `Scheduler.EvenInClassesIffTiny` | src/priority_scheduler.cpp:32-40 | With sizes mixed, every wrap-free run from a fresh counter stays within one inside both classes if and only if the pool has at most two connections |
| `Scheduler.Uneven` | src/priority_scheduler.cpp:32-40 | For every larger pool, a run that gives one small connection two messages and the next none |
| `Scheduler.SharedCounterStarves` | src/priority_scheduler.cpp:32-40 | And the gap is unbounded: with alternating sizes and an even number of large connections, the first large connection never gets a message |
| `Scheduler.StarvedRun` | src/priority_scheduler.cpp:32-40 | For every n there are n alternating messages over 8 connections of which the two large ones get 0 and n/2 |
| `OpenLoop.BoundedQueue.Push` | include/dcbench/tcp_client.h:28-32 | Appends, without any bound |
| `OpenLoop.BoundedQueue.Pop` | include/dcbench/tcp_client.h:34-43 | Takes the oldest item, or reports a timeout and changes nothing when there is none |
| `OpenLoop.BoundedQueue.Size` | include/dcbench/tcp_client.h:45-48 | The number of queued items |
| `OpenLoop.DispatchAll` | src/tcp_client.cpp:76-95 | The dispatcher, run alone, leaves in each queue exactly the requests routed to it in order, every route a choice of the scheduler |
| `OpenLoop.TotalIsWarmupAndRequests` | src/tcp_client.cpp:77 | The number of requests dispatched is warm-up plus requests, in 32 bits |
| `OpenLoop.OpenLoopWorker` | src/tcp_client.cpp:142-161 | A worker, run alone, empties its queue, each request processed once and in order; samples and bytes are those of the queue it found |
| `OpenLoop.StepInv` | src/tcp_client.cpp:80-161 | Every step of dispatcher or worker keeps: processed, in hand and queued are together, in order, what was routed to the connection |
| `OpenLoop.RoutesStep` | src/tcp_client.cpp:85-94 | Every step keeps the routes so far the scheduler's choices and the counter in step with them |
| `OpenLoop.RunInv` | src/tcp_client.cpp:56-116 | Both hold in every state of every run |
| `OpenLoop.ExactlyOnce` | src/tcp_client.cpp:80-161 | At every moment of every run a dispatched request is in exactly one place: processed by, in the hand of, or queued for the worker of its connection |
| `OpenLoop.NoMixing` | src/tcp_client.cpp:85-94 | Under size_aware, in every reachable state connections below the small pool carry only sizes up to 4096 with priority 5 and above, the others only larger ones with priority 4 and below |
| `OpenLoop.RoutesAreChoices` | src/tcp_client.cpp:87-94 | The connections chosen in any run are scheduler choices from a fresh counter |
| `OpenLoop.LoadsStayLevel` | src/tcp_client.cpp:77-94 | Under round robin, at every moment of every run, connection loads differ by at most one |
| `OpenLoop.RouteOneMore` | src/tcp_client.cpp:94-108 | One more routed request adds its bytes and its sample to its connection's share and to no other |
| `OpenLoop.RoutingConservesBytes` | src/tcp_client.cpp:94-108 | However requests are routed, the bytes of the connections add up to 22+size over all requests |
| `OpenLoop.RoutingConservesSamples` | src/tcp_client.cpp:94-108 | However requests are routed, the merged samples are the positive round-trip times past the warm-up |
| `OpenLoop.DrainIsComplete` | src/tcp_client.cpp:97-108 | Once all workers have exited, every request was dispatched, all queues are empty, each worker processed its routed requests in order, and bytes and samples are schedule-independent |
| `OpenLoop.DrainStepDecreases` | src/tcp_client.cpp:97-161 | After the flag is cleared every step of any thread lowers the work left |
| `OpenLoop.DrainTerminates` | src/tcp_client.cpp:97-161 | So the steps left are bounded, and until all workers have exited there is a next one |
| `OpenLoop.SomeStep` | src/tcp_client.cpp:80-161 | No reachable unfinished state is stuck |
| `ClosedLoop.SharesExact` | src/tcp_client.cpp:18-34 | Per-worker counts sum exactly to num_requests and differ by at most one |
| `ClosedLoop.WarmupFloor` | src/tcp_client.cpp:118-124 | The warm-ups the workers use total at most warmup_requests and fall short by less than the pool size |
| `ClosedLoop.Iterations` | src/tcp_client.cpp:118-126 | All iterations together are num_requests and the warm-up, short of it by less than the pool size |
| `ClosedLoop.ClosedLoopWorker` | src/tcp_client.cpp:118-140 | One worker's loop keeps exactly the positive round-trip times past the warm-up and counts the bytes of every iteration |
| `ClosedLoop.LimitExact` | src/tcp_client.cpp:124-126 | The 32-bit loop bound is exact, but for a single worker asked for 2^32 iterations or more |
| `ClosedLoop.StepInv` | src/tcp_client.cpp:126-139 | Every iteration, of any worker, keeps samples and shared byte counter those of the iterations done |
| `ClosedLoop.RunInv` | src/tcp_client.cpp:15-46 | That holds in every state of every interleaving |
| `ClosedLoop.StepsAreIterations` | src/tcp_client.cpp:126 | The iterations done are as many as the steps taken |
| `ClosedLoop.WorkerCanGoOn` | src/tcp_client.cpp:126 | A worker can take another exactly as long as it is short of its loop bound |
| `ClosedLoop.Accounts` | src/tcp_client.cpp:36-46 | After the join: total_bytes is that of all iterations, the iterations are num_requests and the warm-up but for less than the pool size, total_requests is at most num_requests, and equal if and only if every iteration past the warm-up had a positive time (and the loop bounds fit) |
| `Tally.BytesAreSum` | src/tcp_client.cpp:137-139 | The bytes counted for n requests are 22 n and the sum of their payloads |
| `Tally.KeptAtPlaces` | src/tcp_client.cpp:131-135 | The times kept are those at certain places, all past the warm-up and positive |
| `Tally.PlacesAscend` | src/tcp_client.cpp:131-135 | Those places ascend, so the times are in order and none is kept twice |
| `Tally.NoneLeftOut` | src/tcp_client.cpp:131-135 | And every positive time past the warm-up is at one of them |
| `Tally.KeptBound` | src/tcp_client.cpp:126-135 | There are at most n - warmup of them, and that many exactly if none of those times is zero |
| `ServerLifecycle.LocksStep` | src/tcp_server.cpp:39-55 | Each mutex is held by the one thread whose position says so |
| `ServerLifecycle.StopStep` | src/tcp_server.cpp:29-57 | The thread list names every handler ever spawned until stop has joined it |
| `ServerLifecycle.ListStep` | src/tcp_server.cpp:123-176 | Every descriptor on the list has somebody who will still take it off |
| `ServerLifecycle.StepInv` | src/tcp_server.cpp:29-176 | Every step of stop, accept thread and handlers keeps all three |
| `ServerLifecycle.RunInv` | src/tcp_server.cpp:29-176 | They hold in every reachable state, with descriptor numbers reused |
| `ServerLifecycle.StopIsComplete` | src/tcp_server.cpp:29-57 | When stop returns, every spawned handler has run to its end and been joined, the accept thread is gone, client_fds_ and conn_threads_ are empty, both mutexes free |
| `ServerLifecycle.NothingAfterStop` | src/tcp_server.cpp:29-57 | No thread has a step left after stop has returned |
| `ServerLifecycle.OpenStep` | src/tcp_server.cpp:98-176 | Every open descriptor number is that of a connection whose handler, or the accept thread, has yet to close it |
| `ServerLifecycle.NoneLeaks` | src/tcp_server.cpp:29-176 | So no connection descriptor is open when stop has returned |
| `ServerLifecycle.ClosedRun` | src/tcp_server.cpp:39-46 | In every reachable state of the pass over the list, no number already passed is open |
| `ServerLifecycle.KeepsServing` | src/tcp_server.cpp:138-168 | While the server runs, a handler leaves its loop exactly when it gives up on a request or a send fails |
| `ServerLifecycle.WaitsGoDown` | src/tcp_server.cpp:39-55 | Whoever holds what a thread waits for stands lower in a fixed order |
| `ServerLifecycle.NoWaitCycle` | src/tcp_server.cpp:39-55 | In no reachable state do the waits on fds_mu_, threads_mu_ and joins form a cycle; no chain has more than four threads |
| `ServerLifecycle.SomeoneCanStep` | src/tcp_server.cpp:29-176 | The waits below any thread, once the listener is down, end at one that can step by itself, or at the join of a handler in a send that does not fit, on a connection nobody shut down |
| `ServerLifecycle.CostDecreases` | src/tcp_server.cpp:29-57 | After the flag is cleared every step of any thread or peer lowers the cost left: no handler starts another request |
| `ServerLifecycle.FewStepsLeft` | src/tcp_server.cpp:29-57 | So after the flag is cleared a run has a bounded number of steps left, whoever takes them |
| `ServerLifecycle.AtTheEnd` | src/tcp_server.cpp:29-57 | When the server can take no further step by itself, stop has returned or is in the join of a handler stuck in a send that does not fit |
| `ServerLifecycle.NumbersStep` | src/tcp_server.cpp:39-46 | Until stop closes a number on its list, it stands for the connection of the handler that holds it, reused or not |
| `ServerLifecycle.ClosedAreShutStep` | src/tcp_server.cpp:39-46 | A held connection whose number stop has closed has been shut down |
| `ServerLifecycle.AllReachedStep` | src/tcp_server.cpp:39-46 | If the list was complete, nobody is in a transfer on a connection the shutdown missed once stop has been through it |
| `ServerLifecycle.ReachRun` | src/tcp_server.cpp:39-46 | So in every run without an erase of a reused number nobody is |
| `ServerLifecycle.StopReturns` | src/tcp_server.cpp:29-57 | If no erase hit a reused number, stop returns with nothing coming from outside, whatever the socket buffers hold: when the server can take no further step by itself, stop has returned |
| `ServerLifecycle.DangerStays` | src/tcp_server.cpp:138-168 | After the list, only something from outside frees a stuck handler, or puts one in a transfer in danger |
| `ServerLifecycle.RunsOut` | src/tcp_server.cpp:29-176 | Every state after the flag is cleared has a continuation with nothing from outside that ends with the server at rest |
| `ServerLifecycle.ReturnsIffNobodyEndangered` | src/tcp_server.cpp:29-57 | In every run, once stop has been through the list: it returns in every continuation with nothing from outside if and only if no handler is then, on a connection the shutdown missed, in a send that does not fit or before a request already buffered |
| `ServerLifecycle.ReturnsIffAllReached` | src/tcp_server.cpp:29-57 | And it does so whatever the socket buffers hold if and only if no handler is then in a transfer on a connection the shutdown missed |
| `ServerLifecycle.ListedStep` | src/tcp_server.cpp:170-175 | A handler's erase takes another live connection off the list exactly when they share a descriptor number |
| `ServerLifecycle.ListedIffNoErasure` | src/tcp_server.cpp:123-175 | In every run the list names every connection that still has a handler, until stop clears it, if and only if no erase hits a reused number |
| `ServerLifecycle.ErasureCanHappen` | src/tcp_server.cpp:170-175 | A concrete run where it does: a connection is being served and is not on the list |
| `ServerLifecycle.StopCanHang` | src/tcp_server.cpp:29-57 | Continued, that run leaves stop in a join until a peer reads or resets, no other step being possible |
| `HomaMatcher.Matcher.Insert` | src/homa_client.cpp:105-108 | Records the send time under the id |
| `HomaMatcher.Matcher.OnResponse` | src/homa_client.cpp:208-223 | Removes the entry if there is one, counts the response, and keeps a sample only for a found entry past the warm-up count |
| `HomaMatcher.TableStep` | src/homa_client.cpp:103-218 | The table always holds exactly the inserts not matched yet; an issued id is inserted or in the hand of the sender |
| `HomaMatcher.ClockStep` | src/homa_client.cpp:97-222 | Send times lie at or before the receive times of their responses |
| `HomaMatcher.SampleStep` | src/homa_client.cpp:208-223 | Samples stay distinct by id, each its own receive time minus send time, and within the count |
| `HomaMatcher.MatchSamples` | src/homa_client.cpp:208-223 | In particular when a response is matched |
| `HomaMatcher.StepInv` | src/homa_client.cpp:84-225 | Every step of sender, receiver or kernel keeps all of it and the byte count |
| `HomaMatcher.RunInv` | src/homa_client.cpp:84-225 | It holds in every state of every run |
| `HomaMatcher.MatchingConserves` | src/homa_client.cpp:84-225 | Completed inserts equal matched responses plus the table; samples never exceed matched responses nor max(0, responses - warmup); the byte count is that of every attempted send |
| `HomaMatcher.AllSentAtTheEnd` | src/homa_client.cpp:84-115 | When the receiver has exited every send was made and counted, each successful one being in the table or matched |
| `HomaMatcher.SenderCanGoOn` | src/homa_client.cpp:84-114 | Until then the sender can always go on, whatever the receiver does |
| `HomaMatcher.MatchedAreSampled` | src/homa_client.cpp:208-223 | With positive send times and fewer than 2^32 responses, all matched responses but at most warmup are samples |
| `HomaMatcher.SamplesAreExact` | src/homa_client.cpp:208-223 | With one delivery per id, and none before its insert, samples are exactly max(0, responses - warmup) |
| `HomaMatcher.SamplesAreTheirOwn` | src/homa_client.cpp:208-223 | Every sample is its own RPC's receive time minus send time, never negative, and no RPC has two |
| `HomaMatcher.EarlyResponsesStay` | src/homa_client.cpp:105-218 | If the kernel delivers one response per id: a response that beats its insert is never sampled, its entry stays for good, and once all responses are in the table holds exactly those |
| `HomaMatcher.ResponseCanBeatInsert` | src/homa_client.cpp:103-218 | A run where that happens, for every id and every pair of clock readings |
| `Statistics.SortedIsSorted` | src/statistics.cpp:27-32 | Sorting yields a sorted permutation |
| `Statistics.SortedUnique` | src/statistics.cpp:27-32 | Two sorted lists of the same samples are equal |
| `Statistics.SortForgetsOrder` | src/tcp_client.cpp:40-43 | The order in which thread samples are merged does not matter after sorting |
| `Statistics.LatencyHistogram.constructor` | include/dcbench/statistics.h:30-31 | A fresh histogram is empty, its flag down |
| `Statistics.LatencyHistogram.RecordLatency` | src/statistics.cpp:12-15 | Appends one sample and forgets sortedness |
| `Statistics.LatencyHistogram.AddSamples` | src/statistics.cpp:17-20 | Appends all samples and forgets sortedness |
| `Statistics.LatencyHistogram.ResetAll` | src/statistics.cpp:22-25 | Empties the list |
| `Statistics.LatencyHistogram.EnsureSorted` | src/statistics.cpp:27-32 | Whatever the flag says, the list becomes the one sorted arrangement of its samples |
| `Statistics.LatencyHistogram.PercentileQuery` | src/statistics.cpp:34-40 | Answers the percentile of the samples as they were before the call; 0 when empty |
| `Statistics.LatencyHistogram.MinQuery` | src/statistics.cpp:47-51 | Answers a sample that no sample is below; 0 when empty |
| `Statistics.LatencyHistogram.MaxQuery` | src/statistics.cpp:53-57 | Answers a sample that no sample is above; 0 when empty |
| `Statistics.ExtremesOf` | src/statistics.cpp:47-57 | Minimum and maximum are the least and the greatest sample |
| `Statistics.Sort` | src/statistics.cpp:27-32 | Leaves the sorted arrangement |
| `Statistics.HistoryRefinesMultiset` | src/statistics.cpp:12-82 | After every history of calls the samples are a permutation of what was added since the last reset, and the flag implies sorted |
| `Statistics.QueryDependsOnMultisetOnly` | src/statistics.cpp:34-40 | A query after any history is a function of the recorded multiset alone |
| `Percentiles.RankRange` | src/statistics.cpp:37-38 | ceil(pn/100) is a rank in 1..n if and only if 0 < p <= 100, and there the index is the rank less one |
| `Percentiles.PercentileIsNearestRank` | src/statistics.cpp:34-40 | The result is a sample with at least ceil(pn/100) samples at most it and fewer below it, if and only if 0 < p <= 100 |
| `Percentiles.PercentileMonotone` | src/statistics.cpp:34-57 | Percentiles are monotone in p and lie between minimum and maximum |
| `Percentiles.PrintedSummaryIsOrdered` | src/statistics.cpp:84-96 | min <= p50 <= p95 <= p99 <= p99.9 <= max, for every list of samples |
| `Percentiles.PercentileZeroIsMaximum` | src/statistics.cpp:37-39 | At p = 0 the index wraps and the maximum is returned |
| `Percentiles.RanksAgree` | src/statistics.cpp:37-38 | For every n and fraction p the C++ index lies between floor and ceiling of numpy's position, and pct's index exceeds it by one exactly when np is whole |
| `Percentiles.NumpyBetween` | scripts/analyze.py:31-34 | numpy's linear percentile lies between the two samples around its position |
| `Percentiles.NumpyIsLinear` | scripts/analyze.py:31-34 | And on evenly spaced samples it is exactly the value of the line through them |
| `Percentiles.RulesAgreeWithinOneRank` | scripts/plot_stress.py:41-42 | On all sorted samples the C++ value and numpy's lie between the same two neighbouring samples, and pct's is the C++ value or the sample after it |
| `Csv.ParsePrint` | src/statistics.cpp:78 | Parsing a printed number gives it back |
| `Csv.PrintIsDecimal` | src/statistics.cpp:78 | A number is printed as its digits 0 to 9, in base ten |
| `Csv.NoLeadingZero` | src/statistics.cpp:78 | Without leading zeros |
| `Csv.PrintParse` | scripts/analyze.py:17 | A parsed numeral without leading zeros prints as it was |
| `Csv.LeadingZero` | scripts/analyze.py:17 | And a leading zero does not change what is parsed |
| `Csv.SplitFirst` | scripts/analyze.py:15 | Splitting finds the first separator of a text whose first piece has none |
| `Csv.WriteRows` | src/statistics.cpp:76-81 | The writing loop produces the header line and one row a sample |
| `Csv.DumpCsv` | src/statistics.cpp:73-82 | Sorts the histogram, an empty one too, and writes the sorted samples |
| `Csv.LoadLatencyCsv` | scripts/analyze.py:12-18 | The reading loop yields the named column, the last of that name; it fails at the first row that has no number there, and yields nothing for a file without rows, columns or not |
| `Csv.ColumnIsRead` | scripts/analyze.py:15-17 | The rows are read exactly if every non-blank one has a number in the column |
| `Csv.ColumnValues` | scripts/analyze.py:15-18 | The result is then those numbers, row by row |
| `Csv.LoadMeaning` | scripts/analyze.py:12-18 | Without a latency_ns column a file gives nothing if it has no row and fails otherwise; with one, it gives that column, the last of that name |
| `Csv.RowsAreNumbered` | src/statistics.cpp:76-81 | A written file splits into its three column names, and rows of running number, latency and rendered time |
| `Csv.LoadOfFile` | scripts/analyze.py:12-18 | Reading a written file gives back the written samples, for every list |
| `Csv.RoundTrip` | src/statistics.cpp:73-82 | After any history of calls the scripts read back the sorted permutation of what was recorded |
| `Fairness.CauchySchwarz` | scripts/fairness.py:49-55 | n times the sum of squares exceeds the squared sum by n times the squared deviations from the mean |
| `Fairness.JainRange` | scripts/fairness.py:49-55 | Jain's index of non-negative values exists unless all are zero, lies in [1/n, 1], and is 1 exactly when all are equal |
| `Fairness.JainFromCv` | scripts/fairness.py:80-87 | For positive mean the two metrics reported side by side satisfy jain = 1/(1+cv^2) |
| `Fairness.JainAtLeastFromRatio` | scripts/fairness.py:86-88 | For positive throughputs with min/max ratio r, Jain's index is at least 4r/(1+r)^2, for every number of senders |
| `Fairness.RatioBoundAttained` | scripts/fairness.py:86-88 | For every rational ratio there are senders that attain the bound |
| `Fairness.JainScaleInvariant` | scripts/fairness.py:39-55 | A positive common factor leaves the index unchanged |
| `Fairness.FairnessStats` | scripts/fanin_report.py:75-94 | The one-pass loop computes the three metrics of the throughputs of senders with positive mean latency; none of them if there is no such sender |
| `Fairness.EverySenderCounts` | scripts/fanin_report.py:80-84 | Every sender with a positive sample is in the list the metrics are computed on |
| `Fairness.ThroughputsOfSamples` | scripts/fairness.py:45-46 | Sender by sender, throughput times total latency is pool_size * 10^9 times the number of samples |
| `Fairness.ThroughputsAppend` | scripts/fanin_report.py:80-84 | Senders are taken one after the other |
| `Fairness.ZeroSenderIsSkipped` | scripts/fanin_report.py:81-83 | A sender whose samples are all zero is passed over |
| `Fairness.ReportIsConsistent` | scripts/fanin_report.py:75-94 | From raw samples: with any sender of positive mean all three metrics exist, and the identity and the bound above hold between them |
| `Fairness.PoolSizeInvariant` | scripts/fairness.py:39-46 | The reported index does not depend on the pool size given to the script |

## Left out

- Sockets, `ioctl`, address lookup, socket options, DCTCP and the Homa kernel module: their calls are arbitrary steps.
- Wall-clock time, sleeping, throughput and goodput figures, and IEEE rounding: `p / 100 * n` and the fairness metrics are exact over the reals.
- Random generation in the workload and in `random_select`: sizes are arbitrary, and a random choice is any index in range.
- Relaxed memory: atomic accesses and lock sections are sequentially consistent steps. The unguarded `listen_fd_` is not modelled.
- `mean_val`, `print_summary` formatting, argument parsing, CPU monitoring, connection set-up, orchestration, plotting, report generation.
- The Homa closed loop beyond its division of requests, and the Homa server.
- What a handler's close does to the transfers of another connection whose number it hits: `stop` and the handler may both close a number, which is modelled for the table of open descriptors only.
- That the Homa warm-up excludes particular requests: it counts responses, and nothing more is claimed.
- The byte order of a big-endian host: the header is the host's memory image, taken as little-endian.
- ExactIo.ConnectionHandler: the two counters are unbounded here and 64-bit in the code; `running_` is given as the number of loop tests that find it set; the thread-local payload buffers, reused between requests in the code, are fresh ones here.
- ExactIo.DoRequest: the two clock readings are parameters; the payload is zeros, as in the code, in a fresh buffer.
- EchoRuns.EchoCorrect: assumes no timeout inside a header before the state it speaks about; a failing receive may otherwise come at any time, which covers the handler's spinning on a client that has gone until `stop`, and is not shown to end.
- EchoRuns.DiscardShiftsHeader: says what the next header is, and not what the handler then makes of it, which depends on the client's bytes.
- OpenLoop.RunInv: round-trip times are given in advance as an arbitrary sequence; keeping a sample and adding to the byte counter are one step; the scheduler is fresh; size_aware with one connection and a small message, where the code takes a remainder by zero, is excluded.
- ClosedLoop.RunInv: one iteration of a worker is one step, the shared counter being the only shared state.
- ServerLifecycle.RunInv: `stop` is called once, after `start`; the transfers of one request, or of one reply, are one position of the handler, whose buffer either holds all of it or not, so the socket calls within them are not counted; a handler never acts on a number that was closed under it and handed out again, except to close it.
- HomaMatcher.RunInv: the number of sends is given; RPC ids are fresh when issued; reading the clock and sending are one step; the two-second wait is no time at all or any time.
- Percentiles.PercentileIsNearestRank: negative p is excluded, the conversion of a negative number being undefined in C++.
- Statistics.Sort: `std::sort` is represented by insertion, its result being the same.
- Csv.LoadLatencyCsv: quoting, carriage returns, and the signs, spaces and underscores `int()` accepts are not modelled, since the writer produces none; the microseconds column is any text without separators.
- Fairness.FairnessStats: the coefficient of variation appears squared, so that no square root is needed; senders have samples, as the caller ensures; the infinite throughput of a zero mean in `scripts/fairness.py` is not modelled.
