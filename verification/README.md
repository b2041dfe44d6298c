# leaf.v1: a verified model

This project models the parts of the leaf game-server framework whose correctness is hard to see,
and proves properties of them with Dafny 4.11. Run `dafny verify dfyconfig.toml` to verify all of it.

| file | models |
|---|---|
| `Calendar.dfy` | the Gregorian calendar in UTC, as the cron search uses Go's `time` package |
| `Word64.dfy` | `uint64` bit masks with Go's shift semantics |
| `CronField.dfy` | one field of a cron expression: its grammar, parsing and compilation to a mask |
| `CronWords.dfy` | the words of an expression (`strings.Fields`) |
| `CronExpr.dfy` | whole expressions, the day rule and the search for the next instant |
| `CronDays.dfy` | the two masks that the day rule tests for, and the days that fields denote |
| `CronMeaning.dfy` | what the search finds, in terms of dates, times of day and what the texts denote |
| `CronCoverage.dfy` | which expressions the two-year search can always serve |
| `CronChain.dfy`, `CronChainEnds.dfy` | timers, the dispatcher and the self-rescheduling cron chain; that timers which are due are served |
| `Rand.dfy` | sampling without replacement and weighted selection |
| `SessionHeap.dfy` | the indexed heap that balances database sessions |
| `PkgParser.dfy` | the length-prefixed packet codec |
| `TcpConn.dfy` | the write queue of a TCP connection and its ways of closing |
| `ChanRpc.dfy`, `ChanRpcRuns.dfy` | channel RPC: the machine and its invariant; what every run satisfies |
| `ChanRpcOutcomes.dfy` | channel RPC: where each result comes from, and which requests servers execute |
| `ChanRpcEnds.dfy` | channel RPC: how long calls take, and that none is forgotten |
| `ChanRpcClients.dfy` | channel RPC with any number of clients, each of which sees the machine above |
| `SyncSharing.dfy` | synchronous calls of several goroutines on one client |
| `GoPool.dfy`, `GoPoolJobs.dfy` | the goroutine pool and linear contexts; that each job's own callback runs exactly once |
| `Skeleton.dfy`, `SkeletonEnds.dfy` | a module's event loop and shutdown, over the RPC machine and the pool; that a closing module stops |
| `Ints.dfy`, `Wrappers.dfy` | Go's sized integers; Option and Result |

Sequential code that works step by step is modelled by methods with loops and, where it updates
objects, by classes. Code whose point is the interleaving of goroutines is modelled as a machine: a
state, labelled steps that are the channel operations and lock regions of the source, an invariant
that every step keeps, and theorems over all runs.

## What the proofs found

- **A wrapping step** (`timer/cronexpr.go:165-167`). With an increment close to the largest `int`,
  `i += incr` wraps and the loop goes on below the start of the range. The mask of an item is what
  the item denotes if and only if `start + 2*incr < 2^64` (`ItemMaskExactIff`); that of a field, if and only if some
  item denotes each value strayed onto (`FieldMask`). The text "5/9223372036854775807", which the parser accepts, also
  sets the bits of 3 and 1 (`WrappingStepStrays`). `OrSteps` states the exact mask in all cases.
- **Fields for every day** (`timer/cronexpr.go:174-187`). `matchDay` recognises a field for every day by its mask.
  Without wrapping steps it recognises exactly the fields that denote every day, and the crontab rule holds of the
  texts (`EveryDayIff`, `CrontabRuleOfTexts`). With them it errs in both directions: "*,2/9223372036854775807" as day of
  month denotes every day and is not recognised (`EveryDayNotRecognised`); "2-31/2,31/9223372036854775807" as day of
  month and "1,3,5,6/9223372036854775807" as day of week are recognised and do not denote every day
  (`SomeDaysTakenForEvery`, `SomeWeekdaysTakenForEvery`). A field is recognised if and only if its items visit every day
  and stray onto none below the first. Recognition and denotation agree if and only if a field that denotes every day
  has no stray below the first day, and any other has one or leaves some day unvisited (`EveryDayIff`); for the day of
  week there is nothing below the first.
- **The two-year window** (`timer/cronexpr.go:194-201`). `Next` finds an instant from every start if and
  only if the day of week is restricted or some admitted month and day occur in common years
  (`NextAlwaysFindsIff`). From the start of year 1, "0 0 0 29 2 *" gives the zero time although it matches in year 4
  (`LeapDayMissed`).
- **uint32 weights** (`util/rand.go:17-31`). Each index is selected by as many draws as its weight if and
  only if the weights sum to less than 2^32 (`WeightsHonouredIff`). Weights that sum to a multiple of 2^32 give
  index 0 whatever its weight: for 0, 2^31, 2^31 the result is the index of weight 0 (`ZeroWeightReturned`). Every index
  that can be returned has a positive weight if and only if the wrapped total is not 0 or the first weight is positive
  (`PositiveWeightIff`). The panic at the end is never reached.
- **Equal bounds** (`util/rand.go:54-56`). `RandIntervalN` with equal bounds returns one value even for n = 0. It returns as
  many values as asked for, or as the interval has, if and only if the bounds differ or n > 0 (`RandIntervalN`).
- **uint32 lengths** (`network/tcp_pkg.go:100-110`). What `Write` produces reads back as the message if and only
  if the limits accept it and its length plus the prefix stays below 2^32 (`WriteThenRead`).
- **A stream that ends after a prefix** (`network/tcp_pkg.go:93-95`) reads as a clean end of file, with a buffer of
  zeros beside the error. `Read` reports a clean end if and only if the stream is empty or ends right after an
  acceptable prefix of a message that is not empty (`CleanEndIff`).
- **Shared clients** (`chanrpc/chanrpc.go:241-300`). The comment on the synchronous calls says they are thread
  safe. Goroutines that call on one client share its ChanSyncRet. In every run whose calls do not overlap each gets its
  own replies (`AloneIsSafe`); wherever two calls overlap, a reply can go astray from there on whatever the callers
  do, and only there (`SafeIffAlone`, `RepliesCanCross`). `Server.Call0` and its kin open a client for each call and
  are not affected.
- **Shutdown** (`module/skeleton.go:55-58`). `Run` can return with a job pending in the goroutine pool:
  `client.Close` runs after `g.Close`, and a callback it dispatches may submit one (`LateJobOutlivesRun`). What is
  pending when `Run` returns is exactly the jobs submitted after `g.Close`, so that the pool is idle if and only if
  there were none (`AfterRun`).

## Model

| member | source | states |
|---|---|---|
| Calendar.CivilDateOfDayNumber | timer/cronexpr.go:194-226 | counting the days of years and months and stepping dates one day at a time are inverse on every date |
| Calendar.DayNumberOfCivilDate | timer/cronexpr.go:194-226 | the date n days after 1 January of year 1 has day number n |
| Calendar.LeapYearFormula | timer/cronexpr.go:194-199 | the days before a year follow the closed leap-year formula |
| Calendar.MonthOffsets | timer/cronexpr.go:204-226 | on which day of the year each of the twelve months begins |
| Calendar.KnownWeekday | timer/cronexpr.go:177 | the weekday is anchored: 1 January 2000 is a Saturday |
| Calendar.InstantFields | timer/cronexpr.go:207-220 | time.Date gives the one instant with the given date and time of day |
| Calendar.InstantOfFields | timer/cronexpr.go:207-220 | and the fields of an instant give it back |
| Calendar.AddMonthAtStart | timer/cronexpr.go:210 | from the first second of a month AddDate(0,1,0) reaches the first second of the next, across December too |
| Calendar.NextDay | timer/cronexpr.go:223 | AddDate(0,0,1) from midnight reaches the next midnight, and every second between has the same date |
| Calendar.BeforeYear | timer/cronexpr.go:199 | the test on the year is a test on the position of the instant |
| Word64.MaskedTestReadsBit | timer/cronexpr.go:177-186 | 1<<i & mask != 0 holds exactly when bit i is set |
| CronField.SplitIff | timer/cronexpr.go:86-95 | strings.Split gives the parts whose join is the text and which avoid the separator, and nothing else |
| CronField.ParseItemIff | timer/cronexpr.go:79-159 | an item is accepted if and only if it has one of the six documented forms with ends in bounds and a positive step, and is read as what it denotes |
| CronField.SeparatorErrors | timer/cronexpr.go:88-99 | too many slashes are reported exactly for texts with two or more, too many hyphens exactly for other texts with two or more before the slash |
| CronField.ItemErrors | timer/cronexpr.go:101-159 | the other errors of an item: no range or out of order, out of bounds, no positive step, in that order |
| CronField.ParseItemsErrIff | timer/cronexpr.go:85-159 | a field fails with the error of its first bad item |
| CronField.AtoiOfDecimal | timer/cronexpr.go:106-153 | decimal numerals are read as their value, with sign and zeros in front, up to the ends of the 64-bit range |
| CronField.RangeMask | timer/cronexpr.go:162-163 | at step 1 the shift-and-complement form sets exactly the bits that the loop form would |
| CronField.OrSteps | timer/cronexpr.go:165-167 | the loop, with int64 wrap-around, ends and adds exactly the denoted bits and those it strays onto |
| CronField.OrItem | timer/cronexpr.go:161-168 | either form adds exactly the bits that the item visits, and keeps the others |
| CronField.StraysIff | timer/cronexpr.go:165-167 | some stray bit exists if and only if start + 2*incr reaches 2^64 |
| CronField.ItemMaskExactIff | timer/cronexpr.go:165-167 | the mask of an item is its denotation if and only if its step does not wrap |
| CronField.WrappingStepStrays | timer/cronexpr.go:85-167 | a text the parser accepts whose mask has two bits that it does not denote |
| CronField.ParseCronField | timer/cronexpr.go:85-172 | the result is the error of the first bad item, or the union of what all items visit |
| CronField.FieldMask | timer/cronexpr.go:85-172 | for every accepted field a mask bit is set iff some item denotes its value or strays onto it; denoted values lie inside the bounds and there is one; strays are below the end, and absent iff no step wraps; the mask is exact iff every stray is denoted |
| CronWords.FieldsIff | timer/cronexpr.go:31 | strings.Fields gives the words of a text with white space between and around, and nothing else |
| CronWords.JoinedIsListed | timer/cronexpr.go:31 | words joined by single spaces are the words of the text |
| CronExpr.NewCronExpr | timer/cronexpr.go:30-77 | six words are parsed in the bounds of their fields; five are the last five and the seconds are 0 only; any other number is an error; the error is that of the first bad word |
| CronExpr.NewCronExprIsCompiled | timer/cronexpr.go:41-72 | every compiled expression admits some value within the bounds of each field and none above them |
| CronExpr.DefaultSecondsField | timer/cronexpr.go:37-39 | the text "0" of a seconds field admits second 0 only; NewCronExpr says so of five words |
| CronDays.EveryDayIff | timer/cronexpr.go:174-182 | for every compiled expression each day field is recognised iff its items visit every day and none below the first; without wrapping steps iff it denotes every day; and the exact condition for recognition and denotation to agree |
| CronDays.EveryDayNotRecognised | timer/cronexpr.go:174-182 | a day of month that denotes every day and is not recognised |
| CronDays.SomeDaysTakenForEvery | timer/cronexpr.go:174-182 | a day of month that is recognised and does not denote the 1st and the 3rd |
| CronDays.SomeWeekdaysTakenForEvery | timer/cronexpr.go:174-182 | a day of week that is recognised and does not denote Sunday |
| CronDays.CrontabRuleOfTexts | timer/cronexpr.go:174-187 | where no step wraps, the crontab rule in terms of the days that the two texts denote |
| CronExpr.EveryDayOfMonthBits | timer/cronexpr.go:176 | 0xfffffffe has exactly bits 1 to 31 |
| CronExpr.EveryDayOfWeekBits | timer/cronexpr.go:181 | 0x7f has exactly bits 0 to 6 |
| CronExpr.CrontabDayRule | timer/cronexpr.go:174-187 | the crontab rule: either day field when both are restricted, otherwise both |
| CronExpr.UpcomingSecondIff | timer/cronexpr.go:192 | the search starts at the first whole second strictly after the given instant |
| CronExpr.StepMonth | timer/cronexpr.go:204-214 | one failure of the month moves strictly ahead, skips no match, stays in the window and leaves finer fields at their minimum |
| CronExpr.StepDay | timer/cronexpr.go:217-227 | the same for the day |
| CronExpr.StepHour | timer/cronexpr.go:230-240 | the same for the hour |
| CronExpr.StepMinute | timer/cronexpr.go:243-253 | the same for the minute |
| CronExpr.StepSecond | timer/cronexpr.go:256-265 | the same for the second |
| CronExpr.Next | timer/cronexpr.go:190-268 | the earliest matching second after the instant; the zero time exactly when none matches before 1 January of year+2; it terminates on every input |
| CronMeaning.MatchesIff | timer/cronexpr.go:174-268 | where no step wraps, an instant matches iff each text denotes its part of the date and time of day and the day rule holds |
| CronMeaning.NextIsFirst | timer/cronexpr.go:190-268 | the result of Next is the first moment after the start at which the texts say so, and none exactly when there is none up to the end of the following year |
| CronCoverage.NextAlwaysFindsIff | timer/cronexpr.go:190-268 | for every expression that compiles: the search finds an instant from every start iff the day of week is restricted or an admitted date occurs every year |
| CronCoverage.LeapDayMissed | timer/cronexpr.go:194-201 | "0 0 0 29 2 *" compiles, is missed from year 1 and matches in year 4 |
| CronChain.IsNextUnique | timer/cronexpr.go:190-268 | the specification of Next determines its result |
| CronChain.NextOf | timer/cronexpr.go:190-268 | Next meets that specification |
| CronChain.ScheduledInstantsMatch | timer/timer.go:72-96 | in every run each instant a chain schedules matches the expression |
| CronChain.ChainIsSound | timer/timer.go:28-58 | instants strictly increase; one live timer at most; each callback once, in order and not early; the chain survives panics until stopped or over |
| CronChain.StopIsFinal | timer/timer.go:28-31 | after Stop, from anywhere, no later dispatch runs the callback |
| CronChainEnds.DueTimersAreServed | timer/timer.go:33-58 | a run takes at most 5 steps for each move of the clock or Stop, besides those still to come; where none but those is left every due timer has been received and, unless stopped, its callback run, and the next one is armed |
| CronChainEnds.ChainIsServed | timer/timer.go:72-96 | the same with the Next of any cron expression, which always has a result |
| Rand.ShuffleSelects | util/rand.go:67-90 | a shuffle emits distinct elements of the array |
| Rand.ShuffleOfDrawsFor | util/rand.go:67-90 | every arrangement of distinct elements comes from some draws |
| Rand.DrawsForShuffle | util/rand.go:67-90 | and from those draws only: draws and arrangements correspond one to one |
| Rand.EmittedAndLivePartition | util/rand.go:67-90 | emitted and remaining elements partition the array; drawing all of it permutes it |
| Rand.IntervalIff | util/rand.go:54-62 | both bounds and what lies between them belong to the interval |
| Rand.TakeOne | util/rand.go:70-87 | one iteration on the sparse map is one step on the dense array |
| Rand.Sample | util/rand.go:67-88 | the loop over the sparse map computes the dense shuffle |
| Rand.RandIntervalN | util/rand.go:53-91 | the result is the shuffle of the interval, all conversions are lossless, and it has min(n, size) values iff the bounds differ or n > 0 |
| Rand.RandGroup | util/rand.go:12-39 | selects the first index whose wrapped prefix sum exceeds the draw; never panics on a non-empty list |
| Rand.PositiveWeightIff | util/rand.go:26-36 | every index that can be returned has a positive weight iff the wrapped total is not 0 or the first weight is positive |
| Rand.ZeroWeightReturned | util/rand.go:26-29 | weights 0, 2^31, 2^31: the index of weight 0 is returned, on every draw |
| Rand.CountWithoutWrap | util/rand.go:17-36 | exactly p[i] draws select i when the total fits |
| Rand.WeightsHonouredIff | util/rand.go:17-36 | that holds for all i if and only if the total fits in uint32, for every list |
| SessionHeap.SiftUpStep | db/mongodb/mongodb.go:27-35 | a swap with a greater parent moves the only violation up |
| SessionHeap.SiftDownStep | db/mongodb/mongodb.go:27-35 | a swap with the lesser child moves the only violation down |
| SessionHeap.RootIsLeast | db/mongodb/mongodb.go:103 | in heap order the first session has the least count |
| SessionHeap.ChangeAt | db/mongodb/mongodb.go:107-108 | changing one count disturbs heap order around its place only |
| SessionHeap.DialContext.Swap | db/mongodb/mongodb.go:31-35 | exchanges two sessions and keeps sessions[s.index] == s |
| SessionHeap.DialContext.Fix | db/mongodb/mongodb.go:108 | heap.Fix restores heap order from a violation at one place, over the same sessions |
| SessionHeap.DialContext.Ref | db/mongodb/mongodb.go:101-112 | a session of least count, ending with at most floor(k/n)+1; the heap, the other counts and the set are kept, and so is balance |
| SessionHeap.DialContext.UnRef | db/mongodb/mongodb.go:115-120 | one count drops by one; the heap is restored |
| SessionHeap.DialWithTimeout | db/mongodb/mongodb.go:63-83 | the heap starts valid and balanced, with 100 sessions for a bad number |
| SessionHeap.LeastIsBelowAverage | db/mongodb/mongodb.go:101-112 | the least of n counts summing to k is at most floor(k/n) |
| PkgParser.HeaderRoundTrip | network/tcp_pkg.go:69-85 | the length read is the length written, for each width and byte order |
| PkgParser.HeaderByteOrder | network/tcp_pkg.go:112-127 | which byte of the length goes where |
| PkgParser.MaxLengthIsExact | network/tcp_pkg.go:39-47 | the limits of each width are what its prefix can carry |
| PkgParser.DecodeOfHeader | network/tcp_pkg.go:63-96 | the result, the data and what is left of the stream for every length a prefix can announce, within the limits or not |
| PkgParser.DecodeOfShort | network/tcp_pkg.go:63-68 | every stream is too short for a prefix or begins with that of some length |
| PkgParser.MessageIff | network/tcp_pkg.go:63-96 | a message is delivered iff it is within the limits and the stream is its frame and what is left behind |
| PkgParser.RefusedFrame | network/tcp_pkg.go:87-91 | a message outside the limits gives the error of its side and is left in the stream |
| PkgParser.RoundTrip | network/tcp_pkg.go:63-136 | concatenated frames read back as exactly the messages, and the rest of the stream is left |
| PkgParser.FramesInjective | network/tcp_pkg.go:63-136 | two lists of messages never have the same bytes |
| PkgParser.PrefixReads | network/tcp_pkg.go:63-96 | a reader of a cut-off stream sees a prefix of the messages |
| PkgParser.Reader.ReadFull | network/tcp_pkg.go:66 | reads exactly n bytes however the stream is chunked, or all there is |
| PkgParser.PkgParser.SetPkgLen | network/tcp_pkg.go:28-57 | limits end ordered and within what the width carries; both are 0 for an unsupported width |
| PkgParser.PkgParser.SetEndian | network/tcp_pkg.go:59-61 | changes the byte order only |
| PkgParser.PkgParser.Read | network/tcp_pkg.go:63-96 | reading a packet depends on the stream only, not on its chunks; errors come with the data the source returns beside them |
| PkgParser.PkgParser.Write | network/tcp_pkg.go:98-136 | writes the frame of the joined arguments; for every length, also beyond 2^32, which error, frame, cut frame or panic there is |
| PkgParser.Fill | network/tcp_pkg.go:110-133 | the copy loop places header and arguments one after the other as far as the buffer goes, and panics exactly when one would start beyond it |
| PkgParser.WriteThenRead | network/tcp_pkg.go:63-136 | what is written reads back iff it is accepted and below 2^32 with its prefix |
| PkgParser.CleanEndIff | network/tcp_pkg.go:63-96 | io.EOF comes from an empty stream and from one that ends after an acceptable prefix, and from no other |
| PkgParser.MessagesThenRest | network/tcp_pkg.go:63-96 | after whole frames the rest of a stream is read as it would be alone |
| TcpConn.StepKeepsInv | network/tcp_conn.go:15-118 | every step of writer, senders and closers keeps the invariant |
| TcpConn.PeerSeesPrefix | network/tcp_conn.go:22-37 | in every run the wire is a prefix of all that was accepted; of messages alone a peer reads a prefix, and whatever else is sent, those before it are read first |
| TcpConn.CloseDrains | network/tcp_conn.go:70-84 | once Close has sent its nil, without errors, exactly what was accepted before it is written before the socket closes |
| TcpConn.ClosedOnce | network/tcp_conn.go:70-101 | after Destroy, or Close on a full queue, the socket is closed; once either has begun, later calls do nothing |
| TcpConn.MessageGoesOut | network/tcp_conn.go:22-37 | with an open socket and nothing queued, an accepted message goes out whole |
| TcpConn.WriterFinishes | network/tcp_conn.go:22-37 | after that each step of the writer brings it nearer to closing the socket |
| TcpConn.DrainEnds | network/tcp_conn.go:22-37 | in any continuation the writer takes boundedly many steps, and where it can take none it has closed the socket |
| ChanRpc.StepKeepsInv | chanrpc/chanrpc.go:75-386 | every step of client and servers keeps the invariant |
| ChanRpcRuns.LiveCallsInOnePlace | chanrpc/chanrpc.go:302-386 | in every run each pending call is in exactly one place, and pendingAsync counts and bounds them |
| ChanRpcRuns.NoSendBlocks | chanrpc/chanrpc.go:75-90 | no reply to the client and no error report of its own ever blocks; ChanRpcClients.NoSendBlocks says so of all clients at once |
| ChanRpcRuns.CallbacksAccountedFor | chanrpc/chanrpc.go:322-379 | at all times calls made are callbacks plus pending ones, and no call has had two callbacks or one while pending; ChanRpcOutcomes says where each result came from and ChanRpcEnds.CallsEnd that every callback comes |
| ChanRpcOutcomes.ResultsAreJustified | chanrpc/chanrpc.go:75-121 | each result that a callback or a synchronous caller got was given to its call by a step of the run in a state that justifies it: the end of its handler, too many calls, a failed lookup, a closed or a full server |
| ChanRpcOutcomes.HandlerDecides | chanrpc/chanrpc.go:95-121 | a value or the error of a panic is how the handler of that call ended |
| ChanRpcOutcomes.AcceptedWereRegistered | chanrpc/chanrpc.go:212-320 | a server executes only calls handed to it while attached and with the function registered under the right number of results |
| ChanRpcRuns.SyncCallsGetOwnReply | chanrpc/chanrpc.go:245-300 | a synchronous call receives its own reply, and ChanSyncRet is empty between calls |
| ChanRpcRuns.ExecutedInOrder | chanrpc/chanrpc.go:95-136 | executed requests are a prefix of the accepted ones in order |
| ChanRpcRuns.ClosedForGood | chanrpc/chanrpc.go:130-136 | after Close nothing is accepted, and a drained server stays drained |
| ChanRpcRuns.CloseCanProceed | chanrpc/chanrpc.go:382-386 | while calls are pending, the client can receive or some server can go on; ChanRpcEnds.CallsEnd says that this comes to an end |
| ChanRpcEnds.NoDeadlock | chanrpc/chanrpc.go:241-386 | while a call of either kind is under way or a callback outstanding, some step other than a new call is possible |
| ChanRpcEnds.RunsAreBounded | chanrpc/chanrpc.go:75-386 | a run takes at most 8 steps for each call made, besides those still to come |
| ChanRpcEnds.CallsEnd | chanrpc/chanrpc.go:95-386 | from any reachable state the steps are so bounded, and where none but new calls is left every call ever made has had its callback exactly once, every server has executed all it accepted, and both kinds of Close have nothing to wait for |
| ChanRpcClients.EveryoneSeesStep | chanrpc/chanrpc.go:75-386 | a step of any client or server is a step, or none, of the machine that each client sees |
| ChanRpcClients.EveryClient | chanrpc/chanrpc.go:75-386 | with any number of clients each goes through a run of the one-client machine |
| ChanRpcClients.NoSendBlocks | chanrpc/chanrpc.go:75-90 | no server is ever blocked by any client, and no client by itself |
| ChanRpcClients.CallsEnd | chanrpc/chanrpc.go:322-386 | with any number of clients the steps are bounded, and where only new calls are left all clients have had every callback exactly once and all servers have executed what they accepted |
| SyncSharing.AloneIsSafe | chanrpc/chanrpc.go:241-300 | in every run whose synchronous calls on one client do not overlap, all callers get their own replies |
| SyncSharing.SafeIffAlone | chanrpc/chanrpc.go:241-300 | at any point of any run that was fine so far, the replies are sure to reach their callers from there on iff at most one of them waits |
| SyncSharing.RepliesCanCross | chanrpc/chanrpc.go:241-300 | a run in which one goroutine takes the reply of another |
| GoPool.StepKeepsInv | go/go.go:24-124 | every step of owner and goroutines keeps the invariant |
| GoPoolJobs.EachJobOnce | go/go.go:24-124 | at all times each job of the run is in one place or its own callback has entered ChanCb, once |
| GoPoolJobs.AllCallbacksRun | go/go.go:24-124 | where nothing is pending the callbacks run are those of the jobs submitted, each exactly once, those of a context in order |
| GoPool.LinearInOrder | go/go.go:92-124 | jobs of a context run one at a time, and their callbacks enter ChanCb and are run, in order of submission |
| GoPool.FrontIsNeverNil | go/go.go:92-98 | the list holds a job for every goroutine that has not popped, so the pop finds one |
| GoPool.NoDeadlock | go/go.go:24-66 | while something is pending some step other than a submission is possible, for any capacity |
| GoPool.RunsAreBounded | go/go.go:24-66 | runs without submissions have bounded length |
| GoPool.CloseEnds | go/go.go:62-66 | pendingGo counts what is not completed, and where no step is left nothing is pending |
| Skeleton.StepKeepsInv | module/skeleton.go:51-74 | each closing call's result lasts through the rest of the shutdown |
| Skeleton.WaitsOnOthersOnly | module/skeleton.go:55-59 | after ChanRPCServer.Close no call of the module is left at its own servers |
| Skeleton.AfterRun | module/skeleton.go:51-61 | when Run returns, accepted equals executed, all callbacks have run, and the pool has pending exactly the jobs that came after g.Close |
| Skeleton.LateJobOutlivesRun | module/skeleton.go:57-58 | a complete run in which a late job is still pending when Run returns |
| SkeletonEnds.RunReturns | module/skeleton.go:51-74 | a run takes at most 9 steps for each call or submission, besides those still to come, and where none but those is left Run has returned |

## Modelling decisions

- Times are UTC on the proleptic Gregorian calendar from year 1 on. `Truncate(time.Hour)` works on absolute
  time, so the model holds for UTC and not for offsets that are not whole hours.
- `int` is 64 bits wide in `strconv.Atoi` and in the cron loop; `uint32` and `int32` arithmetic in `Rand` and
  `PkgParser` is modelled at its width. Reference counts and job counters are unbounded.
- `parseCronField` is called with bounds inside 0 to 59 only; `ParseCronField` asks for bounds inside 0 to 63.
- The two panics of `RandGroup` on a list without entries (nil or not) are one error.
- A draw of the random source is any value in its range; a panic is a possible end of a handler, job or callback.
- In `SessionHeap`, the sift operations are those of Go's `container/heap`, which the repository imports.
- A channel send succeeds when the buffer has room or a receiver may be waiting. After a handover on an
  unbuffered channel the element counts as queued until the receiver takes it.
- In `TcpConn`, testing closeFlag and closing it is one step; the source does it in two, so two goroutines that
  close at the same moment are outside the model. A message is accepted whatever closeFlag says, since the
  source tests it before and not while sending. Bytes that are no frame of a message, be they written directly or the cut
  frame that `PkgParser.Write` makes of a message of 2^32 bytes, enter the queue by a step of their own.
- In `ChanRpc` the machine has one client, used by one goroutine, and the requests of others need no reply from its
  point of view. `ChanRpcClients` has any number of clients, with the channel of each, and proves that every client
  sees the machine of `ChanRpc`.
- That something happens in the end is stated as a bound on the steps of a run and a statement about states in which no
  step is left but those somebody chooses to take, such as a new call. It is what a fair scheduler needs.
- In `Skeleton` the goroutine of the module receives from each channel in the loop or in the closing call that drains it,
  and makes asynchronous calls only, as the client is private to the module.
- The body of each loop of `Next` is a method of its own; `goto retry` is a labelled `continue`.

## Left out

- Time zones other than UTC, and instants before year 1.
- The concurrent machines (`chanrpc`, `go`, `tcp_conn`, `timer`, `skeleton`) are modelled on values, not as objects with update in place: aliasing between clients, servers and channels is not captured.
- `Server.Register`, `Idle`, `Open`, the argument lists of calls, the panics on an ill-formed callback, and the wrapping of results in `assert`: sequential one-liners.
- `panic(nil)` and `runtime.Goexit` in a handler: before Go 1.21 recover does not see them and no reply is sent.
- Stack capture, log text and error texts: an error is modelled by its kind.
- `RandInterval`, which is one draw, and the seeding of the random source.
- `Session.Refresh` and all mgo calls, and `DialContext.Close`: only reference counts, indices and heap order are modelled.
- The linger option of sockets.
- Timers other than those of one cron chain, and the wall clock: the clock of `CronChain` never goes back.
- network/protobuf, network/json, the websocket transport, gate, cluster, console, log, conf, deep copy and the small wrappers in util and module: library codecs, wiring or easy members.
