# Verification of the coroutine scheduler and the frame codec

Two parts of the C++ coroutine server are modelled and proved.

**The scheduler.** `CoroutineMgr` keeps an ordered table of coroutines, the active one, a
wrapping 32-bit id counter and the timers. `ScheduleAll` walks the table while the coroutines
it dispatches insert entries, wake others, wait and end. `Machine.dfy` has the system as a
value (table, registers, timers, history) and every operation as a function on it;
`CoroutineMgr.dfy` and `ExpireMgr.dfy` have the classes that do the same in place, each method
proved against its function. `Invariant.dfy` proves what every step keeps. `Passes.dfy` gives
`ScheduleAll` a specification without any context switch (each ready body runs as an ordinary
call until it blocks, in ascending order of id) and proves that the cursor loop computes it.
`Outcome.dfy` and `Order.dfy` derive what a pass leaves behind and in which order it
dispatches, `Life.dfy` that interleaving preserves every program, `Runs.dfy` the theorems about
whole runs: any sequence of environment, scheduler and coroutine steps from a successful `Init`.
`Actions.dfy` says what each action of a coroutine does, `Events.dfy` what `RunOnce` makes of the
events reported to it, `Timers.dfy` which waiting coroutine has a timer, `Liveness.dfy` that a due timer is served,
`Completion.dfy` who is left when nothing comes from outside any more.

**The codec.** `Wire.dfy` is the protocol buffers wire format (sections "Base 128 Varints" and
"Message Structure" of the Protocol Buffers Encoding specification), `Messages.dfy` the three
messages of the schema, `Merging.dfy` their bytes and what a parsed one holds, `Framing.dfy` the length prefix with `Check` and `Seq`, `HeadPkg.dfy` the
class with its static counter, `Handler.dfy` the request handler of the example server, one or
many at a time. `Padding.dfy` and `PaddedHeads.dfy` say what messages parse to when their last
bytes read as zeros, and `Reads.dfy` what one read of the server or the client makes of them.

The timers are modelled from lib/eventmgr/ExpireMgr.h (lines 20-104), `RunOnce` and the reads from
lib/eventmgr/EventMgr.h (lines 13-61, 162-289 and 392-471) with `CMemData` of lib/eventmgr/util.h
(lines 110-215), the wait for a connection from lib/eventmgr/EventMgr.cpp (lines 196-206). The rows
about them cite the lines that use them. Beside the rows for `Del` and `Set`: `ExpireMgr.Add`
keeps the two maps consistent if and only if the id had no registration or had this very expiry,
and `ExpireMgr.NextWaitTime` reports the smallest id of the earliest expiry if that has passed,
and otherwise exactly the time until the earliest one.

Three things one would expect of the code are false, and the proofs say exactly when they hold:

- *A waiting coroutine has its timer.* `DelFd` (EventMgr.h:392-397), called when a client closes
  its connection, passes the number of the descriptor to the table of expiries, which is keyed
  by coroutine ids. The timers still agree with the states after a connection is closed if and
  only if its number is not the id of a waiting coroutine (`CloseKeepsTimersIff`), and in every
  run a waiting coroutine has its timer if and only if no connection with its number was closed
  since it went to sleep (`TimerIffNotClosed`). Every number from 1 on can strand a coroutine
  (`ClosingStrandsSleeper`), and it then waits until somebody wakes it (`StrandedUntilWoken`).
- *A frame that `Check` reports is complete.* Its guard compares the length word without its own
  four bytes, so a frame is reported with up to four bytes missing (`CheckEarlyIff`). The server
  copies the reported size out of a buffer of 1024 bytes that was zeros before the read. A frame of
  up to 1024 bytes reaches the handler with zeros for the missing bytes, and is the head that was
  sent if and only if the missing bytes are zeros (`EarlyReadIntactIff`); one of 1025 to 1028
  bytes is reported beyond the end of the buffer, and a larger one never (`ReadOfWholeFrame`). The
  client looks for the number in the padded bytes and delivers the bytes received; at most one of
  the two decodes (`EarlyDecodesOnce`).
- *Every frame that was sent is handled.* A read serves at most one frame and drops the rest, so
  that of frames that arrive whole exactly the first of each read gets a coroutine
  (`ReadsServeFirsts`), and all of them if and only if no two come in one read (`AllServedIff`).
  The client's coroutine gets its reply if and only if the read ends where the frame does
  (`ClientGetsReplyIff`).

How the model reads the source:

- A callback body is an arbitrary finite script of `Sleep`, `Yield` (a bare `Schedule()`),
  `Spawn` (`Create`, then storing a callback) and `Wake` (`Get` the target, then `SetReady` if
  it is live and has not ended). `Sleep` carries the clock reading `CExpireMgr::Set` will take,
  and `Poll` the one `NextWaitTime` takes, so real time is unconstrained.
- `__SwitchCoroutine__(cur, next)` saves the caller's continuation in `cur` and resumes the one
  stored in `next`. Pointers to contexts are the keys of the table.
- `RunOnce` is: serve one expired timer by `SetReady` and `Schedule(id)` straight from main, or,
  if none has expired, any sequence of new requests, wake-ups, connections made and connections
  closed. A wake-up for data received looks only whether the id is in the table
  (EventMgr.h:455), and the one for a connection made (EventMgr.h:186) does not look at all:
  that the coroutine has not ended is proved (`NothingEndedAtServing`), and that the id a coroutine
  leaves while it waits for its connection names it, live and inside that wait, until it runs
  again (`ConnectNamesWaiter`).
- `Create` on an id still in the table returns the existing context, as `operator[]` does.

What the code relies on without checking, and the proofs assume: nothing is scheduled before
`Init` succeeded; a coroutine that calls `SetReady` gives it a live coroutine that has not ended
(`SetReadySafeIff` shows that this is exactly what is needed); coroutines switch only to id 0;
only `ScheduleAll` calls `Destroy`, and only main calls `ScheduleAll`; main never waits; `req.id`
is written by `Create` alone. Statements that identify a coroutine by its id over time require
that at most 2^32 ids have been created; `CreateGivesNewIdIff` shows that this is when `Create`
stops handing out new ones.

## Model

| member | source | states |
|---|---|---|
| `Runs.Exec` | lib/eventmgr/CoroutineMgr.h:139-256 | whole-run invariant: after any sequence of environment, scheduler and coroutine steps, closed connections among them, id 0 and the active id are live, keys equal request ids, exactly one context is running and every other holds a continuation fitting its state, the cursor is end or a live key, nothing ended is left behind it, a timer is pending exactly for the live waiting ids whose timer was not removed by a closed connection, live and destroyed ids are disjoint and exactly those handed out until all 2^32 are, and every id is one of them from then on |
| `Invariant.DoKeepsInv` | lib/eventmgr/CoroutineMgr.h:150-220 | every single step keeps that invariant |
| `Invariant.SetReadySafeIff` | lib/eventmgr/CoroutineMgr.h:177-181 | `SetReady` on a live id keeps the invariant if and only if that coroutine has not ended |
| `Invariant.NothingEndedAtServing` | lib/eventmgr/CoroutineMgr.h:177-181 | while main handles events no coroutine in the table has ended, so that the wake-up that checks only for null does what one that checks the state would do |
| `Events.WakeupWakes` | lib/eventmgr/CoroutineMgr.h:177-181 | a wake-up reported to main makes a live coroutine ready and takes its timer away, changes nobody else, and nothing at all if the id is unknown |
| `Events.AllHappened` | test2/main2.cpp:107-109 | all events reported to one `RunOnce` take effect: one new coroutine for every request, in order, with its callback, everybody called ready, nobody else changed, and exactly the timers of those called and under the numbers of closed connections gone |
| `Events.TurnServesEvents` | test2/main2.cpp:107-111 | in any turn of the main loop in which no timer is due, all of this happens, and every coroutine created or called is dispatched in that turn |
| `Events.TurnFiresEarliest` | test2/main2.cpp:107-111 | in any turn in which a timer is due, the coroutine of the earliest expiry, of these the one with the smallest id, runs first, and events are not looked at |
| `Actions.SleepWaits` | lib/eventmgr/CoroutineMgr.h:170-175 | a coroutine that waits hands control back to where main left it, waiting, with the rest of its callback and with its clock reading plus the timeout as its expiry; nobody else is changed |
| `Actions.YieldReturns` | lib/eventmgr/CoroutineMgr.h:150-168 | a bare `Schedule()` hands control back likewise and leaves the coroutine ready, with the rest of its callback |
| `Actions.SpawnCreates` | lib/eventmgr/CoroutineMgr.h:239-245 | `Create` adds exactly one coroutine, ready to enter the callback stored, and the creator goes on |
| `Actions.WakeWakes` | lib/eventmgr/CoroutineMgr.h:177-181 | waking makes a live coroutine that has not ended ready and takes its timer away, and otherwise changes nothing; the waker goes on |
| `Actions.SpawnedRuns` | lib/eventmgr/CoroutineMgr.h:183-198 | whoever a coroutine creates gets its callback and is dispatched at the latest by the next pass, whatever happens until then |
| `Actions.WokenRuns` | lib/eventmgr/CoroutineMgr.h:177-198 | and so is whoever it wakes, but for itself |
| `Runs.ConnectNamesWaiter` | lib/eventmgr/CoroutineMgr.h:170-181 | from the time a coroutine went to sleep until it is switched to again, in every run its id names it, live, not ended and suspended where it went to sleep, so that a wake-up that does not look is the one that does, and safe |
| `Runs.CreateGivesNewIdIff` | lib/eventmgr/CoroutineMgr.h:239-245 | in every state, `Create` hands out an id neither live nor destroyed if and only if fewer than 2^32 ids have been created; the 2^32-th successor is 0; an id that is still live is handed out with everything stored under it |
| `Runs.OnlyInspectedIsErased` | lib/eventmgr/CoroutineMgr.h:200-207 | whatever leaves the table is the ended entry the loop stands on, never main, never the active coroutine, and the cursor is already on the next key |
| `Runs.EveryRunPreservesPrograms` | lib/eventmgr/CoroutineMgr.cpp:5-21 | in every run the history projected onto an id is an initial part of one life (callback stored, entered once, the actions of its body in order, ended once, destroyed once), complete exactly when the id is destroyed, and a suspended coroutine still has to do exactly what is missing |
| `Runs.EndedNeverRunsAgain` | lib/eventmgr/CoroutineMgr.cpp:14-19 | after the end of a coroutine was recorded it is never active again, stays ended while live, and at most one event, its destruction, follows |
| `Runs.PassReclaimsEnded` | lib/eventmgr/CoroutineMgr.h:194-207 | whatever ended before or during a pass is destroyed by the end of that pass |
| `Runs.FiringTimerNamesWaiter` | lib/eventmgr/CoroutineMgr.h:177-181 | in every run an id reported as expired is live, not main, waiting and suspended, so the unchecked `Get(id)` succeeds |
| `Runs.NoEarlyTimer` | lib/eventmgr/CoroutineMgr.h:170-175 | in every run, when a timer fires, the last thing its coroutine did was to ask to sleep until that time or an earlier one |
| `Timers.CloseKeepsTimersIff` | test2/main2.cpp:107-109 | when exactly the waiting coroutines have timers, that still holds after a connection is closed if and only if its descriptor is not the id of a waiting coroutine |
| `Timers.TimerIffNotClosed` | test2/main2.cpp:107-111 | in every run a waiting coroutine has its timer if and only if no connection with its number was closed since its last sleep |
| `Timers.ClosingStrandsSleeper` | test2/main2.cpp:44-44 | the failing input: for every descriptor number from 1 on, after that many requests to the handler that sleeps, closing the connection of that number leaves the coroutine of that number waiting without a timer |
| `Timers.StrandedUntilWoken` | lib/eventmgr/CoroutineMgr.h:170-181 | a coroutine waiting without a timer stays so, whatever happens, until somebody wakes it |
| `Liveness.DueTimerIsServed` | test2/main2.cpp:107-111 | while its expiry has passed, a coroutine with a timer is dispatched within as many turns of the main loop as there are steps left in all coroutines and those they will create, and one more |
| `Liveness.StepLowersLoad` | lib/eventmgr/CoroutineMgr.cpp:5-21 | every step of a coroutine, creating another one included, lowers the number of steps left |
| `Completion.EverybodyFinishes` | test2/main2.cpp:107-111 | with no events and a clock past every expiry, after as many turns of the main loop as there are steps left no timer is pending, a coroutine is still there if and only if it waited without a timer from the start and nobody woke it, and every other one ever created has been destroyed |
| `Passes.RunIsStraight` | lib/eventmgr/CoroutineMgr.h:150-175 | executing a coroutine with context switches until it waits, yields or ends, then what is left of its turn, equals executing the body as a call |
| `Passes.DispatchIsCall` | lib/eventmgr/CoroutineMgr.h:194-198 | one `Schedule` from the loop, followed by the rest of that entry's turn, is one call of the specification; main resumes where it left |
| `Passes.CallSettles` | lib/eventmgr/CoroutineMgr.h:186-198 | repeating the READY branch ends, for any finite body, with the entry live and not ready |
| `Passes.DispatchContinuesPass` | lib/eventmgr/CoroutineMgr.h:194-198 | `continue` without moving the cursor leaves the rest of the pass unchanged |
| `Runs.PassTerminates` | lib/eventmgr/CoroutineMgr.h:183-220 | from every state in which main may call `ScheduleAll`, finitely many of the code's own steps reach exactly the state the specification computes, with control in main at the start of `RunOnce` |
| `Runs.PassLeavesReadyIffWokenAbove` | lib/eventmgr/CoroutineMgr.h:177-220 | after a pass no ended coroutine is left, and one is left ready if and only if a coroutine with a larger id woke it during the pass |
| `Runs.PassWithoutWakesLeavesAllWaiting` | lib/eventmgr/CoroutineMgr.h:177-220 | if no body wakes another, everything left except main waits |
| `Timers.QuietPassLeavesAllWaiting` | lib/eventmgr/CoroutineMgr.h:170-220 | in every run, after such a pass each has its timer if and only if no connection with its number was closed since it went to sleep |
| `Runs.PassDispatchesReadyAndNew` | lib/eventmgr/CoroutineMgr.h:183-198 | a pass dispatches every coroutine ready at its start and every one created during it |
| `Runs.NoStarvation` | lib/eventmgr/CoroutineMgr.h:177-220 | a coroutine ready at any moment of a run is dispatched at the latest by the next pass, whatever happens in between |
| `Order.PassInOrder` | lib/eventmgr/CoroutineMgr.h:186-198 | ids dispatched in a pass never decrease, and one repeats only right after its own bare `Schedule()` |
| `Coroutines.RoundsAreRun` | test2/main2.cpp:107-111 | any number of turns of the main loop, with any requests, wake-ups and closed connections, is a run of the step system |
| `Coroutines.MainLoopKeepsOrder` | test2/main2.cpp:107-111 | at the head of the main loop every coroutine has followed its own program, none has ended, and one that waits has its timer if and only if no connection with its number was closed since it went to sleep |
| `Coroutines.ServerMain` | test2/main2.cpp:100-111 | on a new manager `Init` succeeds and the loop computes the specified rounds |
| `Coroutines.CoroutineMgr.ScheduleAll` | lib/eventmgr/CoroutineMgr.h:183-220 | the cursor loop, with insertion and erasure while it runs, terminates and computes the specification of a pass: same table, timers and history |
| `Coroutines.CoroutineMgr.MovePast` | lib/eventmgr/CoroutineMgr.h:200-218 | the branches that advance the cursor, before erasing an ended entry, are the step of the specification |
| `Coroutines.CoroutineMgr.Resume` | lib/eventmgr/CoroutineMgr.cpp:5-21 | a dispatched coroutine gives control back after finitely many steps |
| `Coroutines.CoroutineMgr.StepCoroutine` | lib/eventmgr/CoroutineMgr.cpp:5-21 | `Entry` and one action of the callback, in place, are the step function |
| `Coroutines.CoroutineMgr.Init` | lib/eventmgr/CoroutineMgr.h:222-237 | succeeds if and only if the table is empty and the next id is 0, then main's continuation is the one stored; otherwise the exact state left behind |
| `Coroutines.CoroutineMgr.Create` | lib/eventmgr/CoroutineMgr.h:239-245 | advances the wrapping counter and returns the context of that id, new or already there |
| `Coroutines.CoroutineMgr.Destroy` | lib/eventmgr/CoroutineMgr.h:247-256 | removes exactly the given entry, and reports an error if and only if it is not there |
| `Coroutines.CoroutineMgr.Schedule` | lib/eventmgr/CoroutineMgr.h:150-168 | an unknown id changes nothing; otherwise continuations and the active coroutine are exchanged |
| `Coroutines.CoroutineMgr.WaitAndSchedule` | lib/eventmgr/CoroutineMgr.h:170-175 | registers the expiry, marks the active coroutine waiting and resumes main |
| `Coroutines.CoroutineMgr.SetReady` | lib/eventmgr/CoroutineMgr.h:177-181 | makes a live coroutine ready and removes its expiry |
| `Coroutines.CoroutineMgr.RunOnce` | test2/main2.cpp:109-109 | serves one expired timer by running its coroutine at once, or else the reported requests, wake-ups, connections made, which are woken without a look at the table, and closed connections in order |
| `Expiry.ExpireMgr.Del` | lib/eventmgr/CoroutineMgr.h:180-180 | removes the registration of an id from both maps, which stay mirrors of each other |
| `Expiry.ExpireMgr.Set` | lib/eventmgr/CoroutineMgr.h:172-172 | leaves exactly one registration for the id, in both maps |
| `Wire.VarintRoundTrip` | pb/head.h:71-82 | reading a varint gives back the number and the bytes behind it |
| `Wire.FieldRoundTrip` | pb/head.h:71-82 | reading a field gives back the field and the bytes behind it |
| `Wire.ParsesIffCutBetweenFields` | pb/head.h:35-43 | serialized fields cut at any byte parse if and only if the cut falls between two fields, and then as the fields before the cut |
| `Merging.VarintIsGroups` | pb/head.h:71-82 | a varint is the number in groups of seven bits, the lowest first, every byte but the last marked, and no longer than needed |
| `Merging.FieldBytes` | pb/head.h:71-82 | a field is its number times eight plus 0, 1, 2 or 5 for a varint, eight bytes, bytes with their length or four bytes, and then its payload |
| `Messages.HeadRoundTrip` | pb/testpb.proto:3-7 | parsing a serialized `Head` gives it back with field presence and unknown fields |
| `Messages.ReqRoundTrip` | pb/testpb.proto:9-13 | the same for `DataReq` |
| `Messages.RspRoundTrip` | pb/testpb.proto:15-20 | the same for `DataRsp` |
| `Merging.HeadBytes` | pb/testpb.proto:3-7 | the bytes of a `Head`: `seq` under number 1, `data` under number 2, each if present, then the unknown fields |
| `Merging.ReqBytes` | pb/testpb.proto:9-13 | the bytes of a `DataReq`: `cmd` under number 1, `query` under number 2, likewise |
| `Merging.RspBytes` | pb/testpb.proto:15-20 | the bytes of a `DataRsp`: `cmd` under number 1, `data` under number 2, `msg` under number 3, likewise |
| `Merging.ParsedHolds` | pb/head.h:35-43 | for any bytes: they parse if and only if they are fields one after the other, and then every known field holds the last value given under its number, a uint32 its lowest 32 bits, and all others are kept in order |
| `Messages.ParsedHeadSurvives` | pb/head.h:35-82 | whatever parses as a `Head` can be serialized and parsed again to the same |
| `Framing.FrameRoundTrip` | pb/head.h:35-82 | decoding the frame of a head gives back that head |
| `Framing.LengthOrder` | pb/head.h:26-27 | the length word is in network byte order: the one that comes first byte by byte is the smaller number |
| `Framing.CheckWhileGrowing` | pb/head.h:19-33 | on the first k bytes of a frame followed by anything, `Check` is 0 until all but four bytes are there and the frame's size from then on |
| `Framing.CheckEarlyIff` | pb/head.h:26-32 | on any bytes, whatever their length word, a positive verdict exceeds what is there if and only if between one and four bytes of the frame are missing |
| `Framing.EarlyFrameDecodesIff` | pb/head.h:26-43 | a frame reported too early decodes if and only if it is cut between two fields of the head, and then to the fields before the cut |
| `Framing.EarlyFrameLosesData` | pb/head.h:26-43 | such a frame exists: it is reported complete, and the bytes received decode without its data |
| `Padding.FieldsPadded` | pb/head.h:35-43 | fields of any kind whose last one to four bytes read as zeros parse if and only if the zeros begin inside the last field and reading that field uses all of them, and then to the other fields and what is read of the last |
| `PaddedHeads.PaddedFrameDecodes` | pb/head.h:26-43 | the frame of any head with its last one to four bytes read as zeros decodes to what those fields merge to, or not at all |
| `PaddedHeads.PaddedFrameIntactIff` | pb/head.h:26-43 | it decodes to the head that was sent if and only if the missing bytes are zeros |
| `PaddedHeads.PlainHeadPadded` | pb/testpb.proto:3-7 | in particular, without unknown fields: the data ends in zeros if all missing bytes are data, the number keeps the bits received if there is no data and one byte is missing, a missing length of empty data changes nothing, and nothing else decodes |
| `PaddedHeads.SmallHeadsFit` | pb/head.h:71-82 | a head without unknown fields takes at most 16 bytes more than its data, so every head with less than 2^31 - 16 bytes of data makes a frame that decodes |
| `Reads.ReadOfFrame` | test2/main2.cpp:95-99 | one read that starts with a frame, whatever follows: dropped unless all but four bytes are there, then handed to the handler with zeros for the missing bytes and without what follows, if it fits the buffer of 1024 bytes, and otherwise reported beyond its end |
| `Reads.ReadOfWholeFrame` | pb/head.h:19-33 | a frame of any size sent in one piece is handled if and only if it has at most 1024 bytes, reported beyond the end of the buffer if and only if it has 1025 to 1028, and dropped otherwise |
| `Reads.ReadOfFew` | pb/head.h:26-32 | one to three bytes are handed to the handler as four zeros if they are zeros, and dropped otherwise |
| `Reads.ZerosAreRequest` | test2/main2.cpp:25-39 | four zeros are a request without command and query, which the handler answers |
| `Reads.EarlyReadIntactIff` | test2/main2.cpp:20-29 | a frame that fits the buffer, read one to four bytes short, reaches the handler with zeros for the missing bytes, and decodes to the head that was sent if and only if they are zeros |
| `Reads.EarlyReadAltersData` | test2/main2.cpp:20-29 | such a frame exists, and the handler finds two zeros for its data |
| `Reads.ReadsServeFirsts` | test2/main2.cpp:95-99 | of frames that arrive whole, the first of each read gets a coroutine, and no other |
| `Reads.AllServedIff` | test2/main2.cpp:95-99 | all of them do if and only if no two arrive in one read |
| `Reads.EarlyDecodesOnce` | pb/head.h:35-59 | of a frame read one to four bytes short, the bytes received and the bytes with zeros for the missing ones never both decode |
| `Reads.ClientGetsReplyIff` | test1/main1.cpp:34-48 | of a stream of replies, a read that starts with one gives the coroutine waiting for its number the head if and only if the read ends where the frame does, provided nobody waits under the number that comes out as an error code |
| `Framing.SeqOfFrame` | pb/head.h:45-59 | `Seq` gives the number a frame carries if and only if it is below 2^31, the number less 2^32 otherwise, and one of the two error codes if and only if it is one of the two largest numbers |
| `Framing.SeqWhileGrowing` | pb/head.h:45-59 | `Seq` is -1 until `Check` reports the frame, and 0 for a frame without a number |
| `Framing.SplitIffConcat` | pb/head.h:19-33 | cutting a stream at the sizes `Check` reports yields a list of frames if and only if the stream is their concatenation |
| `HeadPackage.HeadPkg.Decode` | pb/head.h:35-43 | succeeds if and only if the bytes behind the length word parse; an empty buffer leaves the head alone |
| `HeadPackage.HeadPkg.Encode` | pb/head.h:71-82 | takes the next number, replaces the head's own, and leaves a frame that decodes to exactly this head |
| `HeadPackage.HeadPkg.Body` | pb/head.h:84-87 | gives the data, or nothing, and marks the field as present |
| `HeadPackage.EncodeAll` | pb/head.h:71-82 | successive calls of `Encode` leave the frames of the heads given, numbered on from the counter, and the counter as many further |
| `HeadPackage.EncodedNumbers` | pb/head.h:71-82 | the n-th frame of such calls decodes to its head with the counter's start plus n modulo 2^32 |
| `HeadPackage.NumbersRepeatIff` | pb/head.h:71-82 | two frames of such calls decode to the same number if and only if the calls are a multiple of 2^32 apart |
| `HeadPackage.NestedReqRoundTrip` | test1/main1.cpp:23-30 | a request serialized, put into a head, framed, decoded and parsed is the same request |
| `HeadPackage.NestedRspRoundTrip` | test2/main2.cpp:46-54 | the same for a response |
| `RequestHandler.Receive` | test2/main2.cpp:13-42 | up to the wait: finds a request if and only if the head and its data, or nothing if it has none, parse, and uses no number |
| `RequestHandler.Reply` | test2/main2.cpp:46-62 | behind the wait: takes the number after the one the counter has then, and makes the frame of the received head with that number and the answer as its data; what the client parses is the request's command, its query as data, 0 for what was absent, and the time with a line end |
| `RequestHandler.AnswerArrives` | test2/main2.cpp:46-52 | the answer, serialized and parsed, in terms of the request and the time alone |
| `RequestHandler.ServeAll` | test2/main2.cpp:13-64 | handlers interleaved at their waits in any way, each with a package of its own and all with one counter, send what the specification says of which `RepliesFollowSteps` and `InterleavedReplies` speak |
| `RequestHandler.InterleavedReplies` | test2/main2.cpp:13-64 | for every interleaving, a handler whose bytes hold a request waits or has sent exactly one reply, no other handler sends any, and the n-th reply sent is the answer to what its own handler received, under the n-th number behind the counter's start |
| `RequestHandler.RepliesFollowSteps` | test2/main2.cpp:13-64 | for every interleaving, in terms of its steps alone: what was received is what arrived, a handler has replied if and only if its bytes hold a request and it was woken after they arrived, and the replies were sent in the order of these first wake-ups, each with the time of its own |
| `RequestHandler.ReplyNumbersRepeatIff` | test2/main2.cpp:46-62 | two replies of interleaved handlers decode to the same number if and only if they were sent a multiple of 2^32 replies apart |
| `RequestHandler.RequestReply` | test2/main2.cpp:13-64 | end to end, the handler finds the request in its frame, and the client parses a response with the request's command, its query as data, 0 for what was absent, and the time with a line end, under the number used |

## Left out

- Coroutines.CoroutineMgr.SetReady: requires a live id; the null dereference for an unknown id has no model. `RunOnce` requires it of the ids of connections made, as `ConnectNamesWaiter` gives it.
- Coroutines.ServerEvent: of a closed connection only what it does to the expiries is modelled, not the tables of descriptors.
- Machine.Create: a callback that is never stored (the UDP branch of `NewReq`) is not dispatched in the model; every new coroutine gets a body before main goes on.
- HeadPackage.HeadPkg.Decode: what a failed parse leaves in the head is left open, and so are buffers of one to three bytes.
- HeadPackage.HeadPkg.Encode: serialization fails above 2 GB in the library; the round trip is stated below that size, where the length fits the `int` that `Check` returns.
- Wire.ParsesIffCutBetweenFields: groups (wire types 3 and 4) and tags or lengths longer than five bytes are refused, where library versions differ; no frame of this program contains them.
- Registers, stacks and switch.s: only the save and resume contract of the switch is modelled.
- epoll, sockets, `tcpsend`, `tcpsendrecv`, `tcpconnect` and the tables of file descriptors: I/O; their effect on coroutines is the events of `RunOnce` and the actions of a body. Descriptor numbers are any 32-bit numbers.
- Direct switches between coroutines, nested `ScheduleAll`, `Destroy` from outside, and use before `Init`: excluded, because the invariants do not hold under them.
- 64-bit overflow of the sum of clock and timeout: times are unbounded.
- Reads.ReadOfFrame: what a read makes of bytes that do not start with a frame (the rest of one split over two reads) is whatever their first four bytes say; only `CheckRead` is stated of them. Copying and erasing beyond the end of the buffer is undefined, and the model says only when it happens.
- Framing.SplitIffConcat: nothing in the program cuts a stream into all its frames; what it does with one is in `Reads`.
- Reads.ClientGetsReplyIff: reads of less than four bytes are not delivered in the model, whose `Decode` needs the length word.
- The wait of a handler and the wait of the scheduler are separate models: `ServeAll` covers every order in which waits can end, not only those the timers produce.
- Any claim that a reply echoes the request's number: `Encode` overwrites it from the local counter.
- `DebugString`, `LOG`, the close-connect programs, `test`, `testmap` and the build files.
