# linStat: a verified model of the reactor and the tables behind it

linStat publishes Linux system statistics as EPICS records. One worker thread, the reactor, runs
submitted jobs, sends netlink requests and hands the replies to callbacks, while any number of other
threads submit jobs, make requests, drop handles and stop it. On top of it sit tables of named values,
a registry that shares them, records that trigger updates, and a few tables and printers with logic of
their own. This project models that and proves what the code relies on.

`dafny verify dfyconfig.toml` checks everything.

## How it is modelled

- `ReactorState.dfy` is the reactor as a labelled transition system. A step is a region between taking
  and releasing the lock, or something a thread does without it. The worker has a program counter, which
  also tells whether it holds the lock. A client inside a deleter shows in the life of the handle it
  drops (`Held`, `Dropping`, `Sleeping`, `Clearing`, `Gone`), since a handle's last reference is dropped
  once. Clients about to write the wake-up byte are counted. `poll()`, sockets and datagrams are step
  outcomes chosen freely. The program tests `todo.empty()` for the poll timeout after it has released
  the lock (lines 240-241); the model does the same (`EnterPoll`).
- `ReactorInvariant.dfy` has the invariant and its preservation by every step; `ReactorSafety.dfy` the
  safety theorems over finite runs; `ReactorLiveness.dfy` what happens in the end, over infinite
  behaviours with a fair scheduler and callbacks that return.
- `ReactorRequests.dfy` is about requests on their way to the kernel, `ReactorReplies.dfy` about their numbers
  and the replies, `ReactorIdle.dfy` about the wake-up pipe and a worker with nothing to do,
  `ReactorWaits.dfy` about how long a deleter waits.
- `Reactor.dfy` is the shared object as a class whose methods change its fields, with the loops the
  program has; each method is proved to take the steps of the transition system.
- `IfStat.dfy` and `Scan.dfy` put a table and a record beside the reactor and interleave their steps with
  all of the reactor's. `Attributes.dfy`, `IfStatMessage.dfy`, `IfStatDigest.dfy`, `IfStatValues.dfy`
  and `Netlink.dfy` are the byte formats (sections 2.3.2 and 2.3.3.1 of RFC 3549), little-endian.
- `Tables.dfy`, `Registry.dfy`, `Link.dfy`, `Hwmon*.dfy`, `Duration*.dfy` are the rest.

## Where the code and what one would expect of it differ

- The comment on `Job` calls `done && busy` invalid. It occurs: `DoneAndBusyOccurs` is a run,
  `DoneAndBusy` says exactly when.
- `request()` decides about the wake-up after it has pushed the message, so it never wakes the worker, and
  a queued request makes the next `submit()` skip its wake-up too. `LostWakeupAfterClientRequest` is a run
  that ends with a job queued and the worker blocked, `SubmitWakesIff` the exact condition,
  `NoLostWakeup` the guarantee when requests come from the worker or while there is none, as they do here.
- After a fatal `poll()` error `running` stays set, so jobs are accepted that nothing will run
  (`FatalExitOccurs`; `FatalExitStrands` says exactly which).
- A clean `stop()` drains the jobs but not the requests: one can stay unsent (`StopStrandsRequests`).
- The deleter of an operation can be put back to sleep by the next message of the same datagram, since the
  worker keeps the lock between messages (`OpWaitsTwice`, `OpWaitsAgainIff`).
- The duration's text is copied into the record without a terminator, so the tail of a longer earlier text
  stays behind a shorter one (`TailIsLeft`, `ShowsLastIff`).
- A reply whose attribute area is not a multiple of four can take the unsigned count of remaining bytes
  below zero; `StaysInsideIff` gives the lengths for which that cannot happen.
- An interface name longer than the attribute's 16-bit length field allows yields a request that does not
  decode to it (`RequestDecodes`).
- Device names with dots can make two sensors share a name (`DevicesCollideIff`, `ShadowedReadingIsLost`).

## Model

| member | source | states |
|---|---|---|
| ReactorInvariant.InvKept | statApp/src/nlreact.cpp:182-484 | every step of every thread keeps the invariant: queue and batch are an interval of the submission order, busy flags name what the program counter names, the handler map holds exactly the undropped operations, requests are sent in order, what is needed to wake and stop the worker |
| ReactorInvariant.InvInit | statApp/src/nlreact.cpp:95-112 | a new reactor satisfies the invariant |
| ReactorSafety.RunInv | statApp/src/nlreact.cpp:210-371 | so does every state of every run |
| ReactorSafety.JobCancellation | statApp/src/nlreact.cpp:410-429 | once a job's handle is dropped its callback never starts again; if a client dropped it, it is not running either from then on; if the worker did, only the callback that dropped it is |
| ReactorSafety.OpCancellation | statApp/src/nlreact.cpp:465-481 | the same for operations: no later message reaches a cancelled one, also within the same datagram |
| ReactorSafety.ClearNeverOverlaps | statApp/src/nlreact.cpp:253-271 | a client clearing `cb` outside the lock never overlaps the worker reading or calling it |
| ReactorSafety.SleepersAreWoken | statApp/src/nlreact.cpp:419-421 | a client sleeps on the condition variable only while the callback it waits for runs, and its return wakes all sleepers |
| ReactorWaits.JobWaitsOnce | statApp/src/nlreact.cpp:412-423 | a job's deleter, once notified, never sleeps again |
| ReactorWaits.OpWaitsAgainIff | statApp/src/nlreact.cpp:300-320 | an operation's deleter, once notified, gets the lock when the worker next lets go of it and sleeps again if and only if the next message of the datagram that is for anybody is for its operation |
| ReactorWaits.OpWaitsTwice | statApp/src/nlreact.cpp:466-473 | a run in which it sleeps twice |
| ReactorSafety.SingleFlight | statApp/src/nlreact.cpp:258-268 | at most one job or operation is busy |
| ReactorSafety.DoneAndBusy | statApp/src/nlreact.cpp:85-92 | `done && busy` holds exactly while a job's own callback runs after dropping its last handle, and ends with the callback |
| ReactorSafety.DoneAndBusyOccurs | statApp/src/nlreact.cpp:415-423 | a run that reaches it |
| ReactorSafety.StartsAreOrdered | statApp/src/nlreact.cpp:252-271 | callbacks start in submission order, none twice, across batches |
| ReactorSafety.EarlierJobsAreOver | statApp/src/nlreact.cpp:397-405 | when a job starts every earlier one is done or had no callback, is not running, and will never start |
| ReactorSafety.DispatchIsExact | statApp/src/nlreact.cpp:301-322 | a message reaches an operation if and only if the port id matches and the operation is the undropped one with that sequence number and a callback |
| ReactorSafety.CursorFollowsWalk | statApp/src/nlreact.cpp:300-332 | the worker looks at the messages of a datagram in order, skipping none, each inside the received bytes |
| ReactorSafety.DropErasesOwnEntry | statApp/src/nlreact.cpp:475-476 | dropping an operation erases its own handler entry and leaves all others |
| ReactorSafety.NoLostWakeup | statApp/src/nlreact.cpp:231-249 | a worker in an infinite poll with jobs queued or told to stop has an event there or on its way |
| ReactorSafety.SubmitWakesIff | statApp/src/nlreact.cpp:402-407 | a submit to a blocked worker wakes it if and only if no request is queued |
| ReactorSafety.LostWakeupAfterClientRequest | statApp/src/nlreact.cpp:455-462 | a run in which a client's request makes the next submit lose its wake-up |
| ReactorSafety.FatalExitStrands | statApp/src/nlreact.cpp:242-247 | after a fatal poll error and until a restart nothing starts, and of all jobs accepted before or since exactly those started by then, those without a callback and the cancelled ones are settled |
| ReactorSafety.FatalExitOccurs | statApp/src/nlreact.cpp:242-247 | a run that ends with a job accepted after the worker is gone and never settled while held |
| ReactorLiveness.EveryJobIsSettled | statApp/src/nlreact.cpp:231-271 | every accepted job is settled in the end, unless poll() fails for good, when requests come from the worker or while there is none |
| ReactorLiveness.StopEndsTheWorker | statApp/src/nlreact.cpp:190-200 | after stop() the worker's run() returns |
| ReactorLiveness.CleanExit | statApp/src/nlreact.cpp:231-271 | then the queue is empty, no job can be accepted and every job ever accepted is settled |
| ReactorRequests.EveryRequestIsSent | statApp/src/nlreact.cpp:340-369 | every operation requested is sent in the end, unless the worker ends before, when requests come from the worker or while there is none and a socket asked about over and over is reported writable over and over |
| ReactorRequests.StopStrandsRequests | statApp/src/nlreact.cpp:231 | a run in which a clean stop leaves a request unsent |
| ReactorReplies.NumbersAreNotReused | statApp/src/nlreact.cpp:449-452 | the first 2^32 requests of a run are numbered 0, 1, 2 and so on, so a late message for a dropped operation reaches nobody |
| ReactorReplies.ReadableIsRead | statApp/src/nlreact.cpp:285-289 | a poll that reports the socket readable leads to an attempt to receive |
| ReactorReplies.EveryMessageIsHandled | statApp/src/nlreact.cpp:298-332 | every message of a received datagram is looked at in time and then handed to the undropped operation with its number and a callback, if the port id matches, and to nobody else |
| ReactorIdle.IdleWorkerSleeps | statApp/src/nlreact.cpp:231-281 | when nobody wants anything any more a running worker with nothing to send ends up in a poll without a time limit and with the pipe empty |
| ReactorIdle.TurnTakesBytes | statApp/src/nlreact.cpp:231-281 | one turn of an idle loop takes up to 16 bytes from the pipe, all if they fit, and polls again without a time limit |
| ReactorIdle.BurstWritesOneByte | statApp/src/nlreact.cpp:402-407 | between two batches all submissions, from clients and callbacks, write exactly one wake-up byte if the first finds nothing queued, and none otherwise |
| ReactorLiveness.ControlDecreases | statApp/src/nlreact.cpp:231-370 | each step of the worker's loop decreases a lexicographic measure of batches, position and items left |
| Reactor.Pvt.Start | statApp/src/nlreact.cpp:182-188 | start() takes the step of the system, or none when running |
| Reactor.Pvt.StopBegin | statApp/src/nlreact.cpp:191-197 | the locked half of stop() |
| Reactor.Pvt.Submit | statApp/src/nlreact.cpp:389-407 | submit() from a client or a callback, its wake-up decision, its exception when stopped |
| Reactor.Pvt.Request | statApp/src/nlreact.cpp:434-462 | request() allocates a free sequence number, registers and queues, and never asks for a wake-up; its exception for a message shorter than a header |
| Reactor.Pvt.DropJob | statApp/src/nlreact.cpp:412-423 | the locked part of the job deleter on either kind of thread |
| Reactor.Pvt.DropOp | statApp/src/nlreact.cpp:466-476 | the locked part of the operation deleter on either kind of thread |
| Reactor.Pvt.ClearJob | statApp/src/nlreact.cpp:428 | the end of the job deleter, outside the lock |
| Reactor.Pvt.ClearOp | statApp/src/nlreact.cpp:480 | the end of the operation deleter, outside the lock |
| Reactor.Pvt.RunBatch | statApp/src/nlreact.cpp:253-261 | the batch loop up to the next callback |
| Reactor.BatchLoopFindsFirst | statApp/src/nlreact.cpp:254-261 | it starts the first runnable job of the batch and changes nothing else |
| Reactor.Pvt.FinishJob | statApp/src/nlreact.cpp:266-268 | flags and notify_all after a job's callback |
| Reactor.Pvt.Dispatch | statApp/src/nlreact.cpp:298-332 | the message loop up to the next callback |
| Reactor.Pvt.FinishHandler | statApp/src/nlreact.cpp:319-320 | flag and notify_all after an operation's callback |
| Reactor.MessageLoopFindsFirst | statApp/src/nlreact.cpp:300-314 | it delivers the first message of the walk that is for a live operation |
| Reactor.Pvt.SendReady | statApp/src/nlreact.cpp:340-369 | queued requests are sent front first until none is left |
| SequenceNumbers.FirstFreeIsFirst | statApp/src/nlreact.cpp:449-452 | with fewer than 2^32 numbers in use the wrapping search ends within that many increments at the first free number |
| SequenceNumbers.Allocate | statApp/src/nlreact.cpp:449-452 | the search loop does that |
| Netlink.WalkDatagram | statApp/src/nlreact.cpp:298-335 | the loop over a datagram yields the messages of the walk and the signed remainder |
| Netlink.WalkStaysInside | statApp/src/nlreact.cpp:299-300 | every message lies inside the datagram, aligned, behind the one before |
| Netlink.WalkIsMaximal | statApp/src/nlreact.cpp:300-335 | the walk stops only where no well-formed message starts, and the remainder goes below zero only for an unaligned datagram |
| Netlink.DatagramRoundTrip | statApp/src/nlreact.cpp:298-335 | walking an encoded datagram gives back its messages with nothing left over |
| Attributes.AttrsRoundTrip | statApp/src/tblIFStat.cpp:81-83 | walking encoded attributes gives back exactly that list with nothing left over |
| Attributes.AlignedWalkStaysInside | statApp/src/tblIFStat.cpp:72-83 | with an aligned length the unsigned count never wraps and the walk stays inside |
| Attributes.StaysInsideIff | statApp/src/tblIFStat.cpp:72-83 | the lengths for which the walk stays inside every message are the aligned ones and those too short for an attribute |
| IfStatMessage.BuildRequest | statApp/src/tblIFStat.cpp:32-64 | the constructor fills the buffer with the request's bytes, or throws for an empty name |
| IfStatMessage.RequestDecodes | statApp/src/tblIFStat.cpp:40-62 | the request decodes to one name attribute, the name and a zero, if and only if the name fits 16 bits |
| IfStatValues.RequestLayout | statApp/src/tblIFStat.cpp:40-62 | the request byte by byte |
| IfStatValues.HeaderLayout | statApp/src/nlreact.cpp:298-306 | the fields of a message header, least significant byte first |
| IfStatMessage.Digest | statApp/src/tblIFStat.cpp:67-148 | the digest commits the set() calls of all attributes |
| IfStatDigest.LastLongEnoughWins | statApp/src/tblIFStat.cpp:85-139 | for each parameter the last attribute of its type with enough payload wins |
| IfStatDigest.OrderDoesNotMatter | statApp/src/tblIFStat.cpp:81-146 | with distinct types the table depends on the set of attributes only |
| IfStatDigest.ReplyOrderDoesNotMatter | statApp/src/tblIFStat.cpp:67-148 | two replies that differ in the order of their distinct-typed attributes leave the same table |
| IfStatDigest.CounterAtItsPlace | statApp/src/tblIFStat.cpp:89-118 | each counter is found under its own name with its own value |
| IfStatValues.ValuesArrive | statApp/src/tblIFStat.cpp:67-148 | a link message built byte by byte from the flags, 24 signed 64-bit counters and six other values shows each value under its own name, whatever other attributes come first and however long the attributes are |
| IfStat.AtMostOneOutstanding | statApp/src/tblIFStat.cpp:150-184 | over any run a table has at most one operation in the handler map, and one exactly while it holds a handle |
| IfStat.EveryOtherUpdateAsks | statApp/src/tblIFStat.cpp:153-180 | with updates over a second apart at least one of any two consecutive ones makes a request, registers and queues it |
| IfStat.AcknowledgedThenAsks | statApp/src/tblIFStat.cpp:168-169 | the update after an acknowledgement makes a request |
| IfStat.HeldWhilePending | statApp/src/tblIFStat.cpp:153-159 | without an acknowledgement and an update over a second after the request the table keeps the very operation it asked for |
| IfStat.AbandonedIff | statApp/src/tblIFStat.cpp:153-155 | the next update drops it if and only if it comes over a second after the request, and makes none either way |
| IfStat.IfStatTable.Update | statApp/src/tblIFStat.cpp:150-184 | update() takes the step of the protocol |
| IfStat.IfStatTable.Reply | statApp/src/tblIFStat.cpp:164-179 | the reply callback digests, resets the handle or ignores |
| Scan.AtMostOneUnresolved | statApp/src/devstat.cpp:125-153 | between processings all jobs of a record but the newest are done, not running and cleared |
| Scan.ProcessingsCoalesce | statApp/src/devstat.cpp:125-153 | processings without progress of the worker lead to exactly one update: of all jobs not started before them, the one pending then included, only the newest is ever started |
| Scan.Record.Scan | statApp/src/devstat.cpp:117-153 | a processing submits before it lets go of the old handle |
| Scan.Record.ReleaseReplaced | statApp/src/devstat.cpp:126 | the assignment then drops the old handle: it waits while the callback runs, else that job is cancelled and cleared |
| Scan.LetGoEndsIt | statApp/src/devstat.cpp:126 | that leaves the old job done, without a callback and not running, the record between processings, and all else as it was, or begins the wait |
| Tables.LastSetWins | statApp/src/tblBase.cpp:66-87 | a parameter has the value the last set() gave it |
| Tables.SetIsFound | statApp/src/linStat.h:82-87 | a parameter is found exactly when some set() named it |
| Tables.Update | statApp/src/tblBase.cpp:55-60 | an update that returns, or throws midway, commits exactly the calls it made |
| Tables.ReaderSeesOneTransaction | statApp/src/tblBase.cpp:55-87 | at every moment of every run a reader sees nothing, before the first commit, or the calls of exactly the transaction committed last, however transactions interleave |
| Registry.RefinesPlainMap | statApp/src/tblBase.cpp:89-127 | the weak map behaves as a plain map of live tables |
| Registry.OneLiveTablePerKey | statApp/src/tblBase.cpp:93-126 | over any run no two live tables share a key |
| Registry.Gbl.Lookup | statApp/src/tblBase.cpp:89-127 | lookup() takes that step, errors included |
| Link.ScanDecides | statApp/src/devstat.cpp:55-60 | a string matches with given parts exactly when the left-to-right scanner returns them |
| Link.OneDecomposition | statApp/src/devstat.cpp:55-64 | every link has at most one decomposition |
| Link.PrintThenScan | statApp/src/devstat.cpp:55-64 | printing well-formed parts and scanning gives them back |
| Link.EscapedNameScans | statApp/src/devstat.cpp:55-64 | every name, bars and backslashes escaped, scans back to what was written, which tells the name |
| Link.Alphabets | statApp/src/devstat.cpp:55 | the characters of a factory and of a parameter |
| Link.TailIff | statApp/src/devstat.cpp:55 | what may follow the parameter: nothing, or white space and then anything on the same line |
| Link.EscapeIff | statApp/src/devstat.cpp:55 | a backslash escapes anything but a line end |
| Hwmon.Update | statApp/src/tblHwmon.cpp:143-192 | the nested loops commit the calls of all items and their summary |
| HwmonFacts.FirstOfEachName | statApp/src/tblHwmon.cpp:64-69 | the devices taken are exactly the first ones of each name, the nameless left out |
| HwmonFacts.NoReadingLost | statApp/src/tblHwmon.cpp:143-173 | whatever an update puts into the table for a sensor or a fan (label, temperature, input, target) is found under its name with its own value, when device names are apart |
| HwmonDevices.TempIsShown | statApp/src/tblHwmon.cpp:143-153 | for every temperature sensor of a device taken, the entry under device, label (or file prefix) and number of earlier sensors of that label shows its value, when device names are apart |
| HwmonDevices.FanIsShown | statApp/src/tblHwmon.cpp:165-173 | and for every fan its speed and target |
| HwmonDevices.MaximumIsShown | statApp/src/tblHwmon.cpp:154-188 | `temp_max` and `name_max` are value and name of the hottest sensor of all devices taken, the first of equals, and empty without one |
| HwmonDevices.FansAddUp | statApp/src/tblHwmon.cpp:162-191 | the three fan entries are the numbers of fans, of turning and of stuck ones among all devices taken, and the last two add up to at most the first |
| HwmonFacts.DotFreeNamesAreApart | statApp/src/tblHwmon.cpp:151-153 | names without dots are |
| HwmonNames.DevicesCollideIff | statApp/src/tblHwmon.cpp:151-153 | sensors of two devices can share a name exactly when one device name and a dot begin the other |
| HwmonNames.SameDevice | statApp/src/tblHwmon.cpp:149-153 | on one device names tell label and occurrence |
| HwmonFacts.ShadowedReadingIsLost | statApp/src/tblHwmon.cpp:151-153 | for every device name that shadows another there are sensors of the two that share an entry, which loses a reading |
| HwmonFacts.OccurrencesFill | statApp/src/tblHwmon.cpp:143-149 | a number is the occurrence of some sensor of a label if and only if it is below the count of that label, and no two sensors of a label have the same |
| Duration.Format | statApp/src/devtdelta.cpp:52-60 | the loop prints the text for the unsigned conversion of its input |
| Duration.ParseText | statApp/src/devtdelta.cpp:33-60 | reading the text gives the number back, modulo 2^64 for negative inputs |
| Duration.TextInjective | statApp/src/devtdelta.cpp:52-63 | different inputs print differently |
| Duration.TextFits | statApp/src/devtdelta.cpp:60-63 | no text exceeds 39 characters; hours, minutes and seconds are in range |
| Duration.TextIsNormal | statApp/src/devtdelta.cpp:52-60 | the text is of days, hours below 24, minutes and seconds below 60, zero units but the seconds left out, that add up to the number |
| DurationRecord.Process | statApp/src/devtdelta.cpp:52-63 | the record then holds the text, the rest of what it held before, and a zero in the last place |
| DurationRecord.ShowsTextIff | statApp/src/devtdelta.cpp:62-63 | as a C string it is the text if and only if the text fills the record or the value before had a zero where the text ends |
| DurationRecord.ShowsLastIff | statApp/src/devtdelta.cpp:62-63 | a record, empty at first, shows what it last printed if and only if it never printed anything longer |
| DurationRecord.TailIsLeft | statApp/src/devtdelta.cpp:62-63 | 3600 after 3599 shows as `1 H 0 S S` |
| Decimal.DecReads | statApp/src/devtdelta.cpp:56-60 | reading a printed number gives it back |

## Left out

- Sockets, pipes, threads, `poll()` and scheduling priority: their outcomes are chosen freely by the steps; the wake-up pipe is a byte count without a limit.
- Sends that would block: the front message is moved out of the queue before the test, so what is kept is a null pointer; the model sends only what the socket takes.
- Reactor.Pvt.Start: not while another thread is between the two halves of `stop()`, where the program assigns to a thread not yet joined and terminates.
- Reactor.Pvt.SendReady: stops only when nothing is left, because sends that would block are not modelled.
- `stop()` from a callback, handles dropped after the reactor is gone: excluded, the first deadlocks, the second has no concurrency.
- Reuse of a sequence number after 2^32 requests: a late reply to a dropped operation can then reach the new one.
- Reactor.Pvt: jobs and operations are values in sequences, numbered in order, not objects behind weak pointers; a weak pointer that has expired is the life `Gone`.
- Reactor.Pvt.Submit: what happens to a `std::function` destroyed while it runs is not modelled, only whether the callback is there.
- IfStatMessage.Digest: says nothing about the table when the walk leaves the message, which in C++ is undefined.
- IfStatMessage.RequestDecodes: names of 4 GiB and more, for which the message's own 32-bit length wraps around.
- IfStatMessage.Calls: the statistics structure is taken to end at the last counter read; a newer header asks for more payload.
- IfStat.IfStatTable.Update: time is real-valued and given; a first update by a thread that looks a table up is modelled before the reactor starts.
- IfStat.AtMostOneOutstanding: the table lives on; the deleter of its operation run by a client that destroys the table is not one of its steps.
- Null `Reactor` objects and their exceptions, log messages, `report()`.
- Scan.Record.Scan: ends where the old handle is dropped, since that may have to wait for the worker; `ReleaseReplaced` is what follows.
- Scan: what the submitted job does besides updating (its log messages and `last_ok`).
- Hwmon.Update: reading and parsing the files; devices come with their sensors in map order and numbers already parsed.
- Link: characters outside the C locale.
- The other tables, `devcap.cpp`, `getParam.c`, record plumbing, alarms and reports: short and without properties of their own.
