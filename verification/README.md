# A verified model of the broadcast, scheduling and clustering core

Grimnir Radio has a few pieces of code whose correctness is an argument over many steps: a live fan-out that many
goroutines share, a schedule compiler, a lease protocol, consistent-hash rings, position-numbered queues and a
mirrored log buffer. This project models those pieces in Dafny and proves what they promise over every input, every
run and every interleaving.

Code that changes things in place is modelled in place: ring buffers and queue slices are arrays, mounts, hash rings,
pools, elections, queues and log buffers are classes, and loops are loops. Each such method is proved equal to a
function on values; what the source promises is then proved about those functions, or about runs of a transition
system whose steps are the indivisible accesses of the code. In a transition system a disabled action changes nothing,
so every sequence of actions is a schedule.

| file | what it covers |
|---|---|
| `Seqs.dfy` | suffixes, joined chunks, subsequences |
| `RingBuffer.dfy`, `Mount.dfy` | the byte ring and the mount's methods, in place |
| `MountProtocol.dfy`, `ConnectSeam.dfy`, `ListenerCount.dfy`, `MountFailures.dfy` | every interleaving of feeders, connecting and serving clients, clears and closes on one mount, and runs that fail |
| `SilenceBridge.dfy`, `BridgePacing.dfy` | the silence generator: polls in place, then every interleaving of their steps with feeds and the clock |
| `ServeLoop.dfy` | the per-client write loop and its stall runs |
| `ClockWindow.dfy`, `ClockCompiler.dfy`, `ClockSchedule.dfy`, `ClockTiling.dfy`, `ClockLosses.dfy` | window arithmetic, the schedule compiler, what its output guarantees, and exactly when it loses a proposal |
| `LeaderElection.dfy`, `Election.dfy` | the lease protocol over one expiring key, and the client code that takes its steps |
| `HashRing.dfy`, `Distributor.dfy`, `ExecutorPool.dfy`, `PoolChurn.dfy` | virtual-node search, churn on the two rings, which remove instances differently, and one runner per station |
| `PlayoutQueue.dfy` | position-numbered rows that refine plain lists |
| `LogQuery.dfy`, `LogBuffer.dfy`, `LogHistory.dfy` | the log ring, its station mirrors, and both against the full history |
| `ConfigMerge.dfy`, `ICalText.dfy`, `VersionDiff.dfy` | deep merge, iCalendar escaping, version diffs |

Check everything with `dafny verify dfyconfig.toml`.

## Where the code falls short of its promise

Each of these is proved with a concrete run or input that fails, and with the exact condition under which the code keeps
its promise.

* Whatever a set of feeders does, clients get their chunks in ring order if and only if there is at most one feeder
  (`ConnectSeam.RingOrderIff`); any two can reorder chunks (`ConnectSeam.TwoFeedersReorder`). The silence bridge calls
  Broadcast itself and is one of those feeders: it may still be sending a frame when a feed starts. With one feeder the
  connect seam is exact if and only if nothing was skipped (`ConnectSeam.SeamIsContiguousIff`).
* `Mount.Close` and a client's deferred cleanup both close the client's `done` channel. The cleanup panics exactly when
  Close cut that client first, and Close panics exactly when it meets a client between the two halves of its cleanup
  (`ListenerCount.CleanupPanicsIff`, `ListenerCount.ClosePanicsIff`); both happen (`MountFailures.CleanupCanPanic`,
  `MountFailures.CloseCanPanic`).
* A goroutine that crosses the threshold after Close leaves the listener counter too high, by exactly the number of such
  goroutines (`ListenerCount.CounterMeaning`, with a run in `MountFailures.CounterCanStayHigh`).
* A webstream runs past its clock's window by exactly its offset into the hour (`ClockSchedule.WebstreamOverrun`,
  `ClockLosses.WebstreamCanOverrun`).
* The compiler drops proposals that nothing emitted covers. It never does, for any start and horizon, if and only if in
  every clock that can be selected, among slots of one lane (the webstreams, or one slot id), a slot that would start
  before one listed ahead of it only repeats an offset taken still earlier (`ClockLosses.NothingEverLostIff`,
  `ClockLosses.OffsetsAgainstPositionsLose`).
* EXPIRE does not check who owns the key, and a leader that stalls keeps its flag. In any run each instance that claims
  leadership owns the unexpired key at every moment, so that there is at most one, if and only if every answered EXPIRE
  finds its sender's own live key and time never passes the expiry of a claimant's key (`LeaderElection.ClaimantsOwnIff`).
  For whoever leads, the condition is that each attempt concluding with success still owns the key then, and that time
  never passes a leader's expiry (`LeaderElection.LeadersOwnIff`). `LeaderElection.LateExpire` and
  `LeaderElection.StalledLeader` are runs with two leaders.
* Stop frees the key, so that a successor need not wait (`LeaderElection.HandOver`), but never clears the flag
  (`LeaderElection.StopKeepsFlag`). At most one instance reports leadership if and only if
  none that stopped while leading has a successor (`LeaderElection.OneReporterIff`, `LeaderElection.TwoReport`).
* `Distributor.RemoveInstance` leaves ownerless hashes behind exactly when the instance had a repeated hash
  (`Distributors.RemoveWellFormedIff`). An instance that was added twice always does (`Distributors.StaleHashRemains`).
* Removing an instance from a pool's ring forgets its hashes whoever owns them. Keys of the other instances all stay if
  and only if each forgotten hash of another is followed clockwise, on the ring as it was, by a remaining node of the same
  owner (`PoolChurn.PoolRemoveMovesOnlyOwnIff`, `PoolChurn.PoolRemovalCanTakeKeys`).
* Two pools that know the same members can both run a station. They never do, whatever their histories, if and only if no
  two of the instances share a virtual-node hash (`PoolChurn.SingleRunnerIff`, with the runs in `PoolChurn.BothRun`).
* The order in which two instances join matters exactly when they share a virtual-node hash
  (`ExecutorPools.JoinOrderMattersIff`, `PoolChurn.JoinOrderCanMatter`).
* `Buffer.Clear` empties the main log ring only. A station's mirror forgets what was cleared if and only if the station
  has refilled it since, or had logged nothing before (`LogHistory.MirrorForgetsIff`, `LogHistory.ClearedEntriesAnswer`).
* A version diff whose new version repeats an id replays correctly exactly when no changed entry is superseded by an
  unchanged one (`VersionDiffs.ReplayYieldsNewIff`, `VersionDiffs.ReplayCanFail`).
* Deep merge is associative exactly when the three configurations agree on which shared paths are maps
  (`ConfigMerge.AssociativeIff`, `ConfigMerge.GroupingCanMatter`).
* Escaped text is legal TEXT exactly when the text has no control character but newlines and tabs
  (`ICalText.LegalTextIff`): a carriage return goes through unescaped (`ICalText.CarriageReturnPasses`).

## Model

| member | source | states |
|---|---|---|
| Rings.RingBuffer.constructor | internal/broadcast/server.go:260-265 | a new ring reads as its size in zeroes |
| Rings.RingBuffer.Write | internal/broadcast/server.go:267-275 | writing byte by byte with a modular index leaves exactly the newest `size` bytes of what was there followed by `p`, for any `p`, longer than the ring included |
| Rings.RingBuffer.GetRecent | internal/broadcast/server.go:277-292 | a fresh copy of the last n bytes in order, across the wrap, n clamped to the size |
| Rings.RingBuffer.Clear | internal/broadcast/server.go:294-302 | the ring reads as zeroes again |
| Rings.Wrap | internal/broadcast/server.go:267-292 | the modulus in both index computations is at most one subtraction |
| Rings.RingIsHistoryWindow | internal/broadcast/server.go:267-292 | after any chunks, the ring is the last `size` bytes of zeroes followed by everything written, however it was chunked |
| Mounts.Offer | internal/broadcast/server.go:368-384 | one non-blocking send adds exactly one to queued plus skipped while open, changes nothing once closed, and never exceeds 256 queued |
| Mounts.BurstOverflow | internal/broadcast/server.go:368-384 | a burst keeps its oldest chunks up to the free room, in order, and counts exactly the rest as skipped |
| Mounts.Client.TrySend | internal/broadcast/server.go:368-384 | the select with default and the skip counter are that send |
| Mounts.Mount.constructor | internal/broadcast/server.go:305-330 | no clients, no inputs, and a zeroed ring of five seconds of audio at the bitrate, or 20000 bytes below 32 kbps |
| Mounts.Mount.Broadcast | internal/broadcast/server.go:349-388 | the ring and the byte count advance by the chunk and each registered client gets exactly one offer of it, no other client any |
| Mounts.Mount.AttachClient | internal/broadcast/server.go:490-498 | the preroll is the ring's last bytes at the instant of registration, and the count is the registry's new size |
| Mounts.Mount.Carry | internal/broadcast/server.go:349-388 | after any chunks, each client that was registered holds its channel with all of them offered in order, and the ring holds the newest bytes of their concatenation |
| Mounts.Mount.FeedFrom | internal/broadcast/server.go:504-576 | a feed delivers the concatenation of all its reads to the ring and the byte count, offers its non-empty reads to each client in order, dates itself by the last read that carried data, and leaves the input count as it found it; the done channel ends closed if no other feed is active; the first feed ever anchors the bridge at the bytes delivered before its own |
| Mounts.HeardExactly | internal/broadcast/server.go:545-576 | what goes out is each non-empty read as often as it was read, in the order read, and nothing else |
| Mounts.Mount.Establish | internal/broadcast/server.go:679-691 | counting a listed client for the first time keeps the counter at the number of listed flagged clients; counting one that Close dropped makes it one too high |
| Mounts.Mount.Forget | internal/broadcast/server.go:700-725 | cleanup unlists the client, lowers the counter exactly if it was still listed and flagged, and so keeps its distance from the number of listed flagged clients |
| Mounts.Mount.ClearBuffer | internal/broadcast/server.go:875-878 | the ring reads as zeroes |
| Mounts.Mount.FillGap | internal/broadcast/server.go:445-456 | the inner loop ends, having sent exactly the silent frames that fit under the limit to ring and clients |
| Mounts.FilledInWholeFrames | internal/broadcast/server.go:447-452 | what the loop adds is a whole number of frames |
| MountProtocol.ConservedStep | internal/broadcast/server.go:757-776 | taking, writing or giving up a chunk keeps offered = written + in flight + queued + skipped, and the kept chunks in offer order |
| MountProtocol.FlagsStep | internal/broadcast/server.go:676-698 | every serve step keeps the listener flag tied to the bytes of live chunks written |
| MountProtocol.LockStep | internal/broadcast/server.go:483-498 | at most one connecting client is inside the attach section, and none while a feeder holds the read lock |
| MountProtocol.RingStep | internal/broadcast/server.go:349-388 | after every action of every goroutine the shared ring is the window on what was fed since the last clear |
| MountProtocol.SnapshotsStep | internal/broadcast/server.go:483-498 | a client's snapshot stays the window of the ring at its cut, and no chunk enters the ring between snapshot and registration |
| MountProtocol.SnapshotInFull | internal/broadcast/server.go:277-292 | in every run a client asking for n bytes is cut in with the newest n bytes written since the last clear, or with the whole ring if that is less |
| MountProtocol.OffersStep | internal/broadcast/server.go:349-388 | each client is offered each chunk after its cut exactly once: already offered, or owed by a fan-out in progress, never both |
| MountProtocol.Safety | internal/broadcast/server.go:349-498 | all of these hold after every sequence of actions of any number of feeders, clients, clears and closes |
| ConnectSeam.EveryChunkOnOneSide | internal/broadcast/server.go:483-498 | in every interleaving, each chunk is wholly before a registered client's preroll snapshot, or offered once, or about to be, exactly one of the three |
| ConnectSeam.ChunkConservation | internal/broadcast/server.go:368-384 | while a client is served, chunks broadcast since its cut = written + at most one in flight + queued + skipped + owed by fan-outs in progress; the queue never exceeds 256; what was kept is in order |
| ConnectSeam.SeamIsContiguousIff | internal/broadcast/server.go:483-498 | with one feeder, preroll followed by everything written and queued is byte for byte a suffix of ring-size zeroes and all audio since the clear, no chunk missing, if and only if nothing was skipped |
| ConnectSeam.SoloSafety | internal/broadcast/server.go:504-576 | with one feeder, every client's offers are a run of consecutive chunks from its cut |
| ConnectSeam.RingOrderIff | internal/broadcast/server.go:349-388 | every schedule of a set of feeders offers every open registered client its chunks in ring order if and only if the set has at most one feeder |
| ConnectSeam.TwoFeedersReorder | internal/broadcast/server.go:349-388 | any two feeders under the shared read lock can hand a client chunks in the opposite order to the ring |
| ListenerCount.CounterMeaning | internal/broadcast/server.go:676-725 | in every interleaving the counter is the number of registered flagged clients plus those flagged after Close dropped them; before Close it is exact |
| ListenerCount.PublishedBalance | internal/broadcast/server.go:679-725 | before Close, published connects and those about to be published, less the disconnects, are the counter |
| ListenerCount.FlagMeaning | internal/broadcast/server.go:676-698 | outside the crossing itself a client is flagged exactly when the live chunks written to it reach the threshold; preroll never counts |
| ListenerCount.CleanupPanicsIff | internal/broadcast/server.go:700-725 | the deferred close of `done` panics exactly when Mount.Close cut the client first, so never without a Close |
| ListenerCount.ClosePanicsIff | internal/broadcast/server.go:881-896 | Close panics exactly when it catches a client between closing its channel and leaving the registry |
| MountFailures.CleanupCanPanic | internal/broadcast/server.go:700-705 | a run on any mount in which a cleanup panics |
| MountFailures.CloseCanPanic | internal/broadcast/server.go:881-896 | a run on any mount in which Close panics |
| MountFailures.CounterCanStayHigh | internal/broadcast/server.go:676-691 | a run on any mount after which the counter exceeds the number of registered flagged clients |
| SilenceBridge.Clamp | internal/broadcast/server.go:429-435 | the budget ends within the slack of what was delivered, on either side; one that had drifted further ends on the edge it passed, any other is untouched |
| SilenceBridge.Trunc | internal/broadcast/server.go:447 | the conversion of the budget to whole bytes goes toward zero, for negative budgets too |
| SilenceBridge.Bridge.constructor | internal/broadcast/server.go:407-419 | the budget starts at the bytes already delivered; an unusable bitrate falls back to 16000 bytes a second |
| SilenceBridge.Bridge.AdvanceBudget | internal/broadcast/server.go:425-435 | one tick adds the seconds since the last tick times byteRate to the budget and clamps |
| SilenceBridge.Bridge.Poll | internal/broadcast/server.go:425-481 | the budget grows by the seconds since the last poll times byteRate and is clamped; with an input attached, no client, no feed yet or no more than the grace since the last, nothing is sent; otherwise exactly as many whole frames as the budget allows, so that one more would pass it |
| BridgePacing.PotentialStep | internal/broadcast/server.go:407-459 | no step of the bridge, a feed, a client or the clock raises silence sent plus granted plus credit by more than the seconds it takes times byteRate |
| BridgePacing.NeverAheadOfRealtime | internal/broadcast/server.go:407-459 | in every interleaving, silence counted from bridge start never exceeds the elapsed seconds times byteRate |
| BridgePacing.WindowBound | internal/broadcast/server.go:407-459 | between any two polls, silence is at most the clamp slack plus the seconds between times byteRate |
| BridgePacing.OnePollIsBounded | internal/broadcast/server.go:445-456 | within one poll the inner loop emits at most the slack, so it ends, however feeds interfere |
| BridgePacing.NoSilenceUnlessIdle | internal/broadcast/server.go:468-481 | in every interleaving, no silence goes out while an input is attached or nobody listens |
| BridgePacing.NoSilenceWithinGrace | internal/broadcast/server.go:468-481 | nor before the first feed, nor until the grace after the last fed bytes has passed |
| BridgePacing.UndisturbedPoll | internal/broadcast/server.go:424-457 | the steps of one poll that nothing interrupts in a gap do what a whole poll does: advance and clamp the budget, then send exactly the frames that fit under it |
| BridgePacing.QuietGapAtRealtime | internal/broadcast/server.go:407-459 | in an undisturbed gap polled often enough, the budget is what it was plus the seconds elapsed times byteRate, and the output trails it by less than a frame and a byte, over any number of polls |
| BridgePacing.PollThroughGap | internal/broadcast/server.go:421-457 | the ticker loop through an undisturbed gap is that sequence of polls, each earning for the seconds since the last |
| ServeLoop.Serve | internal/broadcast/server.go:740-823 | the loop goes on over timeouts less than three write timeouts after the first failure of their unbroken run, and ends at the first dead socket, cancelled context or later timeout; stallStart is the time of that first failure, unset after a success; delivered bytes are those of the live writes that succeeded, skipped chunks the live writes that timed out, and the flag follows the delivered bytes |
| ServeLoop.RunBeginIsMaximal | internal/broadcast/server.go:59-83 | the failing run that stallStart dates is unbroken and cannot be extended to earlier events |
| ServeLoop.DropsIff | internal/broadcast/server.go:59-83 | a timeout ends the connection if and only if it comes at least the limit after the first event of the maximal failing run it belongs to |
| ServeLoop.DeliveredExactly | internal/broadcast/server.go:740-776 | the delivered count has one byte for each byte of each live write that succeeded, keepalives and failed writes none |
| ClockWindow.OutOfRangeHours | internal/clock/compiler.go:240-248 | a start hour outside 0..23 acts like 0 and an end hour outside 1..24 like 24, for what the window covers and for what remains of it |
| ClockWindow.WindowIsSpan | internal/clock/compiler.go:229-238 | with valid hours a clock covers exactly the local hours from its start hour on for as long as its span, around midnight if need be |
| ClockWindow.WindowLasts | internal/clock/compiler.go:229-263 | remaining time is in (0, 24h]; a window that applies keeps applying until it elapses and, unless all-day, stops exactly then, overnight included |
| ClockWindow.SpanIsRemainingAtStart | internal/clock/compiler.go:253-273 | for valid hours the nominal span is the remaining time at the start hour |
| ClockCompiler.Sorted | internal/clock/compiler.go:95-99 | the slots by position, none lost or duplicated |
| ClockCompiler.Duration | internal/clock/compiler.go:112-141 | a slot lasts its own duration if it has one, the span if it is a webstream without one, and otherwise until a later next slot or the end of the horizon, never past either; every slot lasts a positive time |
| ClockCompiler.PassOverSlots | internal/clock/compiler.go:106-151 | one hourly pass yields the plans that the reference function on slots gives |
| ClockCompiler.BuildPlansWithSpan | internal/clock/compiler.go:94-156 | the nested loops over cursor and slots yield the reference plan list of the span |
| ClockCompiler.SelectClockHour | internal/clock/compiler.go:217-227 | the first listed clock that has slots and whose window applies, and none only if there is none |
| ClockCompiler.KeepHour | internal/clock/compiler.go:184-209 | the inner loop keeps exactly what de-duplication of the hour's in-horizon plans keeps |
| ClockCompiler.BuildPlansForStation | internal/clock/compiler.go:158-215 | hour by hour filtering and de-duplication emits what de-duplicating the whole candidate list does |
| ClockSchedule.HourPlansExactly | internal/clock/compiler.go:94-156 | the plans of an hour are exactly those of the selected clock's slots, each at its offset into the hour and of its duration |
| ClockSchedule.SpanExactly | internal/clock/compiler.go:94-156 | over a horizon of any length, aligned or not, the plans are exactly those of each slot in each hour that do not start before the start, each at its offset and of its duration |
| ClockSchedule.CandidatesExactly | internal/clock/compiler.go:179-187 | what is proposed is exactly the plans of every hour up to the end that start inside the horizon |
| ClockSchedule.NoOverlap | internal/clock/compiler.go:158-215 | two emitted plans of one slot never overlap, nor do two emitted webstreams, for any clocks, start, horizon and zone |
| ClockSchedule.WebstreamOverrun | internal/clock/compiler.go:112-117 | a webstream plan without its own duration ends its offset after the window does, so exactly with it if and only if it starts with the hour |
| ClockTiling.HorizonTiling | internal/clock/compiler.go:94-215 | over whole hours from an aligned start, with clocks that fill their hour, nothing is dropped, plans follow each other without overlap inside the horizon, and an instant is on air exactly when its hour has a clock |
| ClockLosses.NothingLost | internal/clock/compiler.go:158-215 | if each clock selected in the horizon has its slots in turn, lane by lane, every in-horizon candidate is emitted or starts inside an emitted plan of its slot (any webstream, for a webstream) |
| ClockLosses.OvertakenIsLost | internal/clock/compiler.go:184-209 | a slot overtaken in its lane is lost by the one-hour schedule that starts when it would have started |
| ClockLosses.NothingEverLostIff | internal/clock/compiler.go:158-215 | no start and horizon ever lose a candidate if and only if every clock that can be selected has its slots in turn, lane by lane |
| ClockLosses.OffsetsAgainstPositionsLose | internal/clock/compiler.go:188-208 | a concrete clock that loses, although no webstream starts before the first by position |
| ClockLosses.WebstreamCanOverrun | internal/clock/compiler.go:112-117 | a concrete webstream that ends ten minutes after its window |
| LeaderElection.LeaderOwnsKeyIffInLease | internal/leadership/election.go:249-283 | if every EXPIRE lands within its instance's lease, an instance owns the unexpired key exactly while its lease lasts |
| LeaderElection.ClaimantsOwnIff | internal/leadership/election.go:203-311 | in every run of any number of instances, with lost replies and any timing, each claimant of leadership owns the unexpired key at every moment if and only if every answered EXPIRE finds its sender's own live key and time never passes the expiry of a claimant's key |
| LeaderElection.OwnedLeaderIsUnique | internal/leadership/election.go:203-311 | then at most one running instance leads |
| LeaderElection.LeadersOwnIff | internal/leadership/election.go:203-311 | whoever leads owns the unexpired key at every moment if and only if each attempt that concludes with success still owns it then and time never passes the expiry of a leader's key |
| LeaderElection.TimelyIff | internal/leadership/election.go:203-311 | if every EXPIRE lands within its instance's lease, claimants own the key throughout if and only if time never runs past a claimant's lease |
| LeaderElection.MutualExclusion | internal/leadership/election.go:203-311 | so in timely runs at most one running instance leads and it owns the unexpired key |
| LeaderElection.StalledLeader | internal/leadership/election.go:203-218 | without the second assumption two instances lead |
| LeaderElection.LateExpire | internal/leadership/election.go:272-279 | without the first assumption two instances lead |
| LeaderElection.StopReleasesIff | internal/leadership/election.go:154-173 | stopping frees the key if and only if the instance leads, owns the live key and its release runs; any other key stays as it is |
| LeaderElection.SuccessorWinsIff | internal/leadership/election.go:154-173 | right after the owner stops, another instance's SETNX wins the key if and only if the release ran |
| LeaderElection.HandOver | internal/leadership/election.go:154-311 | in every timely run, once the leader has stopped and released, the next instance to attempt leads without any time passing |
| LeaderElection.StopKeepsFlag | internal/leadership/election.go:154-183 | a leader that stops goes on reporting leadership through every later run, whether or not its release freed the key |
| LeaderElection.ReportsIff | internal/leadership/election.go:154-183 | over whole runs, the stopped instances that report leadership are exactly those that stopped while leading |
| LeaderElection.OneReporterIff | internal/leadership/election.go:154-183 | after a run in which claimants own the key, at most one instance reports leadership if and only if none that stopped while leading has a successor |
| LeaderElection.TwoReport | internal/leadership/election.go:154-183 | a timely run after which two instances report leadership |
| ElectionClient.Redis.SetNX | internal/leadership/election.go:250-260 | SETNX stores the key only if no live key is there; a lost reply may still have stored it |
| ElectionClient.Redis.Expire | internal/leadership/election.go:272-279 | EXPIRE prolongs whatever live key is there |
| ElectionClient.Redis.Release | internal/leadership/election.go:286-305 | the script deletes the key for its live owner and leaves any other key alone |
| ElectionClient.Election.AcquireLock | internal/leadership/election.go:249-283 | the key afterwards and the verdict for every pattern of lost and unsent commands |
| ElectionClient.Election.AttemptLeadership | internal/leadership/election.go:220-246 | an uninterrupted attempt is the protocol's SETNX, GET, EXPIRE, conclude steps, whatever replies get lost |
| ElectionClient.Election.Stop | internal/leadership/election.go:154-183 | stopping is the protocol's stop step: the release only if the instance leads, and the flag stays |
| ElectionClient.AttemptOutcome | internal/leadership/election.go:220-283 | those steps leave the key and flag that acquireLock computes |
| ElectionClient.AnsweredAttemptIsRight | internal/leadership/election.go:249-283 | an answered attempt ends leading exactly if it owns the live key, freshly prolonged, which happens exactly if no one else held it |
| HashRing.Search | internal/executor/distributor.go:94-96 | binary search finds the boundary between hashes below the key and the rest |
| HashRing.FindNode | internal/executor/distributor.go:91-104 | with wrap-around, the hash at least clockwise distance from the key modulo 2^32 |
| HashRing.NearestIsUnique | internal/executor/distributor.go:91-104 | there is only one such hash |
| HashRing.AscendingUnique | internal/executor/distributor.go:58-61 | a sorted ring is determined by its hashes with repetitions |
| Distributors.Distributor.constructor | internal/executor/distributor.go:32-42 | an empty ring; a non-positive virtual-node count means 500 |
| Distributors.Distributor.AddInstance | internal/executor/distributor.go:45-62 | the loop and re-sort add every virtual node, repeated or not, and claim its hash for the instance |
| Distributors.Distributor.RemoveInstance | internal/executor/distributor.go:65-80 | the filtering loop that deletes owners while it runs |
| Distributors.Distributor.GetInstance | internal/executor/distributor.go:83-105 | the owner of the nearest virtual node clockwise; an error exactly on an empty ring |
| Distributors.Distributor.GetInstanceStations | internal/executor/distributor.go:122-133 | the listed stations assigned to the instance, each as often as listed and in that order |
| Distributors.Distributor.GetAllAssignments | internal/executor/distributor.go:108-119 | each listed station with its assigned instance, nothing on an empty ring |
| Distributors.StationsArePartitioned | internal/executor/distributor.go:108-133 | on a ring with nodes each listed station is on the list of exactly one instance, the one the map assigns it to |
| Distributors.Distributor.CalculateChurn | internal/executor/distributor.go:155-196 | the share of listed stations whose assignment the operation would change: for an addition those the newcomer gains, for a removal that leaves no ownerless hash those the instance had; the ring itself stays as it is; 0 for unknown operations or no stations |
| Distributors.AddMovesOnlyToNew | internal/executor/distributor.go:45-62 | adding an instance moves a key to that instance or not at all, on any ring |
| Distributors.NewcomerOwnsItsNodes | internal/executor/distributor.go:45-62 | keys that fall on a newcomer's virtual nodes are assigned to it, whoever had them |
| Distributors.AddChurns | internal/executor/distributor.go:155-196 | the stations counted for an addition are exactly those the new instance gains |
| Distributors.RemoveMovesOnlyOwn | internal/executor/distributor.go:65-80 | removing an instance moves no key of another, repeated hashes or not |
| Distributors.RemoveWellFormedIff | internal/executor/distributor.go:65-80 | every hash left has an owner if and only if none of the removed instance's hashes was repeated |
| Distributors.StaleHashRemains | internal/executor/distributor.go:45-80 | on any ring, an instance added twice and removed leaves each of its virtual nodes behind, and keys that fall there get the empty owner |
| Distributors.RemovedOwnsNothing | internal/executor/distributor.go:65-80 | then the removed instance's keys all go to remaining instances |
| Distributors.RemoveChurns | internal/executor/distributor.go:155-196 | then the stations counted for a removal are exactly those the instance had |
| Distributors.AddThenRemoveRestoresIff | internal/executor/distributor.go:45-80 | adding and removing restores the ring if and only if the instance was absent and its virtual nodes distinct and new |
| Distributors.AddThenRemoveAssignsIff | internal/executor/distributor.go:45-105 | it restores every assignment under exactly that condition too, when every instance on the ring has a name |
| ExecutorPools.ConsistentHashRing.AddNode | internal/executor/pool.go:60-75 | the replicas are appended, claimed and sorted |
| ExecutorPools.ConsistentHashRing.RemoveNode | internal/executor/pool.go:77-96 | the instance's hashes are forgotten whoever owns them and the node list rebuilt from the map, in whatever order it is listed |
| ExecutorPools.ConsistentHashRing.GetNode | internal/executor/pool.go:98-119 | the owner of the nearest node; not found exactly on an empty ring |
| ExecutorPools.Pool.constructor | internal/executor/pool.go:129-145 | a pool that knows itself, alone on the ring, running nothing |
| ExecutorPools.Pool.StartExecutor | internal/executor/pool.go:172-214 | starts exactly when the station is not running, is owned here, the media engine is up and the start succeeds; then that station runs too, otherwise nothing changes |
| ExecutorPools.Pool.StopExecutor | internal/executor/pool.go:239-260 | forgets the executor exactly when it ran and its stop succeeded, and no other |
| ExecutorPools.Pool.RebalanceExecutors | internal/executor/pool.go:342-367 | a station runs afterwards if and only if it ran before and this ring assigns it here |
| ExecutorPools.Pool.AddInstance | internal/executor/pool.go:284-306 | a newcomer joins members and ring, and of the running stations exactly those still owned here go on; a known one changes nothing |
| ExecutorPools.Pool.RemoveInstance | internal/executor/pool.go:309-338 | a member leaves members and ring, and of the running stations exactly those still owned here go on; an unknown one changes nothing |
| ExecutorPools.EveryRunnerIsOwner | internal/executor/pool.go:172-380 | after every operation of every run, each running executor's station is owned by this instance's ring |
| ExecutorPools.RebalanceKeepsOwned | internal/executor/pool.go:284-367 | a member that joins or leaves stops a running station if and only if the ring then assigns it elsewhere |
| ExecutorPools.JoinStopsExactly | internal/executor/pool.go:284-367 | in every run, when another instance joins, the running stations that stop are exactly those it owns from then on |
| ExecutorPools.RingFollowsMembers | internal/executor/pool.go:60-96 | without collisions the ring after any history is determined by the member set |
| ExecutorPools.SingleRunner | internal/executor/pool.go:172-380 | without collisions two pools with equal members, by any histories, never both run a station |
| ExecutorPools.JoinOrderMattersIff | internal/executor/pool.go:60-75 | two join orders give the same owners if and only if the two instances share no hash |
| PoolChurn.LeftAt | internal/executor/pool.go:77-96 | after a removal, a key whose node stays keeps its owner and a key whose node goes gets what the node's own position gets |
| PoolChurn.StaysPutIff | internal/executor/pool.go:77-119 | the position of a hash keeps its owner through a removal if and only if, on the ring before it, the next node clockwise that is not removed belongs to that owner |
| PoolChurn.PoolRemoveMovesOnlyOwnIff | internal/executor/pool.go:77-119 | a removal leaves every key of the others in place if and only if that holds of each removed hash that another instance owned |
| PoolChurn.PoolRemoveMovesOnlyOwn | internal/executor/pool.go:77-96 | so it does when no other instance owns a removed hash |
| PoolChurn.OwnersAreVnodes | internal/executor/pool.go:60-96 | in every run, collisions or not, each hash is a virtual node of its owner |
| PoolChurn.RunRemovalEmpties | internal/executor/pool.go:309-338 | in every run, a removed instance keeps no key: all go to remaining owners |
| PoolChurn.PoolAddThenRemoveIff | internal/executor/pool.go:60-96 | adding and removing restores the owners if and only if the instance's virtual nodes were new to the ring |
| PoolChurn.PoolAddThenRemoveRestoresIff | internal/executor/pool.go:60-119 | it restores every assignment if and only if, on the ring before, each hash it takes over is followed clockwise by a node of the same owner that it does not take |
| PoolChurn.PoolRemovalCanTakeKeys | internal/executor/pool.go:77-96 | a run in which removing one instance takes a key from another that stays a member |
| PoolChurn.JoinOrderCanMatter | internal/executor/pool.go:60-75 | two instances whose join order decides an owner |
| PoolChurn.SingleRunnerIff | internal/executor/pool.go:172-380 | pools with equal members never both run a station, for any histories over the given instances and any place of the station on the ring, if and only if no two of the instances share a virtual-node hash |
| PoolChurn.BothRun | internal/executor/pool.go:284-338 | with a shared hash, two histories of leaving and rejoining after which both pools run a station |
| PlayoutQueues.NewPosition | internal/api/playout_queue.go:204-210 | the new position is within 1..count+1 |
| PlayoutQueues.CreateInserts | internal/api/playout_queue.go:196-219 | shifting rows and creating one inserts into the list at the clamped index, with positions 1..n again |
| PlayoutQueues.CreateLeavesOthers | internal/api/playout_queue.go:212-219 | other (station, mount) queues are untouched |
| PlayoutQueues.DeleteRemoves | internal/api/playout_queue.go:334-341 | deleting a row and closing the gap removes one list element, with positions 1..n again |
| PlayoutQueues.DeleteLeavesOthers | internal/api/playout_queue.go:334-341 | other queues are untouched |
| PlayoutQueues.CloseGap | internal/api/playout_queue.go:394 | the first append moves the elements after the gap down over the shared backing array |
| PlayoutQueues.SpliceIn | internal/api/playout_queue.go:395-399 | the nested append copies the tail before it overwrites it, so the item goes in and nothing is lost |
| PlayoutQueues.Splice | internal/api/playout_queue.go:393-399 | both appends on one array move one element and keep the others in order |
| PlayoutQueues.MovedIsPermutation | internal/api/playout_queue.go:393-399 | a move keeps the same distinct items |
| PlayoutQueues.MovedToTarget | internal/api/playout_queue.go:382-399 | the moved item stands at the requested position, at the front for one below 1, at the back for one past the end |
| PlayoutQueues.OrderedItems | internal/api/playout_queue.go:364-369 | the ordered read returns the list, item i at position i + 1 |
| PlayoutQueues.FindItem | internal/api/playout_queue.go:371-380 | the search finds the item's index |
| PlayoutQueues.Renumber | internal/api/playout_queue.go:401-411 | skipping rows that already fit, the loop gives every listed row its place |
| PlayoutQueues.ReorderRows | internal/api/playout_queue.go:362-412 | the whole transaction renumbers to the list with one item moved, or writes nothing when it is there already; the item ends at the requested position, or at the end it lies beyond |
| PlayoutQueues.RenumberLists | internal/api/playout_queue.go:401-411 | after renumbering, the queue is the new list at positions 1..n |
| PlayoutQueues.RenumberLeavesOthers | internal/api/playout_queue.go:401-411 | other queues are untouched |
| PlayoutQueues.ListIsUnique | internal/api/playout_queue.go:364-369 | a table stores at most one list per queue |
| PlayoutQueues.CountIsLength | internal/api/playout_queue.go:197-202 | the counted rows are the list's length |
| PlayoutQueues.PlayoutQueue.Create | internal/api/playout_queue.go:196-223 | every queue of the table stays positions 1..n; the addressed one is its old list with the item at the requested position if that is within the list, else last; no other row changes but in position |
| PlayoutQueues.PlayoutQueue.Delete | internal/api/playout_queue.go:311-344 | the same with the item removed; nothing changes for an unknown id |
| PlayoutQueues.PlayoutQueue.Reorder | internal/api/playout_queue.go:248-414 | the same with the item moved to the requested position, or to the end it lies beyond, and the others in their old order; nothing changes for an unknown id |
| LogQueries.EqualFoldAt | internal/logbuffer/buffer.go:506-525 | the loop decides equality up to ASCII case at one offset |
| LogQueries.ContainsIgnoreCase | internal/logbuffer/buffer.go:490-504 | true exactly if the substring occurs somewhere up to ASCII case, the empty one everywhere |
| LogQueries.OccursIff | internal/logbuffer/buffer.go:490-525 | that is: the lower-cased text contains the lower-cased pattern |
| LogQueries.FoldsTheAlphabet | internal/logbuffer/buffer.go:506-525 | lower-casing maps the 26 capitals to their small letters and leaves every other character |
| LogQueries.SearchEntry | internal/logbuffer/buffer.go:253-274 | found in the message, or in the component, or in a field |
| LogQueries.MatchEntry | internal/logbuffer/buffer.go:230-274 | an entry is kept exactly if it passes every filter that is set |
| LogQueries.ReverseInPlace | internal/logbuffer/buffer.go:280-284 | the in-place swap loop reverses |
| LogQueries.Select | internal/logbuffer/buffer.go:228-291 | every entry of the result satisfies each filter that is set; without a limit every entry that does is in it, and otherwise as many as the limit allows; the loop with reversal and limit is filter, then reverse, then limit |
| LogQueries.NewestFirst | internal/logbuffer/buffer.go:279-291 | a descending answer lists the newest matches, newest first |
| LogQueries.OldestFirst | internal/logbuffer/buffer.go:279-291 | any other answer lists the oldest matches, oldest first |
| LogQueries.FilteredIsFilter | internal/logbuffer/buffer.go:228-277 | filtering keeps exactly the matching entries with their multiplicity |
| LogQueries.FilteredInOrder | internal/logbuffer/buffer.go:228-277 | and keeps them in the order they were logged |
| LogBuffers.Ring.Add | internal/logbuffer/buffer.go:136-144 | the ring holds the newest `capacity` of what it held and the new entry |
| LogBuffers.Ring.GetAll | internal/logbuffer/buffer.go:175-196 | a fresh copy, oldest to newest, across the wrap |
| LogBuffers.Ring.Clear | internal/logbuffer/buffer.go:411-416 | the ring is empty |
| LogBuffers.Buffer.constructor | internal/logbuffer/buffer.go:106-115 | an empty buffer; a non-positive capacity means 10000 |
| LogBuffers.Buffer.EnableStationBuffers | internal/logbuffer/buffer.go:119-133 | mirroring is switched on with 200 stations by default; a non-positive capacity leaves it as it was |
| LogBuffers.Buffer.Add | internal/logbuffer/buffer.go:136-172 | main ring and mirrors advance together, a new mirror being opened only while there is room, and no ring shares its storage with another |
| LogBuffers.Buffer.GetAll | internal/logbuffer/buffer.go:175-196 | the main ring's contents |
| LogBuffers.Buffer.Query | internal/logbuffer/buffer.go:210-292 | answers from the station's mirror if it has one, otherwise from the main ring, with entries that pass each filter and no more than the limit |
| LogBuffers.Buffer.Clear | internal/logbuffer/buffer.go:411-416 | empties the main ring and leaves every mirror |
| LogHistory.MainIsRecentHistory | internal/logbuffer/buffer.go:136-196 | after any run the main ring is the last `capacity` entries added since the last Clear |
| LogHistory.MirrorsAreHistory | internal/logbuffer/buffer.go:136-172 | a station has a mirror exactly if it was among the first maxStations to log, and it holds the last stationCapacity of all its entries, evicted or cleared ones included |
| LogHistory.StationQuery | internal/logbuffer/buffer.go:210-292 | a query for such a station answers filter, then order, then limit over the station's last stationCapacity entries of the full history |
| LogHistory.OtherQuery | internal/logbuffer/buffer.go:210-292 | any other query sees the last `capacity` entries since Clear |
| LogHistory.MirrorForgetsIff | internal/logbuffer/buffer.go:136-172 | a mirror shows the station's entries since the last Clear if and only if at least its capacity of them came since, or none came before |
| LogHistory.ClearedEntriesAnswer | internal/logbuffer/buffer.go:411-416 | a station query answers with an entry logged before the Clear |
| ConfigMerge.DeepMerge | internal/landingpage/themes.go:377-397 | the loops and recursion compute the merge |
| ConfigMerge.MergeConfig | internal/landingpage/themes.go:365-374 | the merge over the theme's defaults, which stand alone without user configuration |
| ConfigMerge.MergeLookup | internal/landingpage/themes.go:377-397 | at every path the override wins, two maps merge, and the base shows through exactly where the override neither has a value nor a non-map on the way |
| ConfigMerge.AbsorbedIff | internal/landingpage/themes.go:377-397 | an override changes nothing if and only if everything in it is there already |
| ConfigMerge.Idempotence | internal/landingpage/themes.go:377-397 | merge(x,x)=x and merging the same override twice is merging it once |
| ConfigMerge.DominatesIff | internal/landingpage/themes.go:377-397 | the base is invisible if and only if the override has a value wherever both are maps |
| ConfigMerge.AssociativeIff | internal/landingpage/themes.go:377-397 | merging is associative if and only if the three configurations agree on which shared paths are maps, up to what the last overrides |
| ConfigMerge.GroupingCanMatter | internal/landingpage/themes.go:377-397 | three configurations for which the two groupings differ |
| ICalText.PassesAreSubstitution | internal/api/public_schedule.go:429-435 | the four replacement passes, each over the whole string, are one substitution per character |
| ICalText.RoundTrip | internal/api/public_schedule.go:429-435 | reading TEXT back per section 3.3.11 of RFC 5545 undoes the escaping on every string, and escaping is injective |
| ICalText.LegalTextIff | internal/api/public_schedule.go:429-435 | the escaped form is TEXT of that section if and only if the text has no control character but newlines and tabs |
| ICalText.CarriageReturnPasses | internal/api/public_schedule.go:429-435 | any line that ends in a carriage return and a newline is escaped to something that is not TEXT |
| ICalText.EscapedIsOneLine | internal/api/public_schedule.go:429-435 | the output never contains a raw newline |
| VersionDiffs.GetChanges | internal/api/schedule_versions.go:413-433 | for each of the five fields: it is in the change map if and only if the two values differ, and then with those two values |
| VersionDiffs.ChangedIffExplained | internal/api/schedule_versions.go:404-433 | an entry counts as changed exactly when its change map is non-empty |
| VersionDiffs.Table | internal/api/schedule_versions.go:367-376 | the lookup table holds the last entry of every id |
| VersionDiffs.CalculateDiff | internal/api/schedule_versions.go:358-401 | the loops compute the three lists in order |
| VersionDiffs.AbsentExactly | internal/api/schedule_versions.go:378-398 | added and removed list exactly the entries whose id the other version lacks |
| VersionDiffs.ModifiedExactly | internal/api/schedule_versions.go:378-390 | modified lists exactly the entries with a non-empty change map, each explained against its old self |
| VersionDiffs.ListsFollowSnapshot | internal/api/schedule_versions.go:378-398 | all three lists follow the order of the snapshot they are read from |
| VersionDiffs.SwappedVersions | internal/api/schedule_versions.go:358-401 | swapping the versions swaps added and removed; with distinct ids it turns every modification around |
| VersionDiffs.ReplayYieldsNewIff | internal/api/schedule_versions.go:358-401 | removing, overwriting and inserting what the diff says turns the old version's compared fields into the new one's if and only if no changed entry is superseded by an unchanged one of its id |
| VersionDiffs.ReplayCanFail | internal/api/schedule_versions.go:358-401 | two versions whose diff does not replay to the new one |
| VersionDiffs.DistinctVersionsReplay | internal/api/schedule_versions.go:358-401 | with distinct ids it always does, and the reverse diff undoes it |

## Left out

- HTTP routing, JSON, authentication, roles, WebSockets, the CLI, templates, logging, metrics and events other than the listener announcements: plumbing around the modelled code.
- GORM, Redis, NATS and GStreamer: only the rows, the one expiring key, and success or failure of a start or stop appear.
- Integer widths: positions, counters, byte counts and times are unbounded; hashes are 32-bit values.
- Floating point: the bridge's budget, byte rate and elapsed seconds are real numbers, and so is the churn ratio.
- Daylight saving: the station's zone is a fixed offset.
- ClockCompiler.Sorted: slots of equal position keep their listed order; Go's sort may order more than twelve of them differently.
- ClockCompiler.PassOverSlots: a slot's own duration is a number; reading it from the payload and copying the payload into the plan are not part of this model.
- ClockCompiler.SelectClockHour: takes the clocks in the order listed; the database query that orders them by end hour minus start hour, and its rounding of the start time, are not part of this model, so no claim is made that the narrowest window wins.
- Mounts.Mount.constructor: the reader, logger and goroutine start are not part of this model; neither are the contents of the silent frame and the preroll size.
- SilenceBridge.Bridge.Poll: reads the gap's clock once a poll and is uninterrupted; in BridgePacing the loads of the byte count and of the last feed time, the look at the mount under its lock, the look at the clock, the budget test and the emission are steps of their own.
- ClockLosses.NothingEverLostIff: speaks of clocks whose slots start within their own hour; a slot may carry any duration.
- ServeLoop.Serve: events arrive in a given order with given times; when the keepalive timer fires is not modelled.
- ListenerCount.ClosePanicsIff: Close is one step under the lock, and nothing is followed after its panic.
- LeaderElection.MutualExclusion: speaks of instances that have not called Stop; a command still in flight when its instance stops is not followed.
- Distributors.AddThenRemoveRestoresIff: the empty instance id, which the code cannot tell from an absent owner, is excluded here and in the other removal results.
- The CRC32 and FNV functions and the key formats of virtual nodes: arbitrary functions to 32-bit values.
- GetInstances, Pool.Start, Pool.Stop and the executor's internals: no property beyond those of the ring.
- ExecutorPools.Pool.AddInstance: the order in which members are listed is not modelled; nothing reads it.
- PlayoutQueues.PlayoutQueue.Create: each handler is one atomic step on the table; request validation, roles and database errors are not modelled.
- LogBuffers.Buffer.Add: a station buffer is a plain ring, since no station buffer ever has mirrors of its own; field values are strings, and parsing of log lines, Stats and GetComponents are not part of this model.
- ConfigMerge.DeepMerge: maps are values here, so the sharing of nested maps between result and inputs is not captured.
- ConfigMerge.MergeConfig: the theme's defaults are a parameter; the theme tables are not part of this model.
- VersionDiffs.CalculateDiff: the version numbers are carried along unused and left out; times are instants, and title and metadata are one opaque field.
