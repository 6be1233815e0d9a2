# A verified model of muduo-chat's delivery core

This project states, in Dafny, what the message-delivery core of muduo-chat does and proves what it promises. Five
parts of the system are modelled, each in the form the program has: objects whose methods change fields in place are
classes proved against value-level functions, concurrent code is a state machine with one action per atomic step, and
the promises are lemmas over every run.

- **Reliable delivery** (`Domain`, `Ledger`, `Recorder`, `RetryTiming`, `Protocol*`, `MessageStore`, `Messaging`):
  accepting messages once, numbering them per conversation, claiming deliveries head-of-line under leases, fencing old
  logins, retrying, expiring and cleaning up. `Protocol.World` is the whole state; a run is any sequence of public
  operations and restarts, against a sink that answers each attempt as it likes and clocks that show any readings. An
  operation is atomic with respect to crashes: a process stops between two operations, never inside one. The classes of
  `MessageStore` and `Messaging` are the program's own loops and field updates, each proved to take the state exactly
  where the protocol function says.
- **Keyed serial executor** (`SerialExecutor`, `ExecutorProgress`): submitters and workers interleaved at lock regions.
- **Bounded send** (`Backpressure`, `OutputCodecs`): senders reserving bytes by compare-and-swap while the loop thread
  writes, buffers and releases.
- **Outbox relay and event consumer** (`OutboxRelay`, `LocalOutboxRelay`, `EventConsumer`, `ConsumerAnswers`,
  `ConsumerReplay`, `ConsumerRefetch`).
- **Framing and wire formats** (`Bytes`, `ByteBuffer`, `FrameCodec`, `LineCodec`, `Varint`, `Crc32c`, `RecordBatch`,
  `ParserTermination`).

`Counting` holds facts about the sizes of sets that several parts use. `dafny verify dfyconfig.toml` checks the whole
project.

## Where a promise holds only under a condition

Five promises are false as they stand. Each has a lemma with an input on which it fails and a lemma giving the exact
condition.

- The claim loop ends, from every state and whatever the sink answers, if and only if a lease has a duration
  (`ProtocolTermination.ClaimEndsExactly`). With a lease of no duration, one direct message and a sink that keeps
  admitting, it goes on for any number of attempts (`ProtocolTermination.OneMessageForever`).
- A sender told to pause is called back at the low-water mark, in every run, if and only if the hard limit is not above
  the pause mark, or the pause mark is at least twice the resume mark and the output codec refuses no frame that fits
  the hard limit (`Backpressure.NoSignalLostExactly`). The default limits qualify. The binary codec announces a body it
  would refuse by an impossible size before anything is reserved, so no frame within the hard limit is refused later
  unless that limit is the impossible size itself (`OutputCodecs.NoneRefusedLateExactly`); the line codec refuses
  nothing. With either, the marks decide (`OutputCodecs.CodecsKeepSignal`).
- A line-framed message survives the round trip if and only if it is not empty, holds no line feed and does not end in a
  carriage return (`LineCodec.RoundTripExactly`); one that ends in a carriage return comes back without it
  (`LineCodec.CarriageReturnLost`).
- A record already advanced is not dead-lettered when it comes again, in any run of polls that handles at most n
  conversations after its last restart, if and only if n is at most the window's capacity
  (`ConsumerReplay.ReplaySafeExactly`). The failing run works at every batch limit: an event published twice, polled one
  record at a time, all commits landing (`ConsumerReplay.RepublishedHurts`). When the repetition is one batch fetched
  twice because its commit did not land, the batch limit decides: from every window a run can reach it is harmless if
  and only if the limit is at most two (`ConsumerRefetch.AlwaysRefetchSafeExactly`), from a fresh start if and only if
  the limit is at most the capacity plus one (`ConsumerRefetch.RefetchSafeExactly`).
- The record-set parser ends on all bytes whose batch headers, those its loop comes to, have at least a given length if
  and only if that length is -11 or more (`ParserTermination.SafeLengthsExactly`). Any header of length -12 that it does
  not refuse keeps it going forever (`ParserTermination.StandingStill`), such as one in 61 bytes
  (`ParserTermination.StuckForever`).

## Reading notes

- ReliableMessaging and the DeliveryCoordinator it owns are one class, since every public operation holds one lock.
- Three parts of `Protocol.World` are history the program does not keep: the log of attempts, the rows cleaned up and
  the acknowledgements received. Other history fields are named where they are declared.
- The delivery table is the store's ordered map, kept as a sequence in key order, because bounded scans depend on it.
- The metric identity of a delivery is taken as its (message, recipient) pair; the program uses a 64-bit hash of it.
- Integers are unbounded. Where a width matters it is written out: the 64-bit word of a varint, the 32-bit fields of a
  batch, the end of a batch of negative length, the checksum register. The back-off loop is shown to stay within
  max(base, cap).
- Jitter is any real factor; the truncation after multiplying is modelled, floating-point rounding is not.
- The clock of the scheduler is a function from the number of the reading to its value, and may run backwards.
- The parser's loop is watched for a given number of turns, because it need not end. A result, once there, does not
  change when it is watched longer, and if there is none after one turn more than there are bytes there never is one.
- `recordDeliveryTransition` throws for an unknown delivery; every caller discards the exception, so the model returns
  without a change.

## Model

| member | source | states |
|---|---|---|
| `ProtocolTheorems.DeliveryOrder` | chatserver/include/app/DeliveryCoordinator.hpp:319-453 | over every run and restart, the attempts of one recipient's conversation never go back to an earlier sequence number |
| `ProtocolTheorems.AttemptsAreFaithful` | chatserver/include/app/DeliveryCoordinator.hpp:372-384 | every attempt hands over its message's sender, kind, target and content unchanged, to one of its recipients |
| `ProtocolTheorems.OneInFlight` | chatserver/include/app/DeliveryCoordinator.hpp:335-452 | in every reachable state each (recipient, conversation) has at most one row in flight, and it is the lowest-numbered open one |
| `ProtocolTheorems.ActiveSessionHoldsLeases` | chatserver/include/app/DeliveryCoordinator.hpp:114-153 | an active session is the newest generation observed, and every row in flight of its user is leased to it under the current boot id |
| `ProtocolTheorems.SupersededEventsIgnored` | chatserver/include/app/DeliveryCoordinator.hpp:43-64 | an ACK, resume or login of a generation older than the active or the newest observed one changes nothing |
| `ProtocolTheorems.LateCloseHarmless` | chatserver/include/app/DeliveryCoordinator.hpp:159-189 | a late close of a superseded session takes no row from the new one |
| `ProtocolTheorems.NoObligationLost` | chatserver/src/app/InMemoryMessageStore.cpp:208-233 | every accepted (message, recipient) has its row or was cleaned up; each cleanup came at a clock reading at least the configured retention after that row's acknowledgement, or after its expiry |
| `ProtocolTheorems.AcknowledgedIsFinal` | chatserver/src/app/InMemoryMessageStore.cpp:182-206 | a row keeps its identity and its Acknowledged state through every later run until a cleanup removes it |
| `ProtocolTheorems.AcknowledgedByRecipient` | chatserver/include/app/DeliveryCoordinator.hpp:69-87 | a row is Acknowledged only through an ACK of its own recipient or, for a legacy id, one admission by the sink |
| `ProtocolTheorems.AttemptsAreAdmissions` | chatserver/include/app/DeliveryCoordinator.hpp:384-450 | the attempt count is the number of admissions, attempts are numbered by them, a legacy message is admitted at most once and never rests in flight |
| `ProtocolTheorems.LedgerIsExact` | chatserver/src/app/InMemoryMessageStore.cpp:66-87 | in every reachable state keys, messages and outbox events are in bijection, and sequences of each conversation are exactly 1..n in message-id order |
| `ProtocolTheorems.AcceptIsIdempotent` | chatserver/src/app/ReliableMessaging.cpp:85-115 | after any later run, the same key and payload is answered with the first message's identity |
| `ProtocolTheorems.RepeatAddsNothing` | chatserver/src/app/ReliableMessaging.cpp:90-115 | a duplicate or conflicting accept adds no message, row or outbox event |
| `ProtocolTermination.TurnsAreTheClaim` | chatserver/include/app/DeliveryCoordinator.hpp:337-451 | the loop's turns, taken until the head is not claimable or the sink stops it, are the protocol's claim of a conversation |
| `ProtocolTermination.EmptyLeaseNeverEnds` | chatserver/include/app/DeliveryCoordinator.hpp:357-365 | with a lease of no duration and a sink that admits, after any number n of turns there are n more attempts and the head is claimable again |
| `ProtocolTermination.OneWaitingArises` | chatserver/src/app/ReliableMessaging.cpp:117-168 | one direct message accepted while its recipient is offline leads to the state of the next row |
| `ProtocolTermination.OneMessageForever` | chatserver/include/app/DeliveryCoordinator.hpp:337-451 | the state after accepting one direct message is such a case |
| `ProtocolTermination.ClaimEndsExactly` | chatserver/include/app/DeliveryCoordinator.hpp:337-451 | the claim loop ends from every state, for all answers of the sink, if and only if the lease is positive |
| `ProtocolTheorems.StepInv` | chatserver/src/app/ReliableMessaging.cpp:85-223 | every public operation and a restart keep the whole delivery invariant |
| `ProtocolTheorems.RunInv` | chatserver/src/app/ReliableMessaging.cpp:85-292 | so does every run, and rows only evolve as allowed |
| `ProtocolSafety.TriedInv` | chatserver/include/app/DeliveryCoordinator.hpp:366-450 | one attempt on the head of a lane keeps the invariant whatever the sink answers |
| `ProtocolSafety.SoftenedInv` | chatserver/include/app/DeliveryCoordinator.hpp:131-150 | taking leases back, acknowledging or expiring rows keeps the invariant |
| `ProtocolRuns.ClaimForInv` | chatserver/include/app/DeliveryCoordinator.hpp:319-453 | a whole claim keeps the invariant and touches rows only by admissions |
| `ProtocolRuns.SessionAvailableInv` | chatserver/include/app/DeliveryCoordinator.hpp:114-153 | a login fences every stale lease and restores the invariant under the new session |
| `ProtocolRuns.SessionClosedInv` | chatserver/include/app/DeliveryCoordinator.hpp:159-189 | a close releases the session's leases and keeps the invariant |
| `ProtocolRuns.AcknowledgeInv` | chatserver/include/app/DeliveryCoordinator.hpp:43-110 | an ACK, also of an expired row, keeps the invariant and records at most its own acknowledgement |
| `ProtocolRuns.RetryScanInv` | chatserver/include/app/DeliveryCoordinator.hpp:231-275 | the retry scan keeps the invariant |
| `ProtocolRuns.CleanFromInv` | chatserver/src/app/InMemoryMessageStore.cpp:208-233 | removing rows past retention keeps the invariant, each removed row being accounted for |
| `ProtocolAccept.AcceptInv` | chatserver/src/app/ReliableMessaging.cpp:117-168 | accepting keeps the invariant: the new rows stand behind everything attempted so far |
| `ProtocolClaims.ClaimExactly` | chatserver/include/app/DeliveryCoordinator.hpp:319-453 | a claim for a paused session does nothing; otherwise it attempts this user only, admits only rows that wait or whose lease ran out, leases them from its one clock reading, leaves all other rows, and pauses the session exactly if the sink's last answer was Paused |
| `ProtocolClaims.ClaimNotes` | chatserver/include/app/DeliveryCoordinator.hpp:387-443 | a claim notes the deadline of every row it leaves in flight and no other |
| `ProtocolAnswers.AckAnswersExactly` | chatserver/include/app/DeliveryCoordinator.hpp:43-82 | the four answers to an ACK, each exactly, over sessions and rows; pending, in-flight and expired rows are acknowledged |
| `ProtocolAnswers.AckTakesEffect` | chatserver/include/app/DeliveryCoordinator.hpp:69-110 | such an ACK acknowledges the row at the next clock reading, records it, and leaves nothing of the acker's claimable that the sink did not refuse |
| `ProtocolAnswers.OtherAcksChangeNothing` | chatserver/include/app/DeliveryCoordinator.hpp:43-82 | an ACK of a superseded session, of a row not there or already acknowledged changes nothing |
| `ProtocolAnswers.AcceptAnswersExactly` | chatserver/src/app/ReliableMessaging.cpp:90-116 | a new key is a first accept, a known key with another content, kind or target a conflict, the same command a duplicate of the first |
| `ProtocolAnswers.FirstAcceptEnrols` | chatserver/src/app/ReliableMessaging.cpp:117-160 | a first accept stores the message as it came under the next id with one outbox event, and files one pending row for each user it is for with its expiry |
| `ProtocolDelivery.FirstAcceptReaches` | chatserver/src/app/ReliableMessaging.cpp:150-168 | a first accept attempts the new message at once to each online, unpaused recipient with nothing open in that conversation, unless the sink pauses them first |
| `ProtocolDelivery.FirstAcceptReachesLanes` | chatserver/include/app/DeliveryCoordinator.hpp:214-222 | it attempts the first open row of each of the recipient's lanes that was waiting, too |
| `ProtocolDelivery.RepeatReaches` | chatserver/src/app/ReliableMessaging.cpp:90-108 | so does the same command accepted again |
| `ProtocolDelivery.WakeupReaches` | chatserver/include/app/DeliveryCoordinator.hpp:214-222 | and so does a wakeup, for each online recipient it names |
| `ProtocolSessions.ResumeGoesOn` | chatserver/include/app/DeliveryCoordinator.hpp:193-211 | a resume of the active session leaves nothing claimable that the sink did not refuse, and the session is paused only if the sink paused it again |
| `ProtocolSessions.CloseEnds` | chatserver/include/app/DeliveryCoordinator.hpp:159-189 | a closed session is neither active nor paused and holds no row in flight; without another login exactly its rows wait again and nothing else changes |
| `ProtocolSessions.LoginTakesOnlyStale` | chatserver/include/app/DeliveryCoordinator.hpp:114-153 | a login touches its own user's rows only, keeps the running leases it holds itself, and leaves closed rows closed |
| `ProtocolSessions.PausesAreAnswers` | chatserver/include/app/DeliveryCoordinator.hpp:319-453 | over every run a session is paused only because the sink answered Paused to an attempt to its user |
| `ProtocolSessions.PausedIsLeftInPeace` | chatserver/include/app/DeliveryCoordinator.hpp:319-323 | no operation attempts anything to a user whose active session is paused, until it resumes or closes, the user logs in anew, or the process restarts |
| `ProtocolTick.TickExpires` | chatserver/src/app/ReliableMessaging.cpp:225-262 | a tick expires an overdue open row that has fewer overdue rows before it than the batch allows |
| `ProtocolTick.TickCleans` | chatserver/src/app/ReliableMessaging.cpp:225-262 | a tick cleans up when its cycle is due and only then; a row past its retention is gone unless the batch was used up by rows of its own kind |
| `ProtocolTick.TickRetries` | chatserver/src/app/ReliableMessaging.cpp:225-276 | a tick attempts a due row again, if fewer due rows come before it than the batch allows and its recipient is online and unpaused, unless the sink pauses them first |
| `ProtocolTick.TickLeavesRunning` | chatserver/src/app/ReliableMessaging.cpp:225-276 | a tick leaves a row in flight as it was that is neither due nor overdue and out of reach of its claims |
| `ProtocolMetrics.GaugesAreExact` | chatserver/include/app/ReliableMessageMetrics.hpp:173-228 | after every operation the pending and inflight gauges are the exact numbers of such rows, and the pending set holds exactly the pending ones |
| `ProtocolMetrics.AcknowledgeGauged` | chatserver/include/app/DeliveryCoordinator.hpp:84-108 | the transition recorded only after the claim still leaves the gauges exact |
| `ProtocolCounters.AttemptsAreCounted` | chatserver/include/app/ReliableMessageMetrics.hpp:230-237 | over every run without a restart the attempt and retry counters grow by exactly the attempts, and repeated attempts, the sink admits |
| `ProtocolProgress.ClaimLeavesNothing` | chatserver/include/app/DeliveryCoordinator.hpp:319-453 | after a claim the session is paused, or the first open row of every conversation is under a running lease or was just refused |
| `ProtocolProgress.LoginTakesOver` | chatserver/include/app/DeliveryCoordinator.hpp:114-153 | a login that is not outdated becomes the active session and leaves nothing claimable |
| `ProtocolProgress.AckReleasesNext` | chatserver/include/app/DeliveryCoordinator.hpp:84-88 | an accepted ACK leaves nothing claimable that the sink did not refuse |
| `ProtocolProgress.RetryHappens` | chatserver/include/app/DeliveryCoordinator.hpp:231-275 | a due row within the limit whose recipient is online, unpaused and holds the lease is attempted again, unless the sink pauses the session |
| `ProtocolProgress.DueExactly` | chatserver/src/app/InMemoryMessageStore.cpp:153-165 | the retry query returns due rows only, and misses one only when earlier ones use up the limit |
| `ProtocolProgress.ExpireExactly` | chatserver/src/app/InMemoryMessageStore.cpp:182-206 | expiry changes overdue open rows only, reports each, and leaves one over only at the limit |
| `ProtocolProgress.CleanConserves` | chatserver/src/app/InMemoryMessageStore.cpp:208-233 | every row is either still in the table or among those removed, once |
| `ProtocolProgress.CleanThorough` | chatserver/src/app/InMemoryMessageStore.cpp:208-233 | removals stay within each kind's limit, and a row past its retention stays only when as many of its own kind as the limit allows were removed |
| `Recorder.TransitionMirrors` | chatserver/include/app/ReliableMessageMetrics.hpp:188-228 | a transition moves counters, tracking and the age set together |
| `Recorder.FinishedMirrors` | chatserver/include/app/ReliableMessageMetrics.hpp:269-288 | finishing and evicting a delivery removes it from all of them |
| `Recorder.CreatedMirrors` | chatserver/include/app/ReliableMessageMetrics.hpp:173-186 | creating a delivery adds it to all of them once |
| `ProtocolTiming.RetriesAreSpaced` | chatserver/include/app/DeliveryCoordinator.hpp:399-400 | over every run, a row once admitted is next due at least the ACK timeout after its last send, with any jitter |
| `ProtocolTiming.LeasesAreTimed` | chatserver/include/app/DeliveryCoordinator.hpp:387-400 | over every run a row in flight was sent at a clock reading, leased for the configured length from there, and is due again the delay of its attempt count later |
| `Ledger.AcceptedExact` | chatserver/src/app/InMemoryMessageStore.cpp:66-87 | accepting keeps keys, messages and outbox events in bijection and sequences dense in message order |
| `Ledger.SharedConversation` | chatserver/src/app/InMemoryMessageStore.cpp:42-64 | two messages share a conversation if and only if they are between the same two users or in the same group |
| `RetryTiming.SaturatingBackoff` | chatserver/include/app/DeliveryCoordinator.hpp:280-295 | the loop computes min(base * multiplier^(attempt-1), cap) without any value above max(base, cap) |
| `RetryTiming.BackoffMs` | chatserver/include/app/DeliveryCoordinator.hpp:296-306 | jitter scales that value and never goes below 1 |
| `RetryTiming.RetryDelayMs` | chatserver/include/app/DeliveryCoordinator.hpp:310-314 | the delay is never shorter than the ACK timeout |
| `RetryTiming.QuotientTest` | chatserver/include/app/DeliveryCoordinator.hpp:286-290 | dividing the cap first decides exactly whether the product would pass it |
| `RetryTiming.BackoffMonotone` | chatserver/include/app/DeliveryCoordinator.hpp:280-295 | without jitter later attempts never wait less, and never more than the cap |
| `RetryTiming.ComputeNextWakeMs` | chatserver/include/app/ReliableMessaging.hpp:31-48 | the wait is the least of the timeout and the touched rows' remaining times, at least 1 |
| `RetryTiming.TickWait` | chatserver/src/app/ReliableMessaging.cpp:263-291 | the tick's wait for a store of any granularity |
| `RetryTiming.TickWaitBounds` | chatserver/src/app/ReliableMessaging.cpp:277-291 | the wait lies between 1 and the timeout plus one unit less one |
| `RetryTiming.WakeLandsOnFirstDue` | chatserver/src/app/ReliableMessaging.cpp:277-290 | with a coarse store the wake is the first instant at which the store reports the earliest row due |
| `RetryTiming.DueNeverEarlyLittleLate` | chatserver/src/app/MySQLMessageStore.cpp:1112-1121 | the rounded due test never fires before the deadline and always within one unit after it |
| `MessageStore.InMemoryMessageStore.GetOrCreateConversation` | chatserver/src/app/InMemoryMessageStore.cpp:42-64 | finds or creates the conversation of the unordered pair or the group |
| `MessageStore.InMemoryMessageStore.InsertMessage` | chatserver/src/app/InMemoryMessageStore.cpp:66-87 | assigns id and sequence, keeps the first key, appends one outbox event |
| `MessageStore.InMemoryMessageStore.InsertDelivery` | chatserver/src/app/InMemoryMessageStore.cpp:89-95 | inserts a row at its place in key order, keeping an existing one |
| `MessageStore.InMemoryMessageStore.UpdateDelivery` | chatserver/src/app/InMemoryMessageStore.cpp:97-106 | replaces the row of the same key, if there is one |
| `MessageStore.InMemoryMessageStore.DeliveriesByRecipient` | chatserver/src/app/InMemoryMessageStore.cpp:108-124 | copies exactly the user's rows in table order, with the message's sequence number |
| `MessageStore.InMemoryMessageStore.DeliveriesByMessage` | chatserver/src/app/InMemoryMessageStore.cpp:126-142 | copies exactly the message's rows, each once and in table order, with the message's sequence number |
| `MessageStore.InMemoryMessageStore.DeliveriesDueForRetry` | chatserver/src/app/InMemoryMessageStore.cpp:153-165 | copies the first due rows up to the limit |
| `MessageStore.InMemoryMessageStore.ExpireDeliveriesDetailed` | chatserver/src/app/InMemoryMessageStore.cpp:182-206 | expires the first overdue open rows up to the limit and reports them |
| `MessageStore.InMemoryMessageStore.CleanupDeliveries` | chatserver/src/app/InMemoryMessageStore.cpp:208-233 | removes acknowledged and expired rows past their thresholds, each kind up to the limit |
| `MessageStore.InMemoryMessageStore.ClaimOutboxEvents` | chatserver/src/app/InMemoryMessageStore.cpp:235-253 | leases the first claimable events up to the limit |
| `MessageStore.InMemoryMessageStore.MarkOutboxProcessed` | chatserver/src/app/InMemoryMessageStore.cpp:255-264 | marks the event and clears its lease; an unknown id changes nothing |
| `MessageStore.RelayKeepsEvents` | chatserver/src/app/InMemoryMessageStore.cpp:235-264 | claiming and marking keep the ledger's account of the events exact |
| `Messaging.MetricsRecorder.RecordDeliveryCreated` | chatserver/include/app/ReliableMessageMetrics.hpp:173-186 | new state of the recorder after a creation |
| `Messaging.MetricsRecorder.RecordDeliveryTransition` | chatserver/include/app/ReliableMessageMetrics.hpp:188-228 | new state of the recorder after a transition |
| `Messaging.MetricsRecorder.RecordEviction` | chatserver/include/app/ReliableMessageMetrics.hpp:269-288 | forgets a finished delivery, keeping the counters |
| `Messaging.FindHead` | chatserver/include/app/DeliveryCoordinator.hpp:341-353 | the open copy with the smallest sequence number, the first on a tie |
| `Messaging.HeadCopyIsHead` | chatserver/include/app/DeliveryCoordinator.hpp:324-353 | the head among the local copies is the head of the lane in the store |
| `Messaging.GroupByConversation` | chatserver/include/app/DeliveryCoordinator.hpp:325-332 | open copies grouped by conversation, each in order, conversations ascending |
| `Messaging.ReliableMessaging.constructor` | chatserver/src/app/ReliableMessaging.cpp:72-78 | a process over an existing store starts with fresh volatile state only |
| `Messaging.ReliableMessaging.Admit` | chatserver/include/app/DeliveryCoordinator.hpp:387-443 | an admitted row is leased, scheduled and counted, or done at once for a legacy id |
| `Messaging.ReliableMessaging.TryHead` | chatserver/include/app/DeliveryCoordinator.hpp:372-450 | one attempt takes the state where the protocol says for each answer of the sink |
| `Messaging.ReliableMessaging.ClaimConversation` | chatserver/include/app/DeliveryCoordinator.hpp:337-451 | the inner loop refines the protocol's claim of one conversation and ends |
| `Messaging.ReliableMessaging.ClaimFor` | chatserver/include/app/DeliveryCoordinator.hpp:319-453 | the whole claim, on local copies written back, refines the protocol |
| `Messaging.ReliableMessaging.FenceRows` | chatserver/include/app/DeliveryCoordinator.hpp:131-150 | takes back every lease not held by this session of this process |
| `Messaging.ReliableMessaging.ReleaseHeld` | chatserver/include/app/DeliveryCoordinator.hpp:167-185 | releases every lease of the closing session |
| `Messaging.ReliableMessaging.SessionAvailable` | chatserver/include/app/DeliveryCoordinator.hpp:114-153 | refines the protocol's login |
| `Messaging.ReliableMessaging.SessionClosed` | chatserver/include/app/DeliveryCoordinator.hpp:159-189 | refines the protocol's close |
| `Messaging.ReliableMessaging.Resume` | chatserver/include/app/DeliveryCoordinator.hpp:193-211 | refines the protocol's resume |
| `Messaging.ReliableMessaging.OnAccepted` | chatserver/include/app/DeliveryCoordinator.hpp:214-222 | claims for every online recipient in order |
| `Messaging.ReliableMessaging.Acknowledge` | chatserver/include/app/DeliveryCoordinator.hpp:43-110 | refines the protocol's ACK and returns its four outcomes |
| `Messaging.ReliableMessaging.RunRetryScan` | chatserver/include/app/DeliveryCoordinator.hpp:231-275 | refines the protocol's retry scan and returns the new deadlines |
| `Messaging.ReliableMessaging.RunTick` | chatserver/src/app/ReliableMessaging.cpp:225-292 | expires, cleans up and retries as the protocol says, and returns the wait |
| `Messaging.ReliableMessaging.OnSessionAvailable` | chatserver/src/app/ReliableMessaging.cpp:193-200 | the public operation is the login followed by a tick |
| `Messaging.ReliableMessaging.Accept` | chatserver/src/app/ReliableMessaging.cpp:85-168 | refines the protocol's accept and returns the first, duplicate or conflict outcome |
| `SerialExecutor.OneWorkerPerKey` | chatserver/src/app/SessionSerialExecutor.cpp:109-190 | in every interleaving one worker at most runs a key, a key is ready once exactly when its lane is Queued, Queued lanes hold tasks and Idle lanes none |
| `SerialExecutor.KeyRunsInOrder` | chatserver/src/app/SessionSerialExecutor.cpp:134-188 | a key runs its accepted tasks in order without exactly those expired at the head, across erasures of its lane; the rest is queued |
| `SerialExecutor.ReadyBounded` | chatserver/src/app/SessionSerialExecutor.cpp:51-67 | ready keys plus busy workers never exceed the global capacity plus the number of workers |
| `SerialExecutor.FairDispatch` | chatserver/src/app/SessionSerialExecutor.cpp:125-126 | a key at position p is taken as the (p+1)-st, every other key at most once before it |
| `SerialExecutor.ShutdownDrains` | chatserver/src/app/SessionSerialExecutor.cpp:73-122 | when all workers have left, every accepted task has run or expired |
| `SerialExecutor.NextInv` | chatserver/src/app/SessionSerialExecutor.cpp:34-190 | every lock region keeps the executor's invariant |
| `SerialExecutor.DroppedExact` | chatserver/src/app/SessionSerialExecutor.cpp:134-141 | exactly the expired tasks at the head are skipped |
| `ExecutorProgress.SubmitExactly` | chatserver/src/app/SessionSerialExecutor.cpp:39-59 | in every reachable state a submission is turned away for shutdown exactly when down, and accepted exactly if the key has room and is ready, running, or the ready queue has room |
| `ExecutorProgress.SubmitAppends` | chatserver/src/app/SessionSerialExecutor.cpp:60-70 | an accepted task is the last of its key; a refused one leaves no trace |
| `ExecutorProgress.NothingStranded` | chatserver/src/app/SessionSerialExecutor.cpp:134-188 | a key with accepted tasks still in its lane is ready or has a worker |
| `ExecutorProgress.TurnExactly` | chatserver/src/app/SessionSerialExecutor.cpp:116-151 | a waiting worker leaves exactly when nothing is ready after shutdown, and otherwise starts the front key's first task that is in time |
| `ExecutorProgress.FinishExactly` | chatserver/src/app/SessionSerialExecutor.cpp:173-188 | a worker that finishes is free, and its key is ready again exactly if it has tasks left |
| `ExecutorProgress.DownForGood` | chatserver/src/app/SessionSerialExecutor.cpp:73-82 | shutdown is never undone |
| `SerialExecutor.SessionSerialExecutor.Submit` | chatserver/src/app/SessionSerialExecutor.cpp:34-71 | refines the submit step, counts the rejections, leaves an empty lane behind a refusal |
| `SerialExecutor.SessionSerialExecutor.SkipExpired` | chatserver/src/app/SessionSerialExecutor.cpp:134-141 | the loop over expired heads |
| `SerialExecutor.SessionSerialExecutor.TakeWork` | chatserver/src/app/SessionSerialExecutor.cpp:116-151 | the first lock region of a worker refines the take step |
| `SerialExecutor.SessionSerialExecutor.FinishWork` | chatserver/src/app/SessionSerialExecutor.cpp:173-188 | the second lock region requeues or erases the lane |
| `SerialExecutor.SessionSerialExecutor.BeginShutdown` | chatserver/src/app/SessionSerialExecutor.cpp:73-82 | shutdown is idempotent and only sets the flag |
| `Backpressure.OutstandingIsExact` | mymuduo/TcpConnection.cc:101-223 | in every interleaving the counter is exactly the buffered, queued, in-hand and leaked bytes, within 0 and the hard limit; reading is off only above the resume mark and on only below the pause mark |
| `Backpressure.LeaksExplained` | mymuduo/TcpConnection.cc:192-206 | bytes stay reserved for good only through a broken pipe or an empty message |
| `Backpressure.NoSignalLostExactly` | mymuduo/TcpConnection.cc:118-131 | no sender told to pause misses the fall to the low-water mark, in any run, if and only if the limits are safe; the defaults are |
| `Backpressure.SenderToldExactly` | mymuduo/TcpConnection.cc:76-116 | in every run a sender is accepted, told to pause, told it would block, or tries again, each exactly when the counter says so |
| `Backpressure.RefusedFrameLosesSignal` | mymuduo/TcpConnection.cc:149-157 | a frame refused after its reservation is released unarmed and loses the signal |
| `Backpressure.CloseMarksLoseSignal` | mymuduo/TcpConnection.cc:170-173 | marks closer than a factor of two lose the signal |
| `Backpressure.TcpConnection.SetWriteBufferLimits` | mymuduo/TcpConnection.h:101-114 | inconsistent limits are ignored |
| `Backpressure.TcpConnection.ReleaseOutstanding` | mymuduo/TcpConnection.cc:118-131 | subtracts and calls back once when an armed counter falls to the mark |
| `Backpressure.TcpConnection.BeginSend` | mymuduo/TcpConnection.cc:60-76 | refuses a frame beyond the hard limit, else loads the counter |
| `Backpressure.TcpConnection.TryReserve` | mymuduo/TcpConnection.cc:76-116 | one turn of the compare-and-swap loop: would block, accepted, and told to pause, each exactly when |
| `Backpressure.TcpConnection.SendInLoop` | mymuduo/TcpConnection.cc:139-173 | releases a refused frame, else arms the low-water check |
| `Backpressure.TcpConnection.TryWrite` | mymuduo/TcpConnection.cc:175-206 | what a full, partial, blocked or broken write releases |
| `Backpressure.TcpConnection.AppendRest` | mymuduo/TcpConnection.cc:206-233 | buffers the rest and stops reading at the pause mark |
| `Backpressure.TcpConnection.HandleWrite` | mymuduo/TcpConnection.cc:342-371 | drains, releases and resumes reading at the resume mark |
| `OutboxRelay.ClaimsNeverOverlap` | chatserver/src/app/LocalOutboxRelay.cpp:91-183 | for any number of relays, claims of one event never run at the same time, and only a published event is processed |
| `OutboxRelay.ProcessedForGood` | chatserver/src/app/InMemoryMessageStore.cpp:243-250 | a processed event stays processed and is never claimed again |
| `OutboxRelay.ScanClaims` | chatserver/src/app/InMemoryMessageStore.cpp:235-253 | a scan claims an event if and only if it is unprocessed, available, unleased and within reach of the batch |
| `OutboxRelay.ClaimExactly` | chatserver/src/app/InMemoryMessageStore.cpp:240-252 | a claim takes exactly the first claimable events and leases each once |
| `OutboxRelay.PublishExactly` | chatserver/src/app/LocalOutboxRelay.cpp:131-160 | a publish answered for every request goes on to mark them, exactly those answered ok counting as published |
| `LocalOutboxRelay.Relay.ScanLocked` | chatserver/src/app/LocalOutboxRelay.cpp:91-129 | claims a batch and keeps the events whose message is there and loads |
| `LocalOutboxRelay.Relay.PublishAndMark` | chatserver/src/app/LocalOutboxRelay.cpp:131-183 | marks exactly the requests whose publish returned ok and whose mark the store took, going on after a failing one; mismatched outcomes mark nothing |
| `LocalOutboxRelay.ScanIsStep` | chatserver/src/app/LocalOutboxRelay.cpp:91-129 | what the locked scan claims and keeps is the relay's scan step |
| `LocalOutboxRelay.MarkingIsSteps` | chatserver/src/app/LocalOutboxRelay.cpp:160-183 | the marking loop is the relay's mark steps one after the other |
| `LocalOutboxRelay.MarkedExactly` | chatserver/src/app/LocalOutboxRelay.cpp:160-183 | a request is processed at its own reading and unleased exactly if its publish was ok and its mark was taken; other events stay |
| `LocalOutboxRelay.KeptExactly` | chatserver/src/app/LocalOutboxRelay.cpp:97-129 | exactly the claimed events whose message loads are published, in order |
| `EventConsumer.NothingSkipped` | chatserver/src/app/KafkaEventConsumer.cpp:800-1013 | over every run of polls, aborts, failed or unheard commits and restarts, every record below a committed offset or a cursor was taken by the handler, dead-lettered, or repeats a message the handler took |
| `EventConsumer.BatchSettles` | chatserver/src/app/KafkaEventConsumer.cpp:800-968 | a batch settles exactly the records before the one that aborts it |
| `ConsumerAnswers.AnswersExactly` | chatserver/src/app/KafkaEventConsumer.cpp:808-968 | each answer is the verdict on its record at the window the records before it lead to: dead-lettered if unfit, a repeat if remembered, otherwise the handler's own |
| `ConsumerAnswers.AbortsExactly` | chatserver/src/app/KafkaEventConsumer.cpp:840-985 | a batch stops short exactly at a record whose dead letter is not stored or whose handler throws |
| `ConsumerAnswers.RecordsSorted` | chatserver/src/app/KafkaEventConsumer.cpp:808-968 | the records a poll has handled, dead-letters and passes over are exactly those it answers so |
| `ConsumerAnswers.PollCommits` | chatserver/src/app/KafkaEventConsumer.cpp:970-1013 | a poll commits exactly when it was not aborted, disposed of something and its hook returned, and then just past the last record of each partition it reached |
| `ConsumerReplay.BatchIsObserved` | chatserver/src/app/KafkaEventConsumer.cpp:800-968 | the window after a batch is the one the records it disposed of lead to |
| `ConsumerReplay.WindowIsConsistent` | chatserver/src/app/KafkaEventConsumer.cpp:631-643 | after every run of polls and restarts the two structures of the window name the same conversations, each once, within capacity |
| `ConsumerReplay.HandledInOrder` | chatserver/src/app/KafkaEventConsumer.cpp:898-948 | in runs over no more conversations than the window holds, the handler gets each conversation's records in sequence order and never two messages under one number |
| `ConsumerReplay.ReplaySafeExactly` | chatserver/src/app/KafkaEventConsumer.cpp:883-920 | runs that handle at most n conversations since their last restart never dead-letter a record they advanced if and only if n fits the window |
| `ConsumerReplay.RepublishedHurts` | chatserver/src/app/KafkaEventConsumer.cpp:631-643 | one conversation too many, and an event published again is taken for a regression, for every capacity and batch limit |
| `ConsumerRefetch.RefetchHurts` | chatserver/src/app/KafkaEventConsumer.cpp:1003-1008 | a batch of capacity plus two records, fetched again because its commit did not land, has its first record dead-lettered |
| `ConsumerRefetch.RefetchSafeExactly` | chatserver/src/app/KafkaEventConsumer.cpp:800-1013 | a batch fetched twice from a fresh start never dead-letters a record it advanced if and only if the batch limit is at most the capacity plus one |
| `ConsumerRefetch.TrioDeadLetters` | chatserver/src/app/KafkaEventConsumer.cpp:631-643 | after a run that filled the window, a batch of three fetched twice has its first record dead-lettered, for every capacity |
| `ConsumerRefetch.AlwaysRefetchSafeExactly` | chatserver/src/app/KafkaEventConsumer.cpp:800-1013 | after every faithful run, a batch fetched twice never dead-letters a record its first fetch advanced if and only if the batch limit is at most two |
| `EventConsumer.KafkaEventConsumer.TouchConversation` | chatserver/src/app/KafkaEventConsumer.cpp:631-643 | registers a conversation, dropping the oldest of a full window |
| `EventConsumer.KafkaEventConsumer.Dispose` | chatserver/src/app/KafkaEventConsumer.cpp:810-968 | the pipeline's rules in order, with their effect on the window |
| `EventConsumer.KafkaEventConsumer.CommitOffsets` | chatserver/src/app/KafkaEventConsumer.cpp:994-1001 | one past the largest offset of each partition |
| `EventConsumer.KafkaEventConsumer.PollOnce` | chatserver/src/app/KafkaEventConsumer.cpp:800-1013 | the batch loop with its answers, its abort, and the commit after everything is terminal |
| `EventConsumer.KafkaEventConsumer.constructor` | chatserver/src/app/KafkaEventConsumer.cpp:655-665 | the defaults for a zero capacity and a zero batch limit |
| `ByteBuffer.Buffer.constructor` | mymuduo/Buffer.h:13-18 | an empty buffer |
| `ByteBuffer.Buffer.Retrieve` | mymuduo/Buffer.h:38-54 | drops bytes from the front, everything when asked for too many |
| `ByteBuffer.Buffer.CopyDown` | mymuduo/Buffer.h:101-103 | the overlapping copy to a strictly lower position keeps the bytes |
| `ByteBuffer.Buffer.MakeSpace` | mymuduo/Buffer.h:92-107 | compacts or enlarges, keeping the contents and making room |
| `ByteBuffer.Buffer.Append` | mymuduo/Buffer.h:76-81 | the contents grow by exactly the data |
| `FrameCodec.DecodeExactly` | mymuduo/StreamCodec.cc:50-113 | a frame is decoded if and only if it is encodable and its encoding stands at the front |
| `FrameCodec.DecodeStable` | mymuduo/StreamCodec.cc:50-113 | more bytes never change a verdict already reached |
| `FrameCodec.VerdictsExactly` | mymuduo/StreamCodec.cc:50-113 | the decoder waits, reports a version, fails or hands up a frame, each exactly when |
| `FrameCodec.EncodableExactly` | mymuduo/StreamCodec.cc:115-131 | the frames the codec encodes, and those too large, field by field |
| `FrameCodec.HeaderLayout` | mymuduo/StreamCodec.cc:133-143 | where each field stands in the header |
| `FrameCodec.ChunkingIrrelevant` | chatserver/src/ChatServer.cpp:61-74 | however the stream is cut, the same messages and the same error |
| `FrameCodec.EncodingsDecode` | mymuduo/BinaryFrameCodec.cc:13-46 | concatenated encodings decode to the original messages with nothing left over |
| `FrameCodec.EncodedSizeExact` | mymuduo/BinaryFrameCodec.cc:48-55 | for messages of any length, the announced size is the produced one, and a refused body is announced as such |
| `FrameCodec.StreamCodec.constructor` | mymuduo/StreamCodec.cc:44-48 | the configured limit never passes the hard one |
| `FrameCodec.StreamCodec.DecodeFrame` | mymuduo/StreamCodec.cc:50-113 | consumes a complete frame or nothing, with the checks in their order |
| `FrameCodec.StreamCodec.EncodeFrame` | mymuduo/StreamCodec.cc:115-148 | appends exactly the wire form, or nothing with the reason |
| `FrameCodec.StreamCodec.EncodeMessage` | mymuduo/BinaryFrameCodec.cc:28-46 | a message of any length is framed, or refused as too large with nothing written |
| `OutputCodecs.BinaryRefusesExactly` | mymuduo/BinaryFrameCodec.cc:48-55 | the binary codec refuses exactly the frames beyond the largest size it announces |
| `OutputCodecs.NoneRefusedLateExactly` | mymuduo/TcpConnection.cc:68-75 | no frame within the hard limit is refused after its reservation if and only if the hard limit is below the impossible size |
| `OutputCodecs.LineSizeExact` | mymuduo/LegacyJsonLineCodec.cc:49-52 | the bytes reserved for a line are the bytes produced |
| `OutputCodecs.CodecsKeepSignal` | mymuduo/TcpConnection.cc:118-157 | the low-water signal with each codec, exactly: the marks decide |
| `FrameCodec.StreamCodec.OnMessage` | chatserver/src/ChatServer.cpp:61-74 | the loop hands up every complete message and stops at an error |
| `FrameCodec.StreamCodec.Serve` | chatserver/src/ChatServer.cpp:61-74 | chunk after chunk through the array buffer gives what the whole stream gives |
| `LineCodec.RoundTripExactly` | mymuduo/LegacyJsonLineCodec.cc:7-47 | lists of messages survive if and only if each is plain |
| `LineCodec.CarriageReturnLost` | mymuduo/LegacyJsonLineCodec.cc:28-31 | a message that ends in a carriage return comes back without it |
| `LineCodec.DrainMore` | mymuduo/LegacyJsonLineCodec.cc:7-40 | where the bytes are cut makes no difference to the messages |
| `LineCodec.MessagesAreLines` | mymuduo/LegacyJsonLineCodec.cc:18-37 | a decoded message is never empty and never holds a line feed |
| `LineCodec.DecodeLine` | mymuduo/LegacyJsonLineCodec.cc:7-40 | hands up the next message, skipping empty lines |
| `LineCodec.EncodeLine` | mymuduo/LegacyJsonLineCodec.cc:42-47 | appends the message and a line feed |
| `Bytes.BigEndian` | mymuduo/StreamCodec.cc:21-33 | the most significant byte comes first |
| `Varint.RoundTrip` | chatserver/src/app/KafkaWire.cpp:497-516 | every 64-bit integer reads back wherever it stands |
| `Varint.KnownEncodings` | chatserver/src/app/KafkaWire.cpp:257-265 | known encodings of small and two-byte values of either sign |
| `Varint.ByteWriter.Varint` | chatserver/src/app/KafkaWire.cpp:257-265 | the loop writes the zigzag groups |
| `Varint.ReadVarint` | chatserver/src/app/KafkaWire.cpp:497-516 | the loop reads at most ten groups and reports missing bytes |
| `Crc32c.Checksum` | chatserver/src/app/KafkaWire.cpp:95-103 | the table-driven checksum equals the bit-at-a-time one on every input |
| `Crc32c.CheckValue` | chatserver/src/app/KafkaWire.cpp:82-103 | the digits 1 to 9 have the published checksum 0xE3069283 |
| `Crc32c.BuildTable` | chatserver/src/app/KafkaWire.cpp:82-93 | entry j is the register j after eight shifts |
| `Crc32c.BitsAtOnce` | chatserver/src/app/KafkaWire.cpp:99-101 | feeding a byte bit by bit is adding it and then shifting |
| `Crc32c.SplitByte` | chatserver/src/app/KafkaWire.cpp:100-100 | the low byte alone decides what is subtracted |
| `RecordBatch.SetParses` | chatserver/src/app/KafkaEventConsumer.cpp:98-193 | any number of batches one behind the other, at any base offsets, parse to exactly their values in order, each batch at consecutive offsets from its base |
| `RecordBatch.BatchParses` | chatserver/src/app/KafkaEventConsumer.cpp:98-193 | an encoded batch, also an empty one, parses to its values in order at offsets 0, 1, 2, ... |
| `RecordBatch.FieldsInPlace` | chatserver/src/app/KafkaWire.cpp:472-495 | every field of a batch stands where the format puts it, the length counting what follows it and the checksum covering everything behind itself |
| `RecordBatch.EncodeRecordBatch` | chatserver/src/app/KafkaWire.cpp:452-495 | placeholders, patched length and checksum make exactly the specified batch |
| `RecordBatch.EncodeRecord` | chatserver/src/app/KafkaWire.cpp:458-470 | one record with its length in front |
| `RecordBatch.PatchI32` | chatserver/src/app/KafkaWire.cpp:51-57 | overwrites four bytes in place |
| `RecordBatch.ParseRecordSet` | chatserver/src/app/KafkaEventConsumer.cpp:98-193 | the parser's loop over batches, for any bytes, watched for any number of turns |
| `ParserTermination.SafeLengthsExactly` | chatserver/src/app/KafkaEventConsumer.cpp:113-120 | a lower bound on every batch length the loop comes to makes it end, for all bytes, if and only if the bound is -11 or more |
| `ParserTermination.StandingStill` | chatserver/src/app/KafkaEventConsumer.cpp:113-120 | the loop never ends on any bytes where it comes to a header of length -12 and does not refuse it |
| `ParserTermination.EndsInTime` | chatserver/src/app/KafkaEventConsumer.cpp:104-191 | a loop that ends has ended within one turn more than there are bytes, having come to no position twice |
| `ParserTermination.EndedForGood` | chatserver/src/app/KafkaEventConsumer.cpp:104-191 | a result does not change when the loop is watched longer |
| `ParserTermination.ForwardEnds` | chatserver/src/app/KafkaEventConsumer.cpp:113-120 | without a batch length of -12 or less on its way the loop ends |
| `ParserTermination.StuckForever` | chatserver/src/app/KafkaEventConsumer.cpp:113-120 | 61 bytes on which it never ends |
| `RecordBatch.ParseOne` | chatserver/src/app/KafkaEventConsumer.cpp:133-188 | one record: lengths, key, value, headers, offset |

## Left out

- MySQL statements, transactions, connection pools and migrations; the in-memory store is the ledger, and of the SQL store only the time rounding is modelled.
- The text encoding of lease owners in the SQL store.
- A crash inside an operation, and exceptions thrown by a store in the middle of accepting or delivering; the in-memory store throws none there.
- The ACK latency histogram, the oldest-pending age and the accept counters of the metrics: sums and a minimum over values the model already has.
- Uniqueness of boot ids; a restart may come under any boot id.
- Liveness of the retry scan beyond one batch, since skipped offline rows can fill the batch limit.
- Sockets, epoll, timers, threads and condition variables; their results are nondeterministic inputs.
- The connection after it disconnects, the stall timer and the high-water callback.
- A pressure callback that sends again from inside the loop thread.
- A sender answered WouldBlock: it reserved nothing, and the low-water result is about senders answered Accepted.
- Gateway and presence sinks, session registry, repositories, configuration and logging.
- JSON parsing of event envelopes: an envelope is present or not.
- Out-of-range resets of the consumer's cursor and the discovery of partitions.
- RecordBatch.ParseRecordSet: reports a read beyond the zero behind the last byte as Undefined, because what the program does there depends on memory outside the string; it does not model an offset sum that passes 64 bits.
- RecordBatch.EncodeRecordBatch: requires fewer than 2^63 pairs and record bytes, which every address space guarantees.
