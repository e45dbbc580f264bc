# A verified model of the mautrix-gmessages channel, session and reconciliation logic

mautrix-gmessages bridges Google Messages to Matrix by talking to a phone over a long-poll channel that
drops, repeats and delays. This project models, in Dafny, the state machines that keep that channel
honest and the code that reconciles what the phone sends with what the bridge has stored, and proves
what they promise over every input, every run and every interleaving.

| file | what it models |
|---|---|
| `AesGcm.dfy` | chunked media encryption over an abstract AEAD (sections 2.1 and 2.2 of RFC 5116) |
| `Json.dfy`, `Deframe.dfy` | JSON validity (section 2 of RFC 8259) and the read loop that cuts the stream `[[b1,b2,...]]` into blocks |
| `LongPoll.dfy` | the retry loop of the long poll: errors, sleeps, generations, background mode |
| `Pinger.dfy`, `PingerRun.dfy` | the ping engine: its locked sections in any interleaving, and its timers, waiters and reset channels as a timed machine |
| `DataReceiveCheck.dfy` | when the pinger looks for missing data |
| `Session.dfy` | response waiters, their channels, and the acknowledgement queue |
| `DedupRing.dfy`, `Updates.dfy` | the eight-slot duplicate filter, and the way of one incoming message through acknowledgement, response matching, skip counter, filter and events |
| `Messages.dfy`, `Reconcile.dfy` | remote messages, their stored form, conversion and comparison |
| `Edits.dfy`, `Resync.dfy` | the edit made of a changed message, filtered in place, and the loop of comparison, conversion and edit |
| `Receipts.dfy` | status updates of one stored message, run together with the edits they cause |
| `DataGap.dfy` | which timestamp a resync uses after data stopped coming in |
| `ConversationSync.dfy`, `DelayedBackfill.dfy` | what is remembered of a conversation, and the delayed backfill that a newer one cancels |
| `Cursors.dfy`, `Paging.dfy`, `BackwardPaging.dfy` | cursors as strings, one page of backfill, and walking backwards page by page |

How it is modelled:

- Code that changes fields, arrays or maps step by step is a class or an array method, proved equal to a
  specification function; what the source promises is then proved of that function and of its runs.
- Concurrency is a machine whose steps are the sections under one lock, or one channel, timer or atomic
  operation. A run is any sequence of steps; steps that are not enabled do nothing.
- What an operation tells, asks for or stores is stated once more from outside, for every run, by what came
  before it: by the reports and answers so far, the last step that concerns a field, the failures in a row,
  or the two messages that are compared, with the numbers of the program spelled out.
- Time is an integer clock in the unit that each file names. Randomness, HTTP results, clock readings,
  attachment transfers and the network's reads are parameters.

Where a promise does not hold for all inputs, the exact condition under which it holds is proved, and
an input is given at which it fails:

- Deframing delivers all blocks exactly when every block end is a read end
  (`LongPollReader.DeliversAll`); two blocks in one read are both lost (`LongPollReader.OneReadLosesBlocks`).
- A response send hits a closed channel exactly when a cancel fell between the take and the send
  (`Session.SendPanicsOnlyInTheRace`, with a panicking run in `Session.RaceIsTheOnlyPanic`).
- A redelivered event of several parts is silent exactly when the id of its first part is still among
  the last eight (`DedupRing.RedeliveryIsSilent`), and with other updates in between exactly when the newest
  record of that id that the last eight still reach has its hash (`DedupRing.RedeliveryAfterOthers`); every event of more than eight new parts is repeated
  (`DedupRing.LongEventsRepeat`, `DedupRing.NineLettersRepeat`).
- A message that was just stored is taken for unchanged exactly when its ids tell its media apart and no
  transfer failed that nothing else is waited for (`Reconcile.ConversionAgreesWithComparison`; it fails in
  `Reconcile.SharedIDLooksChanged` and `Reconcile.FailedTransferLooksChanged`).
- A resynced message that arrives again is resynced again exactly when it is incoming and a part of it was
  too old to be added, or a part is stored whose transfer failed while no media is on its way
  (`Resync.EditSettles`, with a message that never settles in `Resync.LateAttachmentResyncs`).
- An edit panics exactly when there is nothing stored or nothing converted (`Edits.ConvertEdit`), that is
  when a heeded update with another content, or from another chat, has nothing to show, no pending download
  and no media (`Receipts.PanicsExactly`, with such an update in `Receipts.SomeUpdatePanics`).
- Titles and texts without zero bytes are hashed alike exactly when they are the same in the same order
  (`Messages.HashInputTells`); a text that holds a zero byte can hash like two (`Messages.ZeroBytesCollide`).
- A converted part is added to a stored message exactly when no row has its id and the message is less than
  24 hours old or came from another chat (`Edits.AddedExactly`; `Resync.TimelyAttachmentIsStored` and
  `Resync.LateAttachmentResyncs` are the two sides of it).
- Cancelling a delayed backfill stops it exactly when the cancel finds its goroutine parked in the select;
  in every other state some continuation still queues it (`DelayedBackfill.CancelDecides`). If its goroutine
  is not held up for fifteen seconds between arming the timer and entering the select, a cancelled backfill
  can still be queued exactly when it had left the select through its timer
  (`DelayedBackfill.PromptCancelDecides`). Runs in which cancelled backfills are queued are
  `DelayedBackfill.CancelledTooLate` and `DelayedBackfill.SelectedTooLate`.
- Closing the long poll stops an open loop exactly when the field that all loops of a client share still holds
  a connection (`LongPoll.CloseStopsExactly`): a superseded loop that ends its read clears the field, and the
  next close misses the open loop (`LongPoll.CloseMissesOpenLoop`), while a connection that an older loop left
  there makes a close stop a loop that has none (`LongPoll.StaleConnectionStopsLoop`).
- Two pages of backward paging are apart whatever the phone answers exactly when the cursor that goes out
  with the first parses with a time no newer than the page (`BackwardPaging.SteeringIsNecessary`); an id
  that is no number brings the first page back for ever (`BackwardPaging.FirstPageRepeats`,
  `BackwardPaging.LetterRepeats`).
- Backward paging returns the whole history exactly when no page boundary splits the messages of one
  millisecond and every message has an id (`BackwardPaging.WalkIsComplete`; it fails in
  `BackwardPaging.SplitMillisecondLoses`).
- A cursor survives printing and parsing exactly when its id is a decimal number as Go prints it
  (`Cursors.RoundTrip`; it fails in `Cursors.LetterIsLost` and `Cursors.ZerosAreLost`).
- The time of a data gap is used up by BROWSER_ACTIVE even if the phone does not answer the resync
  (`DataGap.UnansweredResyncLosesGap`, with a lost conversation in `DataGap.LostConversation`).

Where code and comments differ the model follows the code: the comment at
`pkg/libgm/longpoll.go:43-44` speaks of 3 failed pings and about 8 minutes, while the code takes the
number as a parameter (default 4 in `pkg/libgm/client.go`), which gives at least 16 minutes after the
root ping timed out.

## Model

| member | source | states |
|---|---|---|
| `AesGcm.AesGcmHelper.EncryptData` | pkg/libgm/crypto/aesgcm.go:63-89 | the loop with its shrinking last chunk and wrapping index computes the recursive sealed form of the data |
| `AesGcm.AesGcmHelper.DecryptData` | pkg/libgm/crypto/aesgcm.go:91-126 | wherever the program returns, header exponents of 64 and more included, it passes the input through, rejects the header, or opens the body chunk by chunk |
| `AesGcm.AesGcmHelper.DecryptBody` | pkg/libgm/crypto/aesgcm.go:106-125 | the loop opens exactly the recursive chunks, reports the one-based number, in 32 bits, of the first that fails, and fails at chunk 1 when the chunk size is 0 |
| `AesGcm.AesGcmHelper.DecryptInvertsEncrypt` | pkg/libgm/crypto/aesgcm.go:63-126 | for every byte string and all nonces, decrypting what was encrypted is defined and gives the data back |
| `AesGcm.AesGcmHelper.CapacitiesAreExact` | pkg/libgm/crypto/aesgcm.go:67-68 | the sealed length is 2 + n + 28 per chunk, and what decrypts has exactly the length reserved for it |
| `AesGcm.ChunkCountIsCeiling` | pkg/libgm/crypto/aesgcm.go:103 | the number of chunks is the quotient of length and chunk size rounded up |
| `AesGcm.AadInjective` | pkg/libgm/crypto/aesgcm.go:128-135 | equal additional data means equal position and equal last-chunk flag |
| `AesGcm.AadIs` | pkg/libgm/crypto/aesgcm.go:128-135 | the flag is the first of five bytes, and the other four are the position, highest byte first |
| `AesGcm.AesGcmHelper.ChunkLiesAt` | pkg/libgm/crypto/aesgcm.go:63-89 | behind the bytes 0 and 15, chunk n lies at n times 32768: its nonce and the sealed form of its 32740 bytes, or of what is left, bound to n and to whether it is the last |
| `AesGcm.AesGcmHelper.FailsAtFirst` | pkg/libgm/crypto/aesgcm.go:106-125 | a body of any chunk size fails exactly if some chunk does not open as the number it stands at, and the error names the first such chunk |
| `AesGcm.AesGcmHelper.HeaderDecides` | pkg/libgm/crypto/aesgcm.go:91-101 | nothing, or anything without a 32-byte key, passes through; everything else is rejected if and only if it does not begin with 0 |
| `AesGcm.AesGcmHelper.OpenedIsSealed` | pkg/libgm/crypto/aesgcm.go:106-125 | without forgery, a non-empty run of chunks that opens from a position on is the sealed data from there to the end |
| `AesGcm.AesGcmHelper.OpensOnlyTheOriginal` | pkg/libgm/crypto/aesgcm.go:106-125 | a body opens if and only if it is the sealed body cut as it was sealed, and then to the original data |
| `AesGcm.AesGcmHelper.AcceptsOnlyTheOriginal` | pkg/libgm/crypto/aesgcm.go:91-126 | the same of whole inputs: reordered, dropped, repeated or truncated chunks never decode to anything else |
| `AesGcm.LawsAreSatisfiable` | pkg/libgm/crypto/aesgcm.go:34-59 | the laws asked of the AEAD can be met |
| `AesGcm.NoForgeryIsPossible` | pkg/libgm/crypto/aesgcm.go:34-59 | a lawful AEAD, a sealed body that opens and no forgery of it exist together |
| `Json.ValidOnlyAtTheEnd` | pkg/libgm/longpoll.go:488-492 | however much of an array and what follows was read, it is valid JSON exactly when it is the array |
| `LongPollReader.Accumulator.Append` | pkg/libgm/longpoll.go:488 | appending into the shared backing array appends to the contents |
| `LongPollReader.ReadLongPoll` | pkg/libgm/longpoll.go:430-523 | the read loop over the reused backing array hands on exactly the blocks of the pure deframer, and reports whether one carried data |
| `LongPollReader.Delivers` | pkg/libgm/longpoll.go:464-494 | from any state inside a block, the blocks delivered are those before the first whose end falls inside a read |
| `LongPollReader.DeliversAlignedBlocks` | pkg/libgm/longpoll.go:464-494 | for any split into reads, exactly the leading blocks that end at a read end are dispatched, in order |
| `LongPollReader.DeliversAll` | pkg/libgm/longpoll.go:464-494 | all blocks are dispatched, in order, if and only if every block end is a read end |
| `LongPollReader.OneReadLosesBlocks` | pkg/libgm/longpoll.go:464-494 | two blocks that arrive in one read are not dispatched at all |
| `LongPoll.Client.DoLongPoll` | pkg/libgm/longpoll.go:295-428 | the retry loop produces the log, the result and the two shared fields of the recursive run, whatever other loops and closes do to the fields meanwhile |
| `LongPoll.Client.TakeTurn` | pkg/libgm/longpoll.go:317-427 | one iteration tells, sleeps, ends and leaves the shared fields as its outcome prescribes |
| `LongPoll.Client.CloseLongPolling` | pkg/libgm/longpoll.go:525-533 | closing bumps the generation and clears the field only while a connection is in the field, whosever it is |
| `LongPoll.Client.FailAttempt` | pkg/libgm/longpoll.go:319-406 | a failed attempt counts up, tells a logged-in user, and sleeps or gives up by mode and count |
| `LongPoll.Client.OpenAttempt` | pkg/libgm/longpoll.go:408-426 | an opened attempt reports recovery once, then the connection, then the first-connect callback; it overwrites the shared field when it opens and clears it when its read ends |
| `LongPoll.EventProtocol` | pkg/libgm/longpoll.go:316-427 | for any two moments of a logged-in run: an error between recoveries, nothing after a fatal error, growing sleeps, one callback |
| `LongPoll.PollFollows` | pkg/libgm/longpoll.go:316-427 | every log follows the protocol that an observer keeps track of |
| `LongPoll.AttemptTells` | pkg/libgm/longpoll.go:316-427 | one more attempt behind any run is told of, slept on and returned by its outcome and the failures in a row before it; a run that has ended does nothing more |
| `LongPoll.AttemptStarts` | pkg/libgm/longpoll.go:317 | a foreground run starts an attempt if and only if no earlier one was fatal or had its generation superseded, with the shared field as all loops and closes left it |
| `LongPoll.SupersededIsBumped` | pkg/libgm/longpoll.go:295-297 | the generation moves on in the course of an attempt exactly if another loop started or a close found a connection in the shared field |
| `LongPoll.BackgroundIsShort` | pkg/libgm/longpoll.go:325-331 | background mode ends within two attempts, and with the first that does not fail |
| `LongPoll.BackgroundAttemptStarts` | pkg/libgm/longpoll.go:317-331 | in background mode the second attempt starts if and only if the first was a retry and its generation was not superseded |
| `LongPoll.CloseStopsExactly` | pkg/libgm/longpoll.go:525-533 | a close during a read stops the loop, unless something else does, if and only if the field was not emptied since the connection opened, or was filled again |
| `LongPoll.CloseElsewhere` | pkg/libgm/longpoll.go:408-427 | between two reads a close finds nothing of the loop itself, and during an attempt without a connection what there was before |
| `LongPoll.CloseMissesOpenLoop` | pkg/libgm/longpoll.go:421-422 | a close behind the end of an older loop's read finds an empty field, and the open loop starts its next attempt |
| `LongPoll.StaleConnectionStopsLoop` | pkg/libgm/longpoll.go:525-533 | a connection that an older loop left in the field makes a close during a failing attempt stop the loop, which it does not do otherwise |
| `Pinger.DittoPinger.OnRespond` | pkg/libgm/longpoll.go:83-102 | a response reports recovery if trouble was reported, clears it, and ends the family once |
| `Pinger.DittoPinger.OnTimeout` | pkg/libgm/longpoll.go:104-112 | a timeout reports the silent phone once, if it is the first ping or asked to |
| `Pinger.DittoPinger.OnShortCircuit` | pkg/libgm/longpoll.go:154-162 | a short circuit during backoff reports the silent phone at once, unless it was reported |
| `Pinger.DittoPinger.Send` | pkg/libgm/longpoll.go:186-212 | a ping is skipped, sent, or counted as failed and reported |
| `Pinger.Resetter.Done` | pkg/libgm/longpoll.go:74-81 | only the first call starts a goroutine that closes the channel |
| `Pinger.ReportsAreSound` | pkg/libgm/longpoll.go:83-112 | in every interleaving the consumer's PhoneResponding is the negation of notRespondingSent, and every report is permitted |
| `Pinger.NoRepeatedReports` | pkg/connector/handlegmessages.go:88-102 | two silence reports have a recovery between them, and a recovery follows a silence or failed ping that no response had followed |
| `Pinger.StateIsHistory` | pkg/libgm/longpoll.go:83-212 | in every interleaving the fields are what can be read off the history: whether a response ever came, the last attempt, the failures since the last response, the consumer's flag |
| `Pinger.EachSectionTells` | pkg/libgm/longpoll.go:83-212 | what each locked section reports behind any interleaving, by what was told and answered before: silence, recovery, and numbered failures of pings at least 30 seconds apart |
| `Pinger.FlagBehindSection` | pkg/libgm/longpoll.go:104-112 | a timeout that is asked to tell, or that no response preceded, leaves the phone reported silent, and so does a short circuit; a response leaves no trouble |
| `PingerRun.ScheduleIs` | pkg/libgm/longpoll.go:129-146 | doubling the ticker gives 2^n - 1 minutes up to n = 7 and 64 minutes apart from there |
| `PingerRun.RunKeeps` | pkg/libgm/longpoll.go:114-255 | every run of loop, waiters, timers and closers keeps the invariant of the engine |
| `PingerRun.OnlyTheRootRepings` | pkg/libgm/longpoll.go:130-135 | a waiter that can tick, because its timeout count started at 0, is a root waiter and the one the loop is blocked on |
| `PingerRun.RepingSchedule` | pkg/libgm/longpoll.go:136-153 | re-ping n carries count n plus the short circuits taken and goes out at its scheduled time, or later when ticks are handled late |
| `PingerRun.SilenceTakesTime` | pkg/libgm/longpoll.go:127-128 | after a first success a normal timeout reports silence only once re-ping alertTimeoutCount or a later one has timed out, with the earliest time |
| `PingerRun.SendsAreSpaced` | pkg/libgm/longpoll.go:186-197 | send attempts are at least 30 seconds apart |
| `PingerRun.ResetClosedOnce` | pkg/libgm/longpoll.go:74-81 | the channel of a family is closed at most once and nothing is left that would close it again |
| `PingerRun.ReportsOfRuns` | pkg/libgm/longpoll.go:83-218 | the timed runs make only reports that the interleaving rules permit |
| `PingerRun.ExpireTells` | pkg/libgm/longpoll.go:126-128 | once a ping's timeout has passed the phone is reported silent, unless it is, if and only if no response ever came, the timeout was the short one, or alertTimeoutCount have passed in a row |
| `PingerRun.ShortCircuitTells` | pkg/libgm/longpoll.go:154-162 | a short circuit during the backoff reports at once and counts as a timeout |
| `PingerRun.LoopPings` | pkg/libgm/longpoll.go:186-239 | the loop, when it waits for nobody, attempts a ping unless one was attempted within 30 seconds, and waits for it unless it could not be sent |
| `PingerRun.RepingGoesOut` | pkg/libgm/longpoll.go:136-153 | as long as ticks are handled on time the next re-ping goes out on the minute of the schedule and is waited for |
| `PingerRun.AnswerTells` | pkg/libgm/longpoll.go:119-123 | an answer to any ping leaves no trouble reported and ends its waiter |
| `PingerRun.AnswerEndsFamily` | pkg/libgm/longpoll.go:74-81 | five seconds after an answer every other waiter of the family can end too |
| `PingerRun.ClosesAfterFive` | pkg/libgm/longpoll.go:74-81 | no channel of a family is closed sooner than five seconds after its first answer |
| `DataReceiveCheck.Client.ShouldDoDataReceiveCheck` | pkg/libgm/longpoll.go:271-279 | a check that is due moves the next one an interval ahead |
| `DataReceiveCheck.Client.BumpNextDataReceiveCheck` | pkg/libgm/longpoll.go:281-287 | a bump moves the next check at least that far ahead, never nearer |
| `DataReceiveCheck.DueMeansPassed` | pkg/libgm/longpoll.go:271-287 | a check comes out true if and only if every deadline set so far has passed, in whatever order they were set |
| `DataReceiveCheck.ChecksAreSpaced` | pkg/libgm/longpoll.go:220-240 | true checks are 2 h 55 min apart, and data in between puts the next one off as far |
| `Session.SessionHandler.WaitResponse` | pkg/libgm/session_handler.go:93-99 | registering makes a channel and enters it in the map |
| `Session.SessionHandler.CancelResponse` | pkg/libgm/session_handler.go:101-106 | cancelling closes the channel and removes the waiter |
| `Session.SessionHandler.SendAsyncMessage` | pkg/libgm/session_handler.go:55-78 | a request that fails leaves no waiter, one that succeeds hands out its channel |
| `Session.SessionHandler.TakeWaiter` | pkg/libgm/session_handler.go:123-131 | the locked part takes the waiter of the message's session id, if there is one |
| `Session.SessionHandler.SendTaken` | pkg/libgm/session_handler.go:147 | the send puts the message into the channel or panics on a closed one |
| `Session.SessionHandler.ReceiveResponse` | pkg/libgm/session_handler.go:108-149 | done in one piece, a message is consumed exactly if a waiter was registered, and then sits in its channel |
| `Session.AtMostOneResponse` | pkg/libgm/session_handler.go:93-149 | in every interleaving a caller gets at most one message, and it answers its own request |
| `Session.SendPanicsOnlyInTheRace` | pkg/libgm/session_handler.go:130-147 | the send never blocks, and hits a closed channel if and only if a cancel fell between take and send |
| `Session.RaceIsTheOnlyPanic` | pkg/libgm/session_handler.go:101-147 | without that race nothing panics; with it a run that panics is given |
| `Session.ConsumedMeansAwaited` | pkg/libgm/session_handler.go:123-131 | a message is consumed if and only if someone registered for it, has not cancelled, and got no response yet |
| `Session.ResponseArrives` | pkg/libgm/session_handler.go:108-149 | in any run a message for somebody who waits arrives once it is taken, sent and received, and one for nobody changes nothing |
| `Session.SessionHandler.QueueMessageAck` | pkg/libgm/session_handler.go:257-266 | an id is queued unless it is queued already |
| `Session.SessionHandler.SendAckRequest` | pkg/libgm/session_handler.go:281-288 | taking a batch is the TakeBatch of the acknowledgement machine: the queue is emptied, and a batch that is not empty is sent |
| `Session.PendingIsDistinct` | pkg/libgm/session_handler.go:257-288 | what is pending is what was queued since the last batch, each id once, in order of first arrival |
| `Session.AcksAreConserved` | pkg/libgm/session_handler.go:257-288 | no batch repeats an id, and pending and batches together hold exactly the ids queued |
| `DedupRing.Ring.DeduplicateHash` | pkg/libgm/event_handler.go:126-140 | the ring answers and records as the plain bounded history does, and a duplicate changes nothing |
| `DedupRing.Ring.HasNewest` | pkg/libgm/event_handler.go:127-136 | the backward search finds the newest record of the id in the window |
| `DedupRing.RingAdvances` | pkg/libgm/event_handler.go:137-138 | overwriting the oldest slot records one more update |
| `DedupRing.DuplicateMeans` | pkg/libgm/event_handler.go:126-140 | a non-empty id is a duplicate if and only if its newest record among the last eight has the same hash |
| `DedupRing.NeighboursDiffer` | pkg/libgm/event_handler.go:126-140 | in every reachable state neighbouring records of one id in the window have different hashes |
| `DedupRing.DeliverEvent` | pkg/libgm/event_handler.go:253-273 | the parts of an event are handed on until one is a duplicate |
| `DedupRing.DeliversUpToRepeat` | pkg/libgm/event_handler.go:161-175 | exactly the parts up to the first that repeats a record are handed on and recorded |
| `DedupRing.RedeliveryIsSilent` | pkg/libgm/event_handler.go:161-175 | a second delivery of an event emits nothing if and only if its first id is among the last eight emitted, or nothing was emitted before |
| `DedupRing.RedeliveryAfterOthers` | pkg/libgm/event_handler.go:126-175 | with any updates recorded between two deliveries of an event, the exact condition on the records for the second to emit nothing |
| `DedupRing.LongEventsRepeat` | pkg/libgm/event_handler.go:126-175 | every event of more than eight new parts emits something again on its second delivery |
| `DedupRing.NineLettersRepeat` | pkg/libgm/event_handler.go:126-175 | nine ids at which that happens |
| `Updates.Client.HandleRPCMsg` | pkg/libgm/event_handler.go:177-208 | one message is acknowledged, decoded, matched to a waiter or dispatched, with exactly these events and this new state |
| `Updates.Client.HandlePayload` | pkg/libgm/longpoll.go:501-522 | a decoded block is handled as a message, sets the skip counter, or does nothing, as in the runs |
| `Updates.Client.AckAndMatch` | pkg/libgm/event_handler.go:185-188 | the acknowledgement comes first, then the waiter of a possible response |
| `Updates.Client.CountDown` | pkg/libgm/event_handler.go:202-205 | a positive skip counter falls by one and marks the message old |
| `Updates.Client.HandleUpdatesEvent` | pkg/libgm/event_handler.go:218-306 | which events an update triggers, by kind, age and duplicate filter |
| `Updates.FirstNAreOld` | pkg/libgm/event_handler.go:201-205 | without another ack count, exactly the first skipCount decoded non-response data messages are marked old |
| `Updates.AckCountMarks` | pkg/libgm/longpoll.go:506-512 | after a startup ack count of n exactly the first n of them are marked old, whatever happens in between |
| `Updates.MessagesAreTold` | pkg/libgm/event_handler.go:263-273 | in every run, a handled message gives one event for each of its texts up to the first repeated one, in order, marked old exactly if the message is |
| `Updates.ConversationsAreTold` | pkg/libgm/event_handler.go:252-261 | the same of conversations, which are not told when they are old |
| `Updates.EventsAreExact` | pkg/libgm/event_handler.go:177-306 | every other event comes of a message of any run if and only if its kind, its age, its route and the waiters call for it |
| `Updates.StateIsExact` | pkg/libgm/event_handler.go:185-206 | a response ends the wait for its id; a handled message counts down the backlog and leaves records of exactly the parts that were told |
| `Updates.AwaitedIsHistory` | pkg/libgm/session_handler.go:93-131 | an id is awaited if and only if it was registered and since then neither given up nor answered |
| `Updates.OldIsQuiet` | pkg/libgm/event_handler.go:237-281 | an old message emits no conversation, alert or typing event, and apart from the mark no event that the new message would not emit |
| `Updates.BacklogIsQuiet` | pkg/libgm/event_handler.go:201-281 | after an ack count of n no conversation, alert or typing event of any run stems from the first n handled messages |
| `Updates.AcksFollowTheStream` | pkg/libgm/event_handler.go:177-186 | the acknowledgement queue of any run is that of the message ids of the stream |
| `Updates.EveryMessageIsAcked` | pkg/libgm/event_handler.go:177-186 | for any stream an id is pending or in a batch if and only if a message with it came in, decodable or not, with no repeats |
| `Updates.Client.TakeAcks` | pkg/libgm/session_handler.go:268-288 | the ticker takes the pending ids as one batch, as in the runs |
| `Messages.GetTextPart` | pkg/connector/handlegmessages.go:752-806 | the text part and the hash of subject and texts, each closed by a zero byte |
| `Messages.BodyIsJoined` | pkg/connector/handlegmessages.go:751-779 | the body is the bold title, if there is one, and the texts, a line break between each and the next |
| `Messages.HashInputTells` | pkg/connector/handlegmessages.go:755-770 | messages without zero bytes have one hash input if and only if they have one subject and the same texts in the same order |
| `Messages.ZeroBytesCollide` | pkg/connector/handlegmessages.go:769-770 | two messages of different texts, one with a zero byte, that have one hash input |
| `Messages.TextHashTells` | pkg/connector/handlegmessages.go:755-780 | with a hash that tells the two inputs apart, the text hashes differ exactly if subject or texts do, unless neither message shows anything |
| `Messages.PendingIsRanked` | pkg/connector/handlegmessages.go:837-880 | a status has a pending text if and only if it ranks below the finished ones, and automatic downloads rank lowest |
| `Messages.StagesDiffer` | pkg/connector/handlegmessages.go:855-880 | two pending statuses have one text if and only if they are the same or both are downloads in progress |
| `Reconcile.ConvertGoogleMessage` | pkg/connector/handlegmessages.go:1268-1324 | the loop builds the text part and one part a media, the first of all under the empty id |
| `Reconcile.ConvertedAre` | pkg/connector/handlegmessages.go:1268-1324 | a text part if there is something to show or a download pending, and behind it one part a media, in order, with its ids, status, best media id and whether it is waited for |
| `Reconcile.FindMediaPart` | pkg/connector/handlegmessages.go:901-908 | the first stored part with the media's id |
| `Reconcile.MessageWasEdited` | pkg/connector/handlegmessages.go:910-954 | edited means a changed media of an incoming message, or another text hash |
| `Reconcile.MainOfConversion` | pkg/connector/handlegmessages.go:1268-1324 | the main part of every conversion carries the status, hash, download text and part count that the comparison looks at |
| `Reconcile.NothingChanged` | pkg/connector/handlegmessages.go:910-940 | no media of a just stored message looks changed if and only if its ids tell its media apart |
| `Reconcile.ConversionAgreesWithComparison` | pkg/connector/handlegmessages.go:994-1003 | a just stored message that arrives again is resynced if and only if its ids fail to tell its media apart or a failed transfer may be retried |
| `Reconcile.RepeatIsNoEdit` | pkg/connector/handlegmessages.go:994-1003 | with distinct non-empty ids and no failed transfer there is nothing to do |
| `Reconcile.SharedIDLooksChanged` | pkg/connector/handlegmessages.go:910-940 | two media under one id: the message looks changed as soon as it is stored |
| `Reconcile.FailedTransferLooksChanged` | pkg/connector/handlegmessages.go:994-1003 | a failed transfer: the message looks changed until it succeeds |
| `Reconcile.ConvertedIsEmpty` | pkg/connector/handlegmessages.go:1268-1283 | a conversion has no part if and only if there is no text, no pending download and no media |
| `Reconcile.ChangesAreSeen` | pkg/connector/handlegmessages.go:910-954 | a media part with another media id than the stored one, or a text that hashes differently, is seen |
| `Reconcile.ComparisonSeesExactly` | pkg/connector/handlegmessages.go:994-1003 | another message in place of the stored one, whoever sent it, is resynced if and only if pending text, number of parts, subject or texts changed, a media of an incoming message is new, or all media are there and one was waited for |
| `Reconcile.TextEditIsSeen` | pkg/connector/handlegmessages.go:945-952 | a changed subject or text of a message that showed something is always taken for an edit |
| `Edits.ConvertEdit` | pkg/connector/handlegmessages.go:562-610 | it panics if and only if nothing is stored or nothing converted; else the edit made in place is the one that the fates of the parts prescribe, computed from the parts as they were |
| `Edits.FilterParts` | pkg/connector/handlegmessages.go:583-602 | overwriting the front of the array never corrupts a part still to be read |
| `Edits.PartsArePartitioned` | pkg/connector/handlegmessages.go:583-606 | the parts of the returned edit, modified and added, and the parts too old to be added are together exactly the converted parts |
| `Edits.OrderIsKept` | pkg/connector/handlegmessages.go:583-606 | the modified and the added parts of the returned edit are subsequences of the converted parts, at disjoint places |
| `Edits.MissingMeansTooOld` | pkg/connector/handlegmessages.go:584-601 | with distinct ids a converted part is missing from the edit if and only if no stored part has its id and it is too old to be added |
| `Edits.AddedExactly` | pkg/connector/handlegmessages.go:584-594 | a part whose id is stored replaces its row; any other is added if and only if the chat changed or the message is less than 24 hours old then |
| `Edits.DeletedExactly` | pkg/connector/handlegmessages.go:606-609 | a row is deleted if and only if the conversion has no part with its id |
| `Edits.CarriedAre` | pkg/connector/handlegmessages.go:575-581 | of the stored main part nothing but the sender and the four flags is taken over |
| `Edits.EditExists` | pkg/connector/handlegmessages.go:562-610 | there is such an edit for all stored and converted parts |
| `Edits.ExistingArePartitioned` | pkg/connector/handlegmessages.go:568-608 | each stored part is modified or deleted and not both, and none is modified twice |
| `Edits.MainAfterEdit` | pkg/connector/handlegmessages.go:574-581 | after any edit the main row is the main converted part with the flags of the former main row |
| `Edits.StoredIsConverted` | pkg/connector/handlegmessages.go:562-610 | after the edit the rows are exactly the converted parts that were not dropped |
| `Resync.ConvertedIDs` | pkg/connector/handlegmessages.go:1284-1290 | distinct media ids give distinct part ids and distinct media part ids |
| `Resync.EditSettles` | pkg/connector/handlegmessages.go:994-1003 | after a resync, failed transfers included, the same message is resynced again if and only if it is incoming and a part was too old to be added, or a part with a failed transfer is stored and no media is on its way |
| `Resync.TimelyEditSettles` | pkg/connector/handlegmessages.go:584-601 | when no part can be too old and no transfer fails, the rows become exactly the converted parts and the message settles |
| `Resync.TimelyAttachmentIsStored` | pkg/connector/handlegmessages.go:592-594 | a text that gains a picture within a day, or in another chat, gets it stored and settles |
| `Resync.LateAttachmentResyncs` | pkg/connector/handlegmessages.go:594-601 | a day-old text that gains a picture never settles |
| `Receipts.HandleExisting` | pkg/connector/handlegmessages.go:968-1162 | which updates are ignored, resent, resynced or only announced, and the flags and events of each |
| `Receipts.Announce` | pkg/connector/handlegmessages.go:1087-1134 | the flags raised and the signals sent, all decided by the flags from before |
| `Receipts.ChangesAreSaved` | pkg/connector/handlegmessages.go:976-1162 | a raised flag is always saved, reactions are synced with every resync or signal, and a resent message changes nothing |
| `Receipts.SubEventsAreExact` | pkg/connector/handlegmessages.go:976-1085 | a resync is asked for if and only if the update is heeded and its chat or content changed, once and before the reactions, which every heeded update syncs |
| `Receipts.SentAnewExactly` | pkg/connector/handlegmessages.go:976-992 | the message is handed on to be sent anew if and only if the update is no downgrade and more than a week late |
| `Receipts.SavedExactly` | pkg/connector/handlegmessages.go:1012-1160 | the rows are saved if and only if a heeded update changes the status, asks for a resync or gives a signal |
| `Receipts.StatusIsTold` | pkg/connector/handlegmessages.go:1087-1113 | success and failure are told by what is due, a failure with its own status |
| `Receipts.OnlyFlagsChange` | pkg/connector/handlegmessages.go:1087-1134 | apart from the edit an update changes nothing but the flags of the signals it gives |
| `Receipts.TextEditIsStored` | pkg/connector/handlegmessages.go:945-1085 | a changed text of a stored message makes a heeded update ask for the resync, and its edit leaves the new text, status and count in the row |
| `Receipts.PanicsExactly` | pkg/connector/handlegmessages.go:575-576 | an update's edit panics if and only if the update is heeded, its chat or content changed, and the message has nothing to show, no pending download and no media |
| `Receipts.BaringTextPanics` | pkg/connector/handlegmessages.go:575-576 | taking away the text of a stored message leads there, unless the update is a downgrade or too late |
| `Receipts.SomeUpdatePanics` | pkg/connector/handlegmessages.go:575-576 | a stored message and an update at which that happens |
| `Receipts.SignalIsGiven` | pkg/connector/handlegmessages.go:1004-1012 | a signal is given if and only if the status calls for it, it was not given before, and the message is not sent anew |
| `Receipts.MainAfter` | pkg/connector/handlegmessages.go:575-581 | an update with or without an edit keeps the flags, the sender, and never lowers the download rank |
| `Receipts.SignalsAreConserved` | pkg/connector/handlegmessages.go:1087-1134 | over any run of updates and edits each signal is given as often as its flag is raised |
| `Receipts.SuccessIsFinal` | pkg/connector/handlegmessages.go:1005 | over any run no failure follows a success |
| `Receipts.ReceiptsAreOneShot` | pkg/connector/handlegmessages.go:968-1134 | each of the four signals at most once, no failure after a success, and the rank of the stored status never falls |
| `DataGap.GMClient.HandleGMEvent` | pkg/connector/handlegmessages.go:144-234 | the new state and the resync started, for each event |
| `DataGap.GMClient.HandleUserAlert` | pkg/connector/handlegmessages.go:256-337 | the same for each alert |
| `DataGap.GMClient.HackyResetActive` | pkg/connector/handlegmessages.go:414-420 | the reset that is done once forgets the time of the last data |
| `DataGap.SyncConversations` | pkg/connector/chatsync.go:33-66 | the decision loop syncs the whole list or nothing |
| `DataGap.SyncedExactly` | pkg/connector/chatsync.go:44-65 | the list is synced whole unless the resync is minimal and nothing in it is newer than a known time, and else not at all |
| `DataGap.GapIsKept` | pkg/connector/handlegmessages.go:218-228 | while a gap is open the time stands still and every resync uses it |
| `DataGap.GapIsOpenExactly` | pkg/connector/handlegmessages.go:144-296 | until data is missed again, the gap is open if and only if neither data nor a BROWSER_ACTIVE nor the one-time reset has come |
| `DataGap.StateIsAsSeen` | pkg/connector/handlegmessages.go:144-337 | each field behind any run is decided by the last step that concerns it |
| `DataGap.SyncStartsExactly` | pkg/connector/handlegmessages.go:256-303 | a resync starts if and only if the database was synced, or the browser becomes active in another session, after inactivity or in a gap; with which time, and whether minimal |
| `DataGap.GapIsResynced` | pkg/connector/handlegmessages.go:262-296 | the first BROWSER_ACTIVE after NoDataReceived starts a resync with the time from before, which syncs everything or finds nothing newer |
| `DataGap.UnansweredResyncLosesGap` | pkg/connector/handlegmessages.go:295-303 | whatever follows a BROWSER_ACTIVE, every later resync uses a time no older than it: of a list with no newer message the minimal ones sync nothing and the others all |
| `DataGap.LostConversation` | pkg/connector/handlegmessages.go:295-303 | a conversation with a message from the gap that is missed that way |
| `ConversationSync.GMClient.SyncConversationMeta` | pkg/connector/chatsync.go:68-96 | the locked update of one conversation's read mark and spam time, leaving the others alone |
| `ConversationSync.MarkedAtFirstSpam` | pkg/connector/chatsync.go:85-89 | only the first move into spam is remembered, however often it happens |
| `ConversationSync.DroppedExactly` | pkg/connector/chatsync.go:92-94 | an update is dropped if and only if it leaves spam within a minute of the first move into it |
| `ConversationSync.ReadMarkIsReal` | pkg/connector/chatsync.go:77-84 | the read mark names the latest message of an update that was read |
| `ConversationSync.ReadMarkExactly` | pkg/connector/chatsync.go:77-84 | the mark and its time are those of the last update that was read, until an unread update names that very message |
| `DelayedBackfill.RunKeepsInv` | pkg/connector/chatsync.go:139-167 | every interleaving of calls and goroutines, with the timer and the queuing apart, keeps the invariant |
| `DelayedBackfill.LiveIsReachable` | pkg/connector/chatsync.go:146-150 | each backfill that a cancel could still stop is in the slot, or exactly one call is about to cancel it |
| `DelayedBackfill.CancelDecides` | pkg/connector/chatsync.go:148-167 | behind a cancel some continuation queues the backfill if and only if the cancel did not find its goroutine parked in the select |
| `DelayedBackfill.PromptCancelDecides` | pkg/connector/chatsync.go:154-167 | if its goroutine is not held up, a cancelled backfill can still be queued if and only if it had left the select through the timer |
| `DelayedBackfill.CancelledInTime` | pkg/connector/chatsync.go:155-161 | a backfill cancelled before its fifteen seconds are over queues nothing in any continuation in which its own goroutine is not held up |
| `DelayedBackfill.CancelledTooLate` | pkg/connector/chatsync.go:154-163 | a run in which a newer call comes between the timer and the queuing, and the older backfill is queued all the same |
| `DelayedBackfill.SelectedTooLate` | pkg/connector/chatsync.go:155-161 | a run in which a goroutine reaches the select only after its timer ran out, and queues although it was cancelled at once |
| `DelayedBackfill.WaitsItOut` | pkg/connector/chatsync.go:155-163 | an armed backfill fires and is queued no earlier than its deadline |
| `DelayedBackfill.QueuedAfterFifteen` | pkg/connector/chatsync.go:155-163 | no run queues a backfill sooner than fifteen seconds after its timer was armed |
| `DelayedBackfill.FiredIsFinal` | pkg/connector/chatsync.go:154-167 | a backfill that has fired stays so and is queued at most once |
| `DelayedBackfill.CancelledIsFinal` | pkg/connector/chatsync.go:154-167 | if its own goroutine is not held up, a cancelled backfill has fired if and only if it had fired at the cancel |
| `DelayedBackfill.BurstLeaves` | pkg/connector/chatsync.go:146-167 | before the next swap some continuation queues a backfill if and only if its call has swapped and its goroutine has not ended cancelled |
| `DelayedBackfill.BurstLeavesTheLast` | pkg/connector/chatsync.go:146-163 | when a burst has done its cancels, a backfill that has not fired and is not held up is queued before the next swap only if it is that of the last swap |
| `DelayedBackfill.SlotIsTheLastSwap` | pkg/connector/chatsync.go:147 | the slot keeps the backfill of the last swap |
| `Cursors.RoundTrip` | pkg/connector/backfill.go:37-55 | a cursor parses back from its print if and only if its id is a canonical decimal of 64 bits |
| `Cursors.LetterIsLost` | pkg/connector/backfill.go:37-55 | the cursor of an id that is no number does not parse |
| `Cursors.ZerosAreLost` | pkg/connector/backfill.go:37-55 | a number with leading zeros comes back without them, with its time |
| `Cursors.ParsedIsCanonical` | pkg/connector/backfill.go:44-55 | whatever parses is a cursor that prints and parses to itself |
| `Cursors.PrintingIsInjective` | pkg/connector/backfill.go:37-42 | two canonical cursors with one print are equal |
| `Paging.FetchMessages` | pkg/connector/backfill.go:57-166 | one fetch with the chosen cursor, and the page it makes of the answer |
| `Paging.ReverseInPlace` | pkg/connector/backfill.go:101 | the answer is reversed in place |
| `Paging.FilterMessages` | pkg/connector/backfill.go:108-141 | the messages kept, in order, with the precedence that the condition has in Go |
| `Paging.PageHolds` | pkg/connector/backfill.go:108-125 | forwards and backwards, a message is on the page if and only if it was answered, can be sent, is not the anchor, and lies on the right side of anchor or cursor |
| `Paging.OldestIsUsed` | pkg/connector/backfill.go:65-87 | the phone is asked with the oldest of the given cursor and, backwards, the anchor's, and with none only if there is neither |
| `Paging.PageSays` | pkg/connector/backfill.go:103-163 | there is more if and only if the page has a message; backwards the cursor is the phone's, or else that of the oldest message answered |
| `Paging.ReadExactly` | pkg/connector/backfill.go:146-154 | a forward page is marked read if and only if the conversation is known to be read as a whole, up to its last message's time, or up to the newest message answered |
| `Paging.PageIsInOrder` | pkg/connector/backfill.go:101-141 | of two messages on a page the first was answered behind the second |
| `BackwardPaging.PageIsOlder` | pkg/connector/backfill.go:101-119 | a page ascends, comes from the answer, and is strictly older than the cursor used |
| `BackwardPaging.CursorDrops` | pkg/connector/backfill.go:83-87 | behind a page whose cursor steers, the next call uses a cursor strictly older than the one before and no newer than the page |
| `BackwardPaging.SteeringIsNecessary` | pkg/connector/backfill.go:44-55 | the next page lies strictly behind a page whatever the phone answers if and only if the page's cursor parses with a time no newer than the page |
| `BackwardPaging.OrdinarySteers` | pkg/connector/backfill.go:157-163 | with no cursor of the phone's own, a decimal id of the oldest message makes the page steer |
| `BackwardPaging.FirstPageRepeats` | pkg/connector/backfill.go:65-68 | when the oldest message prints to no cursor, the first page comes back for ever |
| `BackwardPaging.LetterRepeats` | pkg/connector/backfill.go:65-68 | an id at which that happens |
| `BackwardPaging.PagesDescend` | pkg/connector/backfill.go:101-163 | every message of a later page is strictly older than every one of an earlier page |
| `BackwardPaging.NothingTwice` | pkg/connector/backfill.go:101-163 | no message is returned twice, whatever the anchors and counts |
| `BackwardPaging.WalkEnds` | pkg/connector/backfill.go:142-163 | feeding the cursor back ends: behind a cursor there are at most as many pages as messages left, and one |
| `BackwardPaging.WalkIsComplete` | pkg/connector/backfill.go:108-163 | all messages are returned if and only if no page boundary splits one millisecond and every message has an id |
| `BackwardPaging.SplitMillisecondLoses` | pkg/connector/backfill.go:108-119 | two messages of one millisecond of which one is never returned |

## Left out

- HTTP, cookies, token refresh, protobuf and pblite encoding, Matrix and database calls: unseen libraries; their results are parameters.
- AES, GCM and SHA-256 internals: an abstract AEAD with its laws, and an abstract hash.
- The number of chunks is rounded up exactly, where the program divides floating-point numbers; this concerns reserved capacities only, which are left out for a chunk size of 0.
- encoding/json's limit of 10000 nested values; a char stands for a byte.
- The background close timer of readLongPoll and its log messages about a missing end of file.
- The long poll's fields are not locked: each read or write of `listenID` and `longPollingConn`, and closeLongPolling as a whole, is one step of the model, taken in some order; races within closeLongPolling are not modelled.
- `oldestPingTime`, which the ping engine writes and never reads.
- The Loop's extra GET_UPDATES call after a long disconnection; only the interval check is modelled.
- A waiter of the pinger that has received from a channel is taken to be still waiting until it has the lock: the model has these runs and more.
- HandleRPCMsg is one step in the runs of `Updates.dfy`; it touches each thing that it shares with other goroutines once.
- Liveness and scheduler fairness: the machines prove what can happen and when at the earliest.
- Caption merging (`pkg/connector/handlegmessages.go:1325-1332`), which rests on a library that is not part of this model.
- Group read receipts and the group status text: not one-shot across edits, because ConvertEdit does not carry them over.
- Content, extra fields and reply targets of converted parts: only ids and metadata take part in the reconciliation.
- How an edit is stored is the bridge library's business; the model stores the converted metadata in the row of its part, removes deleted rows and appends added ones.
- The redaction of messages in the old room when the chat id changed.
- `handleSettings`, bridge state and battery or data-connection flags: they do not touch the data-gap state.
- The events that syncConversation queues at once, and the chat info cache.
- Login errors and the portal id of FetchMessages, which fail before anything is decided.
- Capabilities tables, media conversion, contact lookup, avatars and login flows: tables and input/output.
- BackwardPaging.WalkIsComplete: for a phone that gives no cursor and goes on where its last answer ended, last messages of the pages that are followed by another whose printed cursors parse with their time, and users who can all be represented.
- BackwardPaging.NothingTwice: for walks in which every page that is followed by a call steers; that this is necessary is BackwardPaging.SteeringIsNecessary.
- DelayedBackfill.CancelledInTime: for runs in which the goroutine of that backfill reaches the select before the timer it armed runs out; DelayedBackfill.SelectedTooLate shows why, and DelayedBackfill.CancelDecides speaks of all runs.
- Edits.ExistingArePartitioned: for distinct ids of stored parts, which are keys of their table.
- Receipts.ReceiptsAreOneShot: for one stored message; when it is deleted to be sent anew, the new rows start without flags. A panicking edit leaves the rows as HandleExisting left them.
- Messages.TextHashTells: for messages without zero bytes and a hash that does not collide on the two inputs, as Reconcile.ComparisonSeesExactly and Receipts.TextEditIsStored; Messages.ZeroBytesCollide shows why.
- Updates.MessagesAreTold: parts are new as far as the eight records of DedupRing tell; DedupRing.LongEventsRepeat shows what they do not tell.
