# FileTea: the relay, the registry and the seeder

FileTea is a server that relays files from seeders to leechers over HTTP, and a seeder client.
This project models its four stateful parts and the log queue, callback by callback, and proves
what they keep over whole runs.

- **Transfer** (`TransferSpec`, `Transfers`, `TransferAccounting`, `TransferSafety`,
  `TransferCompletion`, `TransferProgress`, `TransferVerdicts`, `TransferStatus`,
  `TransferEndings`, `TransferPairs`, `TransferHandlers`, `TransferCloseHandlers`,
  `TransferLiveness`, `TransferLaws`, `TransferRanges`, `ByteRanges`, `Relay`). The callbacks of a transfer
  update a class in place; each method is proved to make one step of a state machine that also
  records what the main loop and the connections hold for the transfer and which octets have
  passed. The theorems are about all sequences of events of that machine.
- **Registry** (`SourceIds`, `Signing`, `Registry`, `Nodes`, `Server`). The node's two hash
  tables of shared, mutable source objects are proved to stand for one map from identifier to
  record; the identifier generator, the signatures and runs of calls are proved on top of it.
- **Protocol** (`Json`, `Wire`, `Batches`, `BatchLaws`, `Protocol`). Printing, parsing, batches with per-item
  errors, and the exchange by which a client gets an identifier and claims it back.
- **Seeder** (`SeederSpec`, `Seeders`, `SeederTheorems`, `SeederLaws`) and **end to end** (`EndToEnd`). The
  seeder's block loop, and its composition with the relay through a FIFO of octets.
- **Log** (`AccessLog`). The queue of HTTP log lines with its single writer.

`dafny verify dfyconfig.toml` checks everything.

## How the environment is modelled

An event carries what a library call returns: whether there is room to write, the octets of a
read, whether a write, a response or the headers went out. Events for which no handler is
connected or no operation is pending change nothing. Everything else is arbitrary: events come
in any order, connections may close at any moment and more than once. The facts used about the
libraries are these.

- A closed target takes no more octets, a read returns no more than was asked for, and a read of
  a file returns nothing only at its end.
- `GSimpleAsyncResult`: the last error set wins; setting an error on a missing result does
  nothing; completing in idle runs the callback once, later, and the result holds a reference to
  its transfer until then.
- json-glib: only strings, numbers and booleans are values; reading a string from something else
  gives NULL, reading an integer from a string gives 0, and a missing member reads as null.

Random bytes are arbitrary. The keyed hash is a parameter; only `SignatureVouches` asks that it
be free of collisions. Peers and connections are numbers that stand for object identity.

Some properties that one might expect are false of the code; the project says exactly when they
hold.

- The assertion on `transferred` fails exactly for announced lengths below the source size
  (`OverrunIff`), and a success then delivers the beginning of the file (`BeginningOfFile`).
- An empty source, or more than a source has, can never be delivered (`SuccessReachableIff`).
- The seeder's assertion fails exactly for empty files and stale sizes (`SeederCrashIff`).
- The outcome tells whether the leecher has the whole source (`SuccessMeansWhole`), except exactly
  after a push that starts late or a cancellation in the flush window (`MisledIff`).
- The final status tells less than the outcome: `LooselyIff` lists what goes with what, and
  `FittingIff` what remains without a late push.
- A released transfer can leave handlers behind. A close handler can be left exactly by a push that
  replaces another connection that is still watched (`HauntedIff`), and the write handler exactly by
  a push that connects it again once the result is gone, unless the end of a flush or of a read is
  sure to come before the release (`DanglingIff`).
- A push whose headers do not go out leaves a transfer that nothing of its own can end
  (`AbandonedIff`).
- A batch with a number or boolean for a name or type ends the process (`BatchEndsIff`).
- Tags after an empty or non-string one are lost, and so are sizes from 2^63 on
  (`SourceRoundTrip`).
- A short write loses the rest of a log line (`LogFifo`).

Preconditions that come from the code: a node id without `=` (`PaddedPrefixIsStuck`) that is at most
as long as the start depth, and a start depth at which identifiers have at least the seven
characters that the setter asks for (`LongEnough`); identifiers of transfers that are never repeated.

## Model

| member | source | states |
|---|---|---|
| `EndToEnd.EndToEndCopy` | filetea/filetea-main.c:244-338 | for a non-empty file of its registered size, sent unchunked, under any interleaving of seeder and relay events with any split into blocks on both sides: a success leaves exactly the file with the leecher, a drop, failed read or failed write means that the body is not the file, and in every run without a cancellation in the flush window and without a late start of a seeder that has written or can write the whole file, the transfer succeeds if and only if the body is the file |
| `EndToEnd.MisguidedIff` | filetea/filetea-transfer.c:399-425 | the condition is exact: after any such run, the next event makes it possible that the outcome says the wrong thing if and only if it is a cancellation in the flush window or a late start of a seeder that has written or can write the whole file |
| `EndToEnd.BeginningOfFile` | filetea/filetea-transfer.c:195-314 | for any file, any registered size and any range, the body is always a prefix of the file; a success means the announced number of octets, hence the file if and only if its length was announced |
| `EndToEnd.NeverStuck` | filetea/filetea-transfer.c:195-345 | no lost wake-up on either side: from every reachable state with the relay in flight and the seeder healthy, some continuation delivers a success with the whole source |
| `EndToEnd.AlwaysEnds` | filetea/filetea-transfer.c:195-345 | whatever has become of the seeder, a transfer of a whole source that has not been abandoned can be brought to its outcome by the relay alone |
| `TransferSafety.RelaySafety` | filetea/filetea-transfer.c:195-314 | in every reachable state after at most one push the body is exactly the first `transferred` octets of the source stream, and a success means that the announced length was handed over |
| `TransferSafety.ReadDiscipline` | filetea/filetea-transfer.c:279-314 | at most one read is outstanding, on the connection of the seeder, for 1 to 0x4000 octets that exist |
| `TransferSafety.BufferUndisturbed` | filetea/filetea-transfer.c:279-314 | until a read has come back, no event reads into the shared buffer again |
| `TransferSafety.BlockCount` | filetea/filetea-transfer.c:241-273 | the number of non-empty blocks written is between transferred/0x4000, rounded up, and transferred |
| `TransferSafety.PushSettles` | filetea/filetea-transfer.c:520-557 | once a push is accepted the start timer stays off and the announced length is the one the configuration determines |
| `TransferSafety.RefusedSafe` | filetea/filetea-transfer.c:226-239 | a refused write cannot leave a gap: the invariant that the body is a prefix survives it, because the target is closed |
| `TransferCompletion.OutcomeTells` | filetea/filetea-transfer.c:366-397 | for a whole source, in every run: success means everything written, in ceil(size/0x4000) to size blocks, and exactly one flush; a drop, failed read or failed write means that octets are missing |
| `TransferVerdicts.SuccessMeansWhole` | filetea/filetea-transfer.c:366-397 | in every run with at most one push, no late start and no cancellation in the flush window, every delivered outcome, timeouts and cancellations included, is a success if and only if the whole source was handed over |
| `TransferVerdicts.MisledIff` | filetea/filetea-transfer.c:666-682 | the condition is exact: after any such run, the next event makes it possible that an outcome says the wrong thing if and only if it is a push that starts late with the target open, or a cancellation after the last octet was written and before the flush is over |
| `TransferVerdicts.CancelledThoughComplete` | filetea/filetea-transfer.c:666-682 | any whole source can be handed over completely and be reported as cancelled |
| `TransferVerdicts.TimedOutThoughComplete` | filetea/filetea-transfer.c:399-425 | a seeder that starts after the timeout can hand over all of any source, which is then reported as timed out |
| `TransferVerdicts.StepTelling` | filetea/filetea-transfer.c:165-425 | every callback but the misleading ones keeps it so that a failed or failing transfer lacks octets and can write no more |
| `TransferCompletion.NeverAborted` | filetea/filetea-transfer.c:247 | the assertion `transferred <= transfer_len` cannot fail when the announced length is the size of the source |
| `TransferCompletion.ActiveWhileRelaying` | filetea/filetea-transfer.c:586-599 | while the relay waits to write and octets are to go, the transfer is active and the close of its target is watched |
| `TransferCompletion.StepWhole` | filetea/filetea-transfer.c:165-425 | the invariant behind the verdicts is kept by every callback: close handlers only while octets are missing, one pending flush per success in the making, cut outcomes only with a closed target |
| `TransferProgress.OverrunIff` | filetea/filetea-transfer.c:292-298 | the assertion `transferred <= transfer_len` can fail if and only if the announced length is below the size of the source, since reads are bounded by the size |
| `TransferProgress.SuccessReachableIff` | filetea/filetea-transfer.c:296-299 | a transfer can succeed if and only if the source is not empty and no more is announced than it has |
| `TransferProgress.DrainOpen` | filetea/filetea-transfer.c:195-314 | a relay to an open target can be made to hand over the rest of the source from every state, whatever its outcome is going to be |
| `TransferProgress.Drain` | filetea/filetea-transfer.c:195-364 | from every state in flight some continuation reads the rest of the stream in order and delivers a success with it appended to the body |
| `TransferProgress.Advances` | filetea/filetea-transfer.c:241-273 | a read that returns octets brings body, stream and count forward by exactly these octets, and leaves the outcome alone |
| `TransferProgress.WakesUp` | filetea/filetea-transfer.c:195-203 | with no read pending and octets to go, the next chance to write issues a read |
| `TransferLiveness.AbandonedIff` | filetea/filetea-transfer.c:576-584 | a transfer of a whole source whose outcome has not been delivered can be brought to it by its own timer, operations and write handler alone if and only if it has not been abandoned by a push whose headers did not go out |
| `TransferLiveness.AbandonsIff` | filetea/filetea-transfer.c:576-584 | a transfer becomes abandoned exactly by an accepted push, in time, whose headers do not go out |
| `TransferLiveness.HelpEnds` | filetea/filetea-transfer.c:165-178 | a cancellation or the close of the target still ends an abandoned transfer |
| `TransferAccounting.CompletedOnce` | filetea/filetea-transfer.c:366-397 | in every run, with no assumption on pushes, the completion callback runs at most once, and the transfer is in the table exactly until it has run |
| `TransferAccounting.ReleasedOnlyWhenIdle` | filetea/filetea-transfer.c:301-308 | the reference count always equals table entry, pending reads, pending flushes and open or scheduled result, so the object goes exactly when nothing of this is left; its timer, the close handler of the target and that of the current source connection are then gone |
| `TransferCloseHandlers.CloseHandlersGone` | filetea/filetea-transfer.c:119-135 | with at most one push, a released transfer has no close handler left on any connection, and no timer |
| `TransferCloseHandlers.NoHandlerLeft` | filetea/filetea-transfer.c:495-508 | in every run, with any number of pushes, in which none replaces another connection that is still watched, a released transfer has no close handler left |
| `TransferCloseHandlers.HauntedIff` | filetea/filetea-transfer.c:495-508 | the condition is exact, for any number of pushes: after any such run, the next event makes it possible that a close handler outlives the object if and only if it is a push that replaces another connection that is still watched |
| `TransferCloseHandlers.ReplacedConnectionKeepsHandler` | filetea/filetea-transfer.c:495-508 | it happens: a connection that is replaced by another keeps its handler |
| `TransferHandlers.WriteHandlerGone` | filetea/filetea-transfer.c:338-342 | in every run, with any number of pushes and any range, without a push that lingers, no released transfer has a write handler on an open target |
| `TransferHandlers.DanglingIff` | filetea/filetea-transfer.c:586-599 | the condition is exact, for any number of pushes and any range: after any such run, the next event makes it possible that the write handler outlives the object if and only if it is a push that gets the headers out to an open target once the result is gone, with no flush pending, and with no read begun or octets announced that are still to go |
| `TransferHandlers.TimedOutTransferDangles` | filetea/filetea-transfer.c:586-599 | it happens to a transfer whose timeout has been answered when a seeder pushes before the outcome is delivered |
| `TransferAccounting.OutcomeIsFinal` | filetea/filetea-transfer.c:391-396 | no later event adds to or changes a delivered outcome |
| `TransferAccounting.CompletionCloses` | filetea/filetea-transfer.c:378-389 | a result handed over by a flush closes no connection; any other way closes the target and the current source connection |
| `TransferAccounting.LateReadOverwritesStatus` | filetea/filetea-transfer.c:216-222 | the status is not absorbing: a failed read turns TARGET_ABORTED into ERROR |
| `TransferAccounting.TimeoutEndsAsCompleted` | filetea/filetea-transfer.c:336-342 | a transfer whose start timed out ends with status COMPLETED and outcome TIMED_OUT |
| `TransferStatus.StatusChanges` | filetea/filetea-transfer.c:165-425 | in every run, once the result is gone the status changes only by a read that comes back, the end of a flush, a late push that gets the headers out, or the close of a connection that such a push has brought |
| `TransferStatus.StatusAfterwards` | filetea/filetea-transfer.c:205-239 | for a whole source without a late push: exactly a read that comes back makes it ERROR and the end of a flush COMPLETED; nothing else but a late push changes it |
| `TransferStatus.StatusTells` | filetea/filetea-transfer.c:336-342 | without a late push a transfer is marked as completed if and only if a flush has ended, whatever its outcome, and its status fits its outcome |
| `TransferStatus.CompletedMeansFlushed` | filetea/filetea-transfer.c:336 | in every run, whatever the source and the pushes, a transfer marked as completed has seen a flush end |
| `TransferStatus.StepOrderly` | filetea/filetea-transfer.c:165-425 | every callback but a late push keeps at most one flush, no read beside it, and a status that fits the outcome |
| `TransferEndings.FittingIff` | filetea/filetea-transfer.c:366-397 | without a late push a transfer can be released with an outcome and a status if and only if the two fit; all ten fitting pairs occur, so that COMPLETED goes with success, timeout and cancellation |
| `TransferPairs.LooselyIff` | filetea/filetea-transfer.c:165-425 | in all runs of a whole source with at most one push, late or not: a transfer can be released with an outcome and a status if and only if the pair is one of these ten or of eight more that a late push adds; TARGET_ABORTED goes only with a drop, and a success only with COMPLETED |
| `TransferPairs.StepPaired` | filetea/filetea-transfer.c:165-425 | every callback keeps the status within the table, because only outcomes from before the push can still meet a push or a close |
| `TransferEndings.LatePushLeavesActive` | filetea/filetea-transfer.c:586-599 | a late push can leave a cancelled transfer behind as ACTIVE |
| `TransferAccounting.StepAccounted` | filetea/filetea-transfer.c:165-425 | one completion in one place and an exact reference count are kept by every callback |
| `TransferAccounting.ReadsWaitForRoom` | filetea/filetea-transfer.c:292-313 | backpressure: without room at the target no callback issues a read |
| `TransferLaws.StepLaws` | filetea/filetea-transfer.c:165-425 | for every state and event, the new value of every part of the transfer from the old state and what has happened: the status, who hands the result over and with which verdict, which read is issued (for the smaller of 0x4000 and what is left, if and only if there is room, something left and none pending), octets, connections, flushes, handlers, references and what a release takes along |
| `TransferLaws.InitialLaw` | filetea/filetea-transfer.c:429-485 | a new transfer is not started, has its success to be decided, a running timer, a watched target and two references; a negative start is dropped |
| `ByteRanges.ServiceableIff` | filetea/filetea-transfer.c:541-553 | for every pair of 64-bit range bounds and size below 2^63: the announced range lies in the source with length end - start + 1 in 1..size if and only if the start is inside and the end, if given, does not precede it (sections 2.1 and 4.2 of RFC 7233) |
| `ByteRanges.AnnouncedIsRequested` | filetea/filetea-transfer.c:541-573 | the octets announced in Content-Range are exactly the requested ones that exist |
| `ByteRanges.NormalisedTwice` | filetea/filetea-transfer.c:543-549 | a second start normalises the stored range to itself |
| `ByteRanges.FullLengthIff` | filetea/filetea-transfer.c:551-552 | the announced length is the size only for the range of the whole source |
| `TransferRanges.StoredRange` | filetea/filetea-transfer.c:541-573 | in every reachable state after a push, for every 64-bit request: the stored range, from which Content-Range is made, begins where it was asked to, but not before the source, and ends where it was asked to, but with the source; the announced length is that of the range |
| `TransferRanges.AnnouncesRequest` | filetea/filetea-transfer.c:541-573 | in every reachable state after a push: the stored range lies in the source with length end - start + 1 if and only if the request begins inside it and does not end before it begins, and then its octets are exactly the requested ones that exist |
| `TransferRanges.WholeLength` | filetea/filetea-transfer.c:555-557 | a started transfer that is not chunked announces the size of the source |
| `Transfers.Transfer.constructor` | filetea/filetea-transfer.c:429-485 | a new transfer is in the specified initial state: result open, timer armed, target watched, negative start clamped |
| `Transfers.Transfer.Read` | filetea/filetea-transfer.c:279-314 | issues the specified read, or none |
| `Transfers.Transfer.OnRead` | filetea/filetea-transfer.c:205-277 | makes the specified step for every outcome of the read and of the write |
| `Transfers.Transfer.FlushTarget` | filetea/filetea-transfer.c:347-364 | one more pending flush and reference, target no longer watched |
| `Transfers.Transfer.OnTargetFlushed` | filetea/filetea-transfer.c:316-345 | makes the specified flush step |
| `Transfers.Transfer.Complete` | filetea/filetea-transfer.c:366-397 | hands the result over once and leaves the connections as specified |
| `Transfers.Transfer.OnStartTimeout` | filetea/filetea-transfer.c:399-425 | makes the specified timeout step |
| `Transfers.Transfer.SetSourceConn` | filetea/filetea-transfer.c:495-508 | the pushed connection becomes the source and is watched |
| `Transfers.Transfer.Start` | filetea/filetea-transfer.c:510-602 | makes the specified start, with or without the headers going out |
| `Transfers.Transfer.Measure` | filetea/filetea-transfer.c:520-557 | stops the timer and stores the normalised range and the announced length |
| `Transfers.Transfer.OnTargetGone` | filetea/filetea-transfer.c:165-178 | makes the specified step when the target closes |
| `Transfers.Transfer.OnSourceGone` | filetea/filetea-transfer.c:180-193 | makes the specified step when a seeder connection closes |
| `Transfers.Transfer.Cancel` | filetea/filetea-transfer.c:666-682 | makes the specified cancellation, nothing if the result is gone |
| `Transfers.Transfer.Unref` | filetea/filetea-transfer.c:102-163 | dropping the last reference disconnects the close handlers and stops the timer |
| `Transfers.Transfer.DeliverResult` | filetea/filetea-node.c:519-541 | delivers the scheduled outcome and gives up the reference of the table |
| `Transfers.Transfer.RunEvents` | filetea/filetea-transfer.c:165-425 | the object after any sequence of events is in the state that the specified run reaches |
| `Relay.TransferTable.ContentRequest` | filetea/filetea-node.c:543-589 | a new transfer of the requested source enters the table under its id, unless a range is asked of a source without the chunkable flag |
| `Relay.TransferTable.Handle` | filetea/filetea-node.c:519-541 | one event for one transfer keeps all transfers accounted for, and only the delivery of its completion removes it |
| `Relay.InTableUntilCompleted` | filetea/filetea-node.c:519-589 | a transfer is found in the table if and only if its completion has not been delivered, and that happens at most once |
| `SeederTheorems.SeederCopies` | filetea/filetea-main.c:244-338 | the connection always carries a prefix of the file; the last block is marked if and only if exactly the registered number of octets was written, and only then is an answer awaited or read |
| `SeederTheorems.SeederCrashIff` | filetea/filetea-main.c:268-304 | the assertion that a read returns something can fail if and only if the file is empty or its size is not the registered one |
| `SeederTheorems.FreedOnce` | filetea/filetea-main.c:186-242 | a push request is freed at most once and not used afterwards; its connection stays open only if all was sent and answered |
| `SeederTheorems.SendRest` | filetea/filetea-main.c:307-338 | a healthy request for a file of the registered size can always send the rest of the file |
| `SeederTheorems.StepInvariant` | filetea/filetea-main.c:210-338 | exactly one callback is due, or the request is freed or crashed, after every event |
| `SeederTheorems.SeederStep` | filetea/filetea-main.c:319-338 | an event writes at most 4096 octets, and only a block that was asked for; a block is asked for only with room; only an answer that was read keeps the connection |
| `SeederTheorems.NothingSentAfterClose` | filetea/filetea-main.c:253-257 | once the connection has closed nothing more is written, whatever reads still finish |
| `SeederLaws.StepLaws` | filetea/filetea-main.c:186-338 | for every state and event, the new value of every part of a push request from the old state and what has happened: octets and mark, callbacks that are due, the connection |
| `SeederLaws.OpenIff` | filetea/filetea-main.c:233-241 | in every run, a request that has been freed leaves its connection open if and only if an answer was read and the connection was not reported closed |
| `SeederLaws.InitialLaw` | filetea/filetea-main.c:361-365 | a new request reads its first block at once if and only if there is room, and waits for it otherwise |
| `Seeders.PushRequest.RunEvents` | filetea/filetea-main.c:210-338 | the object after any sequence of events is in the state that the specified run reaches |
| `Seeders.PushRequest.OnFileOpen` | filetea/filetea-main.c:361-365 | starts in the specified state with a first block asked for |
| `Seeders.PushRequest.ReadBlock` | filetea/filetea-main.c:319-338 | asks for a block or waits for a chance to write |
| `Seeders.PushRequest.ConnCanWrite` | filetea/filetea-main.c:307-317 | makes the specified step |
| `Seeders.PushRequest.OnBlockRead` | filetea/filetea-main.c:244-305 | makes the specified step for every outcome, with the unsigned count of what is left |
| `Seeders.PushRequest.OnResponse` | filetea/filetea-main.c:210-242 | makes the specified step; the connection is kept only if the answer was read |
| `Seeders.PushRequest.Free` | filetea/filetea-main.c:186-208 | closes the connection unless it is kept alive |
| `SourceIds.GenerateSourceId` | filetea/filetea-node.c:275-307 | ends for every choice of random bytes, after at most 3*the number of registered ids + 1 lookups, with an unregistered identifier of the shape of the final depth, which is at most the number of registered ids above the start; each depth before the final one has seen exactly three lookups |
| `SourceIds.GenerateRandomSourceId` | filetea/filetea-node.c:253-273 | the in-place rewriting yields node id and base64 text up to the padding, with / and + replaced |
| `SourceIds.GeneratedShape` | filetea/filetea-node.c:253-273 | the node id, with / and + replaced, followed by exactly ceil(4*(depth - the length of the node id)/3) characters from A-Z, a-z, 0-9 (section 4 of RFC 4648) |
| `SourceIds.Base64Stands` | filetea/filetea-node.c:253-273 | each three octets become four characters that stand for the same number, the last one or two become two or three digits and padding (section 4 of RFC 4648) |
| `SourceIds.CleanedAt` | filetea/filetea-node.c:266-270 | up to the first padding character, / and + become x and every other character stays |
| `SourceIds.PaddedPrefixIsStuck` | filetea/filetea-node.c:266-270 | a node id that contains a padding character gives the same identifier at every depth, so the search could not end once it is registered |
| `SourceIds.NextCandidate` | filetea/filetea-node.c:285-303 | every candidate has the shape of its depth |
| `SourceIds.DeeperIsLonger` | filetea/filetea-node.c:296-301 | identifiers of a greater depth are strictly longer, so no two depths compete for a registered one |
| `SourceIds.GrowingKeys` | filetea/filetea-node.c:291-304 | collisions at pairwise different lengths use up pairwise different registered identifiers |
| `SourceIds.LongEnough` | filetea/filetea-source.c:212-215 | the identifiers made from a start depth on are long enough to be accepted by the setter if and only if the node id and the digits of the start depth are; a start depth of seven always suffices |
| `Signing.SigningDataInjective` | filetea/filetea-node.c:320-324 | the signed text determines id, content type and flags for ids without a colon, whatever the content type holds |
| `Signing.SignedText` | filetea/filetea-node.c:320-331 | a signature is the keyed hash of id, colon, content type, colon and the text of digits without leading zero that stands for the flags in base ten |
| `Signing.DecimalValue` | filetea/filetea-node.c:321-324 | the numeral of a number stands for it in base ten and begins with 0 only if it is zero |
| `Signing.OnlyNumeral` | filetea/filetea-node.c:321-324 | no other text of digits without a leading zero stands for the number |
| `Signing.ColonsCollide` | filetea/filetea-node.c:320-324 | every id with a colon shares its signed text with a shorter id and another content type |
| `Signing.GeneratedIdsHaveNoColon` | filetea/filetea-node.c:253-273 | generated ids are free of colons if the node id is |
| `Signing.SignatureVouches` | filetea/filetea-node.c:309-350 | under a collision-free keyed hash, two records have the same signature if and only if id, type and flags agree |
| `Registry.RegisterEffect` | filetea/filetea-node.c:352-467 | accepted exactly if there is no id or the signature is authentic; then filed under its id, signed and owned by the peer; refused changes nothing; no other entry changes |
| `Registry.FiledAsGiven` | filetea/filetea-node.c:424-460 | an accepted source whose id was not registered is filed with exactly its own name, type, flags, size, tags and owner, under the id it claims or is issued, with the signature of the node; a claim of a registered id leaves the content as it was registered |
| `Registry.RefusedAsGiven` | filetea/filetea-node.c:371-378 | a claim with another signature files nothing |
| `Registry.WhatStays` | filetea/filetea-node.c:485-517 | unregistering removes one id if the peer owns it, a closing peer all that it owns, and every other entry stays as it is |
| `Nodes.Node.RegisterSource` | filetea/filetea-node.c:352-467 | keeps both indexes in agreement, refines the single-map step, and issues only unregistered ids of the specified shape |
| `Nodes.Node.MoveToPeer` | filetea/filetea-node.c:379-409 | a claimed source leaves its owner's table, which exists, and enters that of the claiming peer; only its owner changes |
| `Nodes.Node.Insert` | filetea/filetea-node.c:442-460 | a new source enters both indexes |
| `Nodes.Node.Issue` | filetea/filetea-node.c:424-439 | the source gets an unregistered id of the shape of the start depth or of one at most as many depths above it as there are registered ids, and its signature |
| `Nodes.Node.SourceGetSignature` | filetea/filetea-node.c:309-334 | the keyed hash of the signed text of the source |
| `Nodes.Node.UnregisterSource` | filetea/filetea-node.c:485-517 | removes the entry from both indexes exactly if the peer owns it, and says so |
| `Nodes.Node.RemoveSource` | filetea/filetea-node.c:469-483 | takes the id of the source out of the first index |
| `Nodes.Node.OnPeerClosed` | filetea/filetea-node.c:659-679 | removes exactly the entries of the peer, from both indexes, and its table |
| `Nodes.AgreeAdded` | filetea/filetea-node.c:442-460 | agreement of the indexes survives filing a new source |
| `Nodes.AgreeRemoved` | filetea/filetea-node.c:508-514 | agreement of the indexes survives removing a source |
| `Nodes.AgreeMoved` | filetea/filetea-node.c:383-405 | agreement of the indexes survives moving a source to another table |
| `Nodes.AgreeClosed` | filetea/filetea-node.c:668-676 | agreement of the indexes survives dropping a whole table, which lists exactly what its peer owns |
| `Nodes.SizesAgree` | filetea/filetea-node.c:442-483 | the number of entries in the first index is the sum of the sizes of the per-peer tables |
| `Nodes.OneOwner` | filetea/filetea-node.c:447-460 | no source is in two tables or under two ids |
| `Batches.ClaimBack` | filetea/filetea-protocol.c:693-814 | whatever was answered to a client once can be presented again, by any peer, to any later registry under the same key: accepted with the same id and signature, owned by the claiming peer, all other ids untouched |
| `Batches.BatchClaimBack` | filetea/filetea-protocol.c:334-369 | what item i of one batch was answered with is accepted as item j of any later batch of any peer under the same key, with the same id and signature, and is then owned by that peer |
| `Batches.BatchClaim` | filetea/filetea-node.c:371-410 | a claim anywhere in a batch is answered with its own id and signature, and the caller owns the entry at the end of the batch |
| `Batches.BatchMakesClaimable` | filetea/filetea-protocol.c:334-369 | after a batch of printed sources, each one that was not refused is signed by the node |
| `Protocol.RegisterSources` | filetea/filetea-protocol.c:693-814 | the whole exchange on the objects of a client and a node: nobody stops, and each source ends up with an error or signed by the node and claimable |
| `Batches.ClaimAccepted` | filetea/filetea-node.c:371-410 | a signed record is accepted unchanged by any registry; an existing entry changes only its owner |
| `Batches.ExchangeMakesClaimable` | filetea/filetea-protocol.c:334-369 | a successful exchange leaves the client with an acceptable id and an authentic signature |
| `Batches.HopelessItemIsInvisible` | filetea/filetea-protocol.c:167-383 | a malformed or badly signed item that does not end the process gets an error entry and leaves the registry, all other entries, and whether the batch ends the process, as they are without it |
| `Batches.RegisterConcat` | filetea/filetea-protocol.c:167-383 | a batch is its parts one after the other, entries in order, up to the item that ends the process |
| `Batches.BatchEndsIff` | filetea/filetea-protocol.c:198-200 | a batch ends the process if and only if some item has a name or type that is looked at and is a number or a boolean, whose missing string is measured |
| `Batches.UnreadableItemEndsAll` | filetea/filetea-protocol.c:214-216 | such an item takes its neighbours with it: those before it have been registered, those after it are not looked at, and nothing is answered |
| `Batches.NumberForName` | filetea/filetea-protocol.c:198-200 | an object with a number for its name is such an item |
| `Batches.EntryAnswersItem` | filetea/filetea-protocol.c:167-383 | entry i answers item i on the registry as the items before it have left it |
| `Batches.BatchKeeps` | filetea/filetea-protocol.c:167-383 | a batch of readable items loses no entry: claimed ones change owner, all others stay, issued ids replace nothing |
| `BatchLaws.NewEntryIsItem` | filetea/filetea-protocol.c:167-383 | whatever is registered after a batch and was not before was brought by one of its items, has exactly the fields of that item, belongs to the caller and is signed by the node |
| `BatchLaws.ItemIsFiled` | filetea/filetea-protocol.c:325-355 | everything that an item of a readable batch describes and brings is owned by the caller at the end, with the fields of that item if it was not registered before the item |
| `BatchLaws.AnswerIs` | filetea/filetea-protocol.c:358-383 | entry j: id and signature of what item j has registered, or the error of a badly signed claim, or the message of the first fault |
| `BatchLaws.UnregisterAnswerIs` | filetea/filetea-protocol.c:509-523 | entry j: result true for a well-formed item, whether or not anything was registered, else the message of the first fault |
| `Batches.UnregisterRemoves` | filetea/filetea-protocol.c:437-523 | exactly the ids that are named by a well-formed item and owned by the caller are removed |
| `Batches.UnregisterIdempotent` | filetea/filetea-protocol.c:437-523 | the same call again changes nothing and gives the same answers |
| `Batches.SameAnswers` | filetea/filetea-protocol.c:509-512 | the answers do not tell whether anything was registered |
| `Server.EntryFate` | filetea/filetea-node.c:352-679 | for every event that does not end the process: an entry goes if and only if its owner unregisters it or goes away, changes owner if and only if it is claimed with a valid signature, and otherwise stays exactly as it is |
| `Server.NewEntryFate` | filetea/filetea-node.c:424-460 | whatever is registered after an event and was not before was brought by an item of a register call and has exactly the fields of that item, for the calling peer |
| `Server.BroughtIsRegistered` | filetea/filetea-node.c:442-460 | everything that an item of a readable call brings is registered for the calling peer |
| `Server.EntrySurvives` | filetea/filetea-node.c:352-679 | over any run that does not end the process, an entry that its owner of the moment never drops keeps everything but its owner |
| `Server.ServeEndsIff` | filetea/filetea-protocol.c:198-200 | an event ends the process if and only if it is a register call with an unreadable name or type |
| `Server.RunEndsIff` | filetea/filetea-protocol.c:198-200 | a run ends the process if and only if some call in it does |
| `Server.HandleEvent` | filetea/filetea-protocol.c:554-572 | each call, of whatever items, and each closing peer makes the specified step of the registry or ends the process as specified; every id issued was unused |
| `Server.RunEvents` | filetea/filetea-node.c:352-679 | any run of register calls, unregister calls and closing peers keeps the indexes in agreement, their sizes adding up, and steps through the specified registries; every issued id was unused; the process ends if and only if some call has an unreadable item |
| `Protocol.OpRegisterContent` | filetea/filetea-protocol.c:144-412 | for items of any shape: one entry per item in order and the left fold of the single step over the items, or no response if and only if an item is unreadable |
| `Protocol.OpUnregisterContent` | filetea/filetea-protocol.c:414-552 | one entry per item in order, and the fold of the unregistrations |
| `Protocol.RegisterOne` | filetea/filetea-protocol.c:168-383 | one item parsed, registered and answered as specified, or none if it ends the process |
| `Protocol.RegisterAndAnswer` | filetea/filetea-protocol.c:352-372 | one new source registered, and answered with the id and signature it has then, or with the error of a badly signed claim |
| `Protocol.ReadSource` | filetea/filetea-protocol.c:183-350 | the checks in their order with their messages, the specified record, or the end of the process |
| `Protocol.ReadTags` | filetea/filetea-protocol.c:302-322 | the tags before the first invalid one |
| `Protocol.SourceToJson` | filetea/filetea-protocol.c:693-735 | prints the specified object |
| `Protocol.PrintSources` | filetea/filetea-protocol.c:1023-1040 | item i is the print of source i |
| `Protocol.OnRegisterSources` | filetea/filetea-protocol.c:778-807 | the entries, of any shape, are stored in the sources of the same positions, one after the other; the client stops if and only if there are no sources or not as many as entries |
| `Protocol.StoreEntry` | filetea/filetea-protocol.c:786-803 | one entry stored in one source as specified |
| `Protocol.EntriesPair` | filetea/filetea-protocol.c:778-807 | with distinct sources, source i ends up with entry i and nothing else |
| `Wire.SourceRoundTrip` | filetea/filetea-protocol.c:195-350 | parsing a printed source restores all of it if and only if it has a name and a type, a size below 2^63, no empty tag, and an acceptable id with a signature or neither |
| `Wire.ParsePrinted` | filetea/filetea-protocol.c:693-735 | what the server makes of any printed source; rejected exactly if name, type or size will not do |
| `Wire.PrintedMembers` | filetea/filetea-protocol.c:693-735 | the members of a printed source, one by one, and no others |
| `Wire.TagsSurvive` | filetea/filetea-protocol.c:302-322 | the tag vector survives if and only if no tag is empty |
| `Wire.ParsedIsWellFormed` | filetea/filetea-protocol.c:183-350 | whatever is accepted from a call can be printed again: it has a name and a type, an acceptable id only with a signature, no empty tag, and belongs to the caller |
| `Wire.CrashIff` | filetea/filetea-protocol.c:198-216 | an item ends the process if and only if its name, or after a usable name its type, is a number or a boolean |
| `Wire.ParsedIff` | filetea/filetea-protocol.c:183-322 | an item is taken if and only if it is an object whose name and type are non-empty strings, whose size, if any, and whose flags are values that do not read as negative, and whose tags, if any, are an array |
| `Wire.ParsedFields` | filetea/filetea-protocol.c:325-350 | every field of the source that is made of an item, from the members of the item |
| `Wire.ParsedTags` | filetea/filetea-protocol.c:302-322 | its tags are those before the first one that is not a non-empty string |
| `Wire.FirstFault` | filetea/filetea-protocol.c:183-300 | which message goes with the first fault of an item that is not taken |
| `Wire.TargetIs` | filetea/filetea-protocol.c:449-505 | which items of an unregister call are well-formed, what they name, and which message goes with the first fault of any other |
| `Wire.StoredEntry` | filetea/filetea-protocol.c:790-803 | of an entry as a server sends it the client takes over the error, or the id and the signature |
| `Wire.StoredAny` | filetea/filetea-protocol.c:786-803 | what the client takes over from an entry of any shape, field by field |
| `Wire.PushRoundTrip` | filetea/filetea-protocol.c:977-987 | a push request is restored with source id, transfer id, chunked flag and range |
| `Wire.PushParseUnique` | filetea/filetea-protocol.c:612-650 | only the printed message, among those of its shape, parses to a given push request |
| `Wire.PushParsedAs` | filetea/filetea-protocol.c:604-650 | which parameters make a push request, what is made of them, an open end included, and which message goes with their first fault |
| `Wire.PushPrintedAs` | filetea/filetea-protocol.c:977-987 | a push request is sent as two strings, followed by start and end if it is chunked |
| `Sources.Source.constructor` | filetea/filetea-source.c:115-142 | a new record with the given fields and without id, signature and error |
| `Sources.Source.SetId` | filetea/filetea-source.c:211-219 | an id of at most six characters is ignored |
| `Sources.LongIdTaken` | filetea/filetea-source.c:211-219 | an id of more than six characters is taken and changes nothing else |
| `Sources.ChunkableIff` | filetea/filetea-node.c:557-572 | bit 3 of the flags says that a source can be read in parts |
| `Sources.Source.SetSignature` | filetea/filetea-source.c:229-237 | replaces the signature and nothing else |
| `Sources.Source.SetPeer` | filetea/filetea-source.c:144-153 | replaces the owner and nothing else |
| `Sources.Source.SetSize` | filetea/filetea-source.c:179-185 | replaces the size and nothing else |
| `Sources.Source.TakeError` | filetea/filetea-source.c:263-269 | replaces the error and nothing else |
| `AccessLog.LogFifo` | filetea/filetea-web-service.c:282-334 | in every run the pending write was given the head of the queue, and one is pending if and only if lines are queued; the queue is the end of what was received, and file and queue together are what was received, in order, if and only if every write was whole |
| `AccessLog.FileIs` | filetea/filetea-web-service.c:282-334 | in every run, short writes or not, the file holds the beginning of every line whose write has ended, as much as it reported, in the order received, and the other lines are queued |
| `AccessLog.WebService.RunEvents` | filetea/filetea-web-service.c:282-334 | the queue after any sequence of entries and finished writes is as the specified run leaves it |
| `AccessLog.WebService.OnLogEntry` | filetea/filetea-web-service.c:314-334 | queues the line, and hands that line to the stream if no write is pending |
| `AccessLog.WebService.OnLogEntryWritten` | filetea/filetea-web-service.c:282-312 | drops the head and hands the next head to the stream, if there is one |

## Left out

- Sockets, throttling, bandwidth, TLS, HTTP header formatting, the web selector, redirects, query strings, option parsing and reconnect timers: library code or plumbing with one-branch claims.
- `evd_connection_lock_close` and `unlock_close`: what they delay is library behaviour; the model lets a connection close at any time instead.
- The write signal of a target after the transfer object is gone: the model delivers no events to a released transfer, and `DanglingIff` says when there could be one.
- A second push on one transfer: covered by the accounting results, excluded from the results on the octets, which are about the stream of one seeder.
- Chunked transfers beyond the announced range: the seeder sends whole files and the relay reads whole sources, so `BeginningOfFile` says what is delivered instead.
- HMAC-SHA256 itself, and that a uuid has only sixteen bytes when a longer identifier is asked for.
- JSON numbers with a fraction, and the textual form of JSON.
- Query of the file size, connection set-up and opening of the file before the seeder's block loop, and what the seeder does with a failed registration.
- Loading of the configuration; the node is constructed with an id, a key and a start depth that fit together.
- A register or push-request call for which the virtual method is missing, and the dispatch by method name.
- `SourceIds.GenerateSourceId`: the random bytes are any bytes, so nothing is said about the likelihood of a collision.
- `Protocol.OnRegisterSources`: an error message is stored as it was sent; the client formats it, which is the same for messages without `%`, as all those of a server are.
- `Protocol.RegisterOne`: the state of a process that has measured a missing string is the one before that item; nothing is said about what follows.
- `TransferSafety.RelaySafety`: counters are unbounded; the size of a source is below 2^64, so no count wraps while the assertion on `transferred` holds.
- `AccessLog.LogFifo`: the file is the text appended since the queue was set up.
