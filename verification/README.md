# Verified model of the supply/demand server and the cipher device

Two programs of the repository are modelled and proved in Dafny.

**The supply/demand server** (`hw1/supdemserv.c`). Clients put supplies, demands and
watches into fixed slot tables in shared memory. Every command runs under one global
lock; after each insertion a scan of all demands against all supplies deducts amounts,
deletes what was fulfilled or used up, and asks for notifications. Each client has a ring
buffer of notifications, drained by a thread of its own under a lock of its own. Commands
arrive as bytes that a fixed buffer cuts into lines.

**The bucketed cipher device** (`hw3/cipher/cipher.c`). An append-only byte stream in a
linked list of 256-byte buckets, XOR-ed with a repeating key. Every open context has its
own cursor and its own key offset, and shares in the buckets it may still need.

## How the model is built

| files | what they hold |
|---|---|
| `Resources`, `Matching`, `SharedState` | amounts, slot tables, the matching scan and every command, on values |
| `WatchTable`, `Ownership`, `NotificationRing`, `Commands` | watches, who owns table entries, the ring buffer (value and class), registration and the commands that match nothing |
| `SharedMemory` | the same commands in place, over slot arrays, proved equal to their meaning on values |
| `Server`, `ServerRuns`, `Delivery`, `Lifecycle`, `SupplyLedgers`, `MatchAnnouncements`, `QuietRuns` | the server as a transition system and what all its runs keep |
| `LineFramer`, `LineSplits` | the command buffer in place, and what it dispatches under any splitting of the input |
| `Keystream` | the repeating-key XOR |
| `CipherDevice`, `CipherStream`, `CipherAccounts` | the device on values: stream, positions, reference counts |
| `CipherDriver` | the device in place: linked bucket nodes, contexts pointing into them |
| `CipherRuns`, `CipherHolders` | runs of the device: accounts, quotas, stranded readers, who holds what |
| `ContinuedRuns`, `CipherRoundTrip` | what readers receive, and the layout of the stream, while writes continue it |
| `StaleWriters`, `CipherLimits` | writers that are not the latest, and runs in which the device falls short |

Code that updates memory step by step is a class whose methods are proved against a
function on values; what the source promises is then proved about those functions and
about runs of them.

Main results:

- *Quiescence.* While no demand asks for a negative amount, no reachable state has a live
  demand beside a compatible live supply (`RunsStayQuiet`). `%d` in line 394 also admits
  negative amounts, and deducting one enlarges a supply: a demand can be issued in every run
  without ever leaving a match undone if and only if none of its amounts is negative
  (`RunsQuietExactlyForNonNegativeDemands`).
- *A full rescan is an incremental one.* In a quiet memory, scanning everything after one
  insertion does what one pass of the new entry would do (`SupplyCommandOffersNewSupply`,
  `DemandCommandServesNewDemand`).
- *Conservation and ledger* over all runs, whatever is dropped, exhausted or withdrawn
  (`RunsConserve`, `RunsAnnounceTheirMatches`); a supply holds what it was offered with
  minus all deliveries, those of the inserting command included
  (`SupplyLedgerFromInsertion`).
- *Delivery.* In every run each client's ring passes on and keeps what a bounded first-in
  first-out queue would, under the run's own interleaving of enqueues and takes
  (`RunsDeliverAsFifo`, `EnqueuedIsWhatWasToBeTold`).
- *Who is told what.* Over all runs the fulfilment messages to a client are those of the
  matches of its demands, the delivery and removal messages those of its supplies, in order
  (`RunsTellEachKind`), and everything accepted gets sent (`DrainingSendsEverything`).
- *Disconnects and unwatching.* A client that left has no entry, nobody else lost any, and
  its slot is taken again (`LeavingRemovesClient`); after an unwatch a client is told of no
  insertion until it watches again (`UnwatchSilences`).
- *A watch always finds a slot* (`WatchesNeverRunOut`), and announcements are exact
  (`SupplyAnnouncedExactly`).
- *Framing.* A stream without NUL is framed the same however reads split it
  (`NulFreeStreamsSplitAnywhere`). A stream whose lines fit, none but the last being a quit,
  is framed the same under every split if and only if no NUL stands before a newline
  (`SplitSafeExactlyWithoutNulBeforeNewline`).
- *Round trip* through the cipher device for all interleavings in which each write is made
  at the end of the device with the keystream due there (`ContinuedReceivedIsPrefix`), which
  holds whenever only the latest writer writes (`DisciplinedRunsContinue`). Once the writing
  has finished, reading until 0 returns all of it, if and only if the reader had a bucket,
  or everything, by then (`ReadingUntilEmptyCompletesExactly`).
- *Older writers.* For any writer, all data of a length is appended to the plaintext if and
  only if nothing is stored behind the writer's place and its key offset yields the
  keystream due at the end (`WritesExtendPlainExactly`). A second writer of a byte breaks
  the stream unless two key bytes are equal, and the first one then inserts in the middle
  (`SecondWriterReadableExactly`, `FirstWriterInserts`).
- *Reference counts* are holder counts in every run, and a read frees a bucket exactly
  when no other context holds it (`RunsKeepAccountsAndQuotas`, `RunsFreeExactly`); one
  writer followed by one reader is enough for that (`OneWriterOneReaderFrees`).

## Assumptions

- The table sizes (lines 17-21 of `hw1/supdemserv.c`) are parameters: any sizes with a
  queue of at least one slot and no more clients than watches.
- Integers are mathematical; amounts and coordinates that would overflow an `int` are
  outside the model.
- A command changes the tables in one step. Its calls of `enqueue_notification` are kept
  in order and made one by one afterwards, interleaved with the notification threads, which
  take only the lock of their own client; as the global lock is held until the last of
  them, nobody registers, issues a command or is removed in between.
- A step that its thread could not make in a state (taking from an empty ring, a command of
  a client that has quit) leaves the state as it is.
- `SharedMemory.RegisterClient` covers the tables and `NotificationQueue.Reset` the ring
  indices that the same loop clears; `Server.Next` does both in one step. When all slots are
  taken, registration returns `None`: the code leaves the caller's id unset there.
- The shares a context has in buckets are recorded in a ghost set `holds`, which the code
  keeps only as counts. `FileContext.holds` in the driver is ghost as well.
- Keys are not empty in runs: a key whose first byte is NUL leaves a device on which the
  code would divide by zero, so it is not a step (`CipherDriver.Restart` covers it).
  Allocation and user copies succeed.
- A read that gives up the last share in a bucket frees it and then looks for the successor
  of the freed node (lines 259-270 of `hw3/cipher/cipher.c`). The outcome is `Freed`, about
  which nothing is said; which reads free a bucket is proved exactly. The exit for a list
  that became empty is never reached in a run: the last bucket is never freed.

Where the code does less than its purpose suggests, the model follows the code:

- a reader that opened an empty device, once asked for more than there was, or was open at
  a reset has no bucket and never gets anything more; a reset does not revive it
  (`StrandedReadersStayStranded`, `ResetsStrandOpenReaders`, `EarlyReaderMissesEverything`),
  but its shares keep later buckets from being freed (`StrandedReaderProtectsLaterBuckets`);
- a line of 1023 bytes or more fills the buffer, the next read asks for no bytes and the
  connection ends as if it had been closed (`AllDispatchedExactlyWhenFitting`);
- bytes that follow a NUL in the same read are lost up to the next read
  (`SplitSafeExactlyWithoutNulBeforeNewline`).

## Model

| member | source | states |
|---|---|---|
| Matching.CompatibleInCoordinates | hw1/supdemserv.c:564-576 | a live demand and supply match exactly when the sum of their distances along both axes is below the supply's reach and each of the three amounts is covered, in coordinates |
| Matching.FirstCompatible | hw1/supdemserv.c:533-544 | the slot a demand is served from is the lowest-numbered compatible one; past the end means no slot is compatible |
| Matching.ScanReachesQuiescence | hw1/supdemserv.c:533-618 | one forward scan over non-negative demands leaves no demand with a compatible supply, although supplies and demands change during the scan |
| Matching.ResidualServesNoMore | hw1/supdemserv.c:602-616 | serving a non-negative demand never makes a supply able to serve a demand it could not serve before |
| Matching.RescanIsOnePass | hw1/supdemserv.c:533-544 | if only one supply slot can match, the full scan has the tables and matches of one pass of the demands against that slot |
| Matching.RescanServesOnly | hw1/supdemserv.c:533-544 | if only one non-negative demand can match, the full scan makes at most that one match, with the first compatible supply, and ends quiescent |
| Matching.QuiescentScanIsIdle | hw1/supdemserv.c:533-544 | a scan of tables in which nothing is compatible changes nothing and announces nothing |
| Matching.ScanConserves | hw1/supdemserv.c:578-618 | per resource, what a scan takes out of the supplies is what its delivery notices say, what it takes out of the demands is what its fulfilment notices say, and both are equal |
| Matching.MatchIsAnnounced | hw1/supdemserv.c:582-616 | a match tells the demander that it is fulfilled, with its position and amounts and the supply's position, then the supplier what was delivered, with all of both, then the supplier, exactly when all three residuals are 0, that it is removed; nothing else |
| Matching.NoticesOfOneMatch | hw1/supdemserv.c:582-599 | the notices of a match tell demander and supplier the same delivered amounts |
| Matching.ScanFulfilsOnce | hw1/supdemserv.c:533-544 | each demand is fulfilled at most once, in slot order, with the amounts it was inserted with; exactly the fulfilled ones are removed |
| Matching.ScanKeepsLedger | hw1/supdemserv.c:602-617 | a supply slot holds what it held minus the sum of its deliveries, and is cleared exactly when a delivery leaves nothing |
| Matching.ScanLeavesNonNegative | hw1/supdemserv.c:564-618 | a scan leaves every supply non-negative that was so before or served a demand, negative demands included |
| SharedState.FreeSupply | hw1/supdemserv.c:490-491 | an inserted supply goes to the lowest free slot, and to none exactly when the table is full |
| SharedState.FreeDemand | hw1/supdemserv.c:476-477 | an inserted demand goes to the lowest free slot, and to none exactly when the table is full |
| SharedState.FreeWatch | hw1/supdemserv.c:513-514 | a watch goes to the lowest free slot |
| SharedState.FreeClient | hw1/supdemserv.c:296-297 | a client gets the lowest id without a socket |
| SharedState.DemandCommandServesNewDemand | hw1/supdemserv.c:394-398 | in a quiet memory a demand command does nothing but serve the new demand, once, from the lowest-numbered compatible supply, or keep it, or ignore it when the table is full; the memory stays quiet |
| SharedState.SupplyCommandOffersNewSupply | hw1/supdemserv.c:399-408 | in a quiet memory a supply command is one pass of the demands in slot order against the new supply, followed by announcing what is left of it |
| SharedState.SupplyCommandKeepsQuiet | hw1/supdemserv.c:399-408 | when no stored demand is negative, after a supply command no live demand has a compatible live supply |
| SharedState.NegativeDemandDisturbs | hw1/supdemserv.c:394-398 | for every demand with a negative amount there is a well-formed quiet memory of any given size that it leaves with an undone match |
| SharedState.QuietExactlyForNonNegativeDemands | hw1/supdemserv.c:394-398 | for tables of any size, a demand command keeps every quiet memory quiet if and only if none of its amounts is negative |
| WatchTable.WatchSlotAvailable | hw1/supdemserv.c:17-20 | with no more clients than watch slots and one watch a client, a client without a watch finds a free slot (pigeonhole on client ids) |
| WatchTable.WatchAlwaysPlaced | hw1/supdemserv.c:505-522 | a watch command leaves its client with exactly the new watch, at its position, and every other client's watch as it was |
| WatchTable.WatchingInCoordinates | hw1/supdemserv.c:550-553 | a live watch covers a supply exactly when its radius is positive and the sum of their distances along both axes is at most that, in coordinates |
| WatchTable.AnnouncedToWatchersOnly | hw1/supdemserv.c:546-562 | an insertion is announced once to each client with a positive watch radius that covers the distance, and to nobody else |
| WatchTable.SupplyAnnouncedExactly | hw1/supdemserv.c:399-408 | a supply command announces what matching left of the supply, with the amounts left, exactly to the covered clients; a supply used up or without a slot is not announced |
| Ownership.ScanStaysOwned | hw1/supdemserv.c:533-618 | a scan keeps every live entry with a registered client and notifies registered clients only |
| Ownership.CommandKeepsOwnership | hw1/supdemserv.c:389-437 | no command breaks ownership of entries, uniqueness of watches or the set of registered clients |
| Ownership.RemovalKeepsOwnership | hw1/supdemserv.c:268-291 | removing a client leaves no entry of it, unregisters exactly it, and keeps everybody else's entries owned |
| NotificationRing.EnqueueAppends | hw1/supdemserv.c:348-360 | an enqueue appends to the queue the ring stands for; the message is dropped exactly when one less than the slots are queued |
| NotificationRing.DequeueTakesOldest | hw1/supdemserv.c:459-463 | advancing the tail takes the oldest message off that queue |
| NotificationRing.EmptyExactlyWhenIndicesMeet | hw1/supdemserv.c:455-459 | head equals tail exactly when nothing is queued |
| NotificationRing.StepRefinesFifo | hw1/supdemserv.c:348-360 | one action on the ring is that action on a bounded first-in first-out queue |
| NotificationRing.RingRefinesFifo | hw1/supdemserv.c:452-471 | under any interleaving of producers and the consumer, the consumer gets the same messages as from a bounded first-in first-out queue, and the same ones stay queued |
| NotificationRing.NotificationQueue.constructor | hw1/supdemserv.c:303-304 | a new ring is empty |
| NotificationRing.NotificationQueue.Reset | hw1/supdemserv.c:303-304 | registration empties the ring of a reused slot |
| NotificationRing.NotificationQueue.Enqueue | hw1/supdemserv.c:348-360 | in place: the queue grows by the message unless it is full, in which case nothing changes |
| NotificationRing.NotificationQueue.TakeOldest | hw1/supdemserv.c:459-463 | in place: returns and removes the oldest queued message |
| NotificationRing.NotificationQueue.Drain | hw1/supdemserv.c:459-468 | without a producer in between, the drain loop takes everything queued, oldest first |
| SharedMemory.SharedMemory.constructor | hw1/supdemserv.c:119-151 | the initial tables hold free slots and nothing else: the memory every run starts from, owned and quiet |
| SharedMemory.SharedMemory.RegisterClient | hw1/supdemserv.c:293-309 | the slot search in place is registration on values: lowest free id, position zero, or none |
| SharedMemory.SharedMemory.RemoveClientResources | hw1/supdemserv.c:268-291 | the three clearing loops in place remove exactly the client's supplies, demands and watches, and free its slot |
| SharedMemory.SharedMemory.AddNewDemand | hw1/supdemserv.c:475-487 | in place: the demand goes to the first free slot at the client's position, or nowhere |
| SharedMemory.SharedMemory.AddNewSupply | hw1/supdemserv.c:489-503 | in place: likewise for a supply; returns its slot or -1 |
| SharedMemory.SharedMemory.AddNewWatch | hw1/supdemserv.c:505-522 | in place: clears the client's watches, then takes the first free slot |
| SharedMemory.SharedMemory.RemoveWatch | hw1/supdemserv.c:524-531 | in place: clears exactly the client's watches |
| SharedMemory.SharedMemory.MoveClient | hw1/supdemserv.c:766-769 | only the client's position changes |
| SharedMemory.SharedMemory.RemoveSupply | hw1/supdemserv.c:639-642 | exactly that slot is cleared |
| SharedMemory.SharedMemory.RemoveDemand | hw1/supdemserv.c:634-637 | exactly that slot is cleared |
| SharedMemory.SharedMemory.CheckCaseMatch | hw1/supdemserv.c:564-576 | true exactly for a live pair with the sum of the distances along both axes below the supply's reach and each amount covered, stated in coordinates |
| SharedMemory.SharedMemory.MatchDemandAndSupply | hw1/supdemserv.c:578-618 | in place: deducts, clears the demand, clears an exhausted supply, and tells whichever side belongs to a client; for a live pair the fulfilment, delivery and, only when all residuals are 0, removal notice are written out with their recipients and contents, in this order |
| SharedMemory.SharedMemory.OfferToSupplies | hw1/supdemserv.c:536-540 | the inner loop over all supplies makes at most one match, with the first compatible supply, although it goes on over the updated arrays |
| SharedMemory.SharedMemory.CheckForMatch | hw1/supdemserv.c:533-544 | the two nested loops over the arrays are first-fit allocation: same tables, same notices in the same order |
| SharedMemory.ScanAdvances | hw1/supdemserv.c:534-541 | one round of the outer loop is one step of first-fit allocation |
| SharedMemory.SharedMemory.CheckForWatchEventsOnNewSupply | hw1/supdemserv.c:546-562 | the loop over the watches asks for exactly the announcements of that supply, in slot order |
| SharedMemory.SharedMemory.Handle | hw1/supdemserv.c:389-437 | a command in place has the tables and notices of the command on values |
| Commands.RegistrationStartsAtOrigin | hw1/supdemserv.c:293-309 | registration takes the lowest id without a socket, puts its client at the origin, leaves everything else as it was, and finds none exactly when every slot has a socket |
| Commands.MoveSetsPosition | hw1/supdemserv.c:766-769 | move sets x and y of its client and changes nothing else |
| Commands.SupplyIsPutWhereMoved | hw1/supdemserv.c:489-503 | after a move to x, y a supply is inserted at x, y |
| Commands.InspectionChangesNothing | hw1/supdemserv.c:417-428 | the list commands change nothing and announce nothing |
| Commands.WatchTouchesWatchesOnly | hw1/supdemserv.c:409-412 | watch changes no supply, demand or client and announces nothing |
| Commands.UnwatchRemovesWatch | hw1/supdemserv.c:524-531 | unwatch leaves no watch of its client, every other watch as it was, changes nothing else and announces nothing |
| Commands.UnwatchSilences | hw1/supdemserv.c:413-416 | over every run after an unwatch, no notice to its client is of an insertion until it issues a watch command |
| ServerRuns.AttemptKeepsOrder | hw1/supdemserv.c:348-360 | an enqueue keeps sent, in flight and queued equal to the accepted messages in order, and accepts unless one less than the slots are queued |
| ServerRuns.TakeKeepsOrder | hw1/supdemserv.c:459-463 | taking a message from the ring keeps that order |
| ServerRuns.SendKeepsOrder | hw1/supdemserv.c:465-467 | sending it after unlocking keeps that order |
| ServerRuns.StepKeepsSound | hw1/supdemserv.c:268-531 | every step of the server keeps ownership, addressing and delivery order |
| ServerRuns.RunsStaySound | hw1/supdemserv.c:268-531 | in every reachable state every live entry and every pending notice belongs to a present client, no client has two watches, and every client's messages are in order |
| ServerRuns.CommandBalances | hw1/supdemserv.c:389-437 | a command's notices account for what it takes out of the tables beside what it puts in |
| ServerRuns.SupplyRemovalWithdraws | hw1/supdemserv.c:270-275 | what a disconnect takes out of the supplies is what the client held there |
| ServerRuns.DemandRemovalWithdraws | hw1/supdemserv.c:276-281 | what a disconnect takes out of the demands is what the client asked for there |
| ServerRuns.StepConserves | hw1/supdemserv.c:268-642 | every step keeps the books balanced |
| ServerRuns.RunsConserve | hw1/supdemserv.c:268-642 | over every run and per resource, everything inserted is live, delivered or withdrawn, on both sides, and as much was delivered as fulfilled |
| ServerRuns.StepKeepsCalm | hw1/supdemserv.c:389-437 | a step without a negative demand keeps the tables quiet, moves, watches and disconnects included |
| ServerRuns.RunsStayQuiet | hw1/supdemserv.c:533-618 | in every reachable state of a run without negative demands, no live demand has a compatible live supply |
| ServerRuns.RunsKeepSuppliesNonNegative | hw1/supdemserv.c:564-618 | while nobody offers a negative amount, no reachable state has a negative supply, whatever is demanded |
| ServerRuns.ClientsAreTold | hw1/supdemserv.c:448-473 | once nothing is pending, what a client was sent, is being sent and has queued is a subsequence of what it was to be told since it joined, and all of it while that is less than the ring has slots |
| Delivery.RunsDeliverAsFifo | hw1/supdemserv.c:348-360 | in every run, sent with in flight, and queued, are what a bounded first-in first-out queue of one less than the slots passes on and keeps under the run's enqueues and takes since the client joined |
| Delivery.EnqueuedIsWhatWasToBeTold | hw1/supdemserv.c:348-360 | once nothing is pending, the messages enqueued for a present client are exactly what the log has for it since it joined |
| ServerRuns.JoinersStartClean | hw1/supdemserv.c:293-309 | a client that joins stands at the origin and finds no entry under its id and an empty queue, whoever had the id before |
| Lifecycle.LeavingRemovesClient | hw1/supdemserv.c:268-291 | in every run, once a stopped client is removed it is vacant and unregistered with no supply, demand or watch, every other client's entries, record and queue are as before, the withdrawn totals grow by what it held, and the next client gets an id of at most its own |
| Lifecycle.HaltStopsThreads | hw1/supdemserv.c:337-340 | the end of its threads leaves a client's queue and everything else as it was |
| Lifecycle.QuittingRemovesClient | hw1/supdemserv.c:337-345 | in every run a client that quits while nothing is pending is gone after its disconnect |
| Lifecycle.DrainingSendsEverything | hw1/supdemserv.c:459-468 | in every run the notification thread, from wherever it is, sends everything accepted for its client, in order, in as many rounds as messages are queued |
| ServerRuns.WatchesNeverRunOut | hw1/supdemserv.c:505-522 | in every run, a watch command leaves its client with exactly that one watch |
| SupplyLedgers.RunsAnnounceTheirMatches | hw1/supdemserv.c:578-618 | over every run, beside insertion announcements, exactly the matches made were announced, match by match: fulfilment, delivery, and removal when nothing was left |
| MatchAnnouncements.RunsTellBothSides | hw1/supdemserv.c:582-616 | over every run, what the log has for a client beside insertions is, match by match, what it is to be told as demander, as supplier or both |
| MatchAnnouncements.RunsTellEachKind | hw1/supdemserv.c:582-616 | over every run the fulfilment messages to a client are, in order, those of the matches of its demands; the delivery messages those of the matches of its supplies; the removal messages those of the matches that left its supply nothing |
| SupplyLedgers.StepSettles | hw1/supdemserv.c:602-616 | over one step a live supply has paid its deliveries, or is gone because they used it up or its client left |
| SupplyLedgers.SuppliesPayTheirDeliveries | hw1/supdemserv.c:602-616 | over every run in which a live supply stays, it holds what it held at the start minus all deliveries from it; it goes only when they add up to everything or its client leaves |
| SupplyLedgers.InsertionSettles | hw1/supdemserv.c:399-408 | the command that inserts a supply leaves what was offered minus its own deliveries, or a free slot when they used it up |
| SupplyLedgers.SupplyLedgerFromInsertion | hw1/supdemserv.c:489-503 | from its insertion on, over every run in which it stays, a supply holds what it was offered with minus all deliveries from it, those of the inserting command included; it goes only when they add up to everything or its client leaves |
| SupplyLedgers.ServedSuppliesAreNonNegative | hw1/supdemserv.c:564-576 | over every run in which it stays, a supply that was non-negative or has served a demand is non-negative |
| QuietRuns.SetupRuns | hw1/supdemserv.c:389-437 | three commands of one client bring the server into the state that a negative demand disturbs |
| QuietRuns.NegativeDemandDisturbsARun | hw1/supdemserv.c:602-604 | for every demand with a negative amount some run that issues no other negative demand ends with an undone match |
| QuietRuns.RunsQuietExactlyForNonNegativeDemands | hw1/supdemserv.c:533-618 | a demand may be issued anywhere in every run without ever leaving a match undone if and only if none of its amounts is negative |
| LineFramer.QuitIsAPrefix | hw1/supdemserv.c:429 | a line is a quit exactly when its first four bytes are q, u, i, t |
| LineFramer.FrameRest | hw1/supdemserv.c:439-443 | without a NUL in what was framed, what is carried over holds none either, and no newline unless there was a quit |
| LineFramer.FrameLeavesLastLine | hw1/supdemserv.c:439-443 | without a quit, what is carried over is exactly what follows the last newline |
| LineFramer.ServeOneRead | hw1/supdemserv.c:370-443 | one read of a NUL-free stream dispatches the complete lines of what was carried over and read, and leaves the rest |
| LineFramer.ServeDispatches | hw1/supdemserv.c:367-443 | under any read sizes a NUL-free stream dispatches a prefix of its lines up to the first quit or overlong line, and all of them after enough reads |
| LineFramer.NulFreeStreamsSplitAnywhere | hw1/supdemserv.c:367-443 | the lines dispatched from a NUL-free stream do not depend on how reads split it |
| LineFramer.CarriedOverIsTheTail | hw1/supdemserv.c:439-443 | after any reads of a NUL-free stream the buffer holds exactly what follows the last newline of the bytes read so far |
| LineFramer.FittingReadsHaveRoom | hw1/supdemserv.c:370 | when no line and no unterminated tail has more than 1022 bytes, every read asks for at least one byte |
| LineFramer.FrameRejoins | hw1/supdemserv.c:379-440 | the lines, each followed by a newline, and the rest give back the framed bytes |
| LineFramer.FrameCutsAtNewlines | hw1/supdemserv.c:379-440 | no line holds a newline, only the last can be a quit, exactly when there was one, and without one the rest is the unterminated tail |
| LineFramer.AllDispatchedExactlyWhenFitting | hw1/supdemserv.c:369-443 | everything up to the first quit is dispatched if and only if every line has at most 1022 bytes |
| LineSplits.ServeCountsNewlines | hw1/supdemserv.c:369-443 | under any read sizes and any bytes, at most one line is dispatched per newline |
| LineSplits.NulBehindNewlinesIsHarmless | hw1/supdemserv.c:377-443 | a stream in which no NUL stands before a newline dispatches the same lines however reads split it |
| LineSplits.BytewiseHearsEveryLine | hw1/supdemserv.c:369-443 | reading byte by byte dispatches a line for every newline, NULs or not, when lines fit and none but the last is a quit |
| LineSplits.NulLosesALine | hw1/supdemserv.c:382 | a read from a NUL through the newline behind it loses a line for good |
| LineSplits.SplitSafeExactlyWithoutNulBeforeNewline | hw1/supdemserv.c:377-443 | a stream of any number of fitting lines, none but the last a quit, is framed the same under every split if and only if no NUL stands before a newline |
| LineSplits.QuitHidesNul | hw1/supdemserv.c:428-432 | a quit, a NUL and a buffer full of newlines are framed the same under every split, although a NUL stands before newlines |
| LineFramer.CommandBuffer.constructor | hw1/supdemserv.c:367-368 | the buffer starts empty |
| LineFramer.CommandBuffer.FindNewline | hw1/supdemserv.c:382 | the search in place finds the first newline before the terminating NUL, or none |
| LineFramer.CommandBuffer.Append | hw1/supdemserv.c:370-377 | a read goes behind the carried-over bytes and is terminated, within the buffer |
| LineFramer.CommandBuffer.CutLine | hw1/supdemserv.c:382-386 | the line before the newline is cut off and what follows it is untouched |
| LineFramer.CommandBuffer.CarryOver | hw1/supdemserv.c:441-443 | the bytes behind the last newline move to the front, terminated |
| LineFramer.CommandBuffer.TakeLines | hw1/supdemserv.c:382-440 | the command loop over the buffer takes exactly the complete lines, up to a quit, and stops at the unterminated tail |
| LineFramer.CommandBuffer.Receive | hw1/supdemserv.c:369-444 | one round of the reading loop dispatches the complete lines of what is visible of the carried-over and new bytes, and unless one was a quit the buffer then holds exactly the tail |
| Keystream.XorAt | hw3/cipher/cipher.c:80-88 | byte i of the result is data[i] ^ key[(offset + i) mod key length] |
| Keystream.XorConcat | hw3/cipher/cipher.c:80-88 | a buffer can be cut anywhere when the key offset is carried on |
| Keystream.XorCancels | hw3/cipher/cipher.c:80-88 | combining twice from the same offset restores the data |
| Keystream.ChunkingIsInvisible | hw3/cipher/cipher.c:289 | any sequence of chunks with the offset carried on gives the same bytes as the whole buffer at once |
| Keystream.RechunkingDecrypts | hw3/cipher/cipher.c:378 | what was encrypted in some chunks is decrypted in any others |
| Keystream.DecryptsExactlyWhenAligned | hw3/cipher/cipher.c:80-88 | decrypting from another offset restores the data if and only if both keystreams agree over its length |
| Keystream.XorBuffer | hw3/cipher/cipher.c:80-88 | the loop in place turns each of the first len bytes into data[j] ^ key[(keyoff + j) mod keyLength], leaves the rest, and advances the offset by len |
| CipherStream.OpeningPlacesCursor | hw3/cipher/cipher.c:155-183 | a new reader has the whole stream ahead of it under keyfirst, a new writer none of it under keylast; other contexts and all bytes stay |
| CipherStream.ReadCopiesAhead | hw3/cipher/cipher.c:253-301 | a read that frees nothing returns the bytes ahead of the cursor, decrypted, as far as asked for, across any buckets; it leaves the cursor right behind them, and nowhere exactly when there was less than asked for |
| CipherStream.RemainingPredictsRead | hw3/cipher/cipher.c:475-492 | if QREM reports r, a read of c that frees nothing returns min(c, r) bytes and QREM then reports r - min(c, r) |
| CipherStream.PutAppends | hw3/cipher/cipher.c:334-390 | a writer at the end appends exactly its data, encrypted from its key offset, over any bucket boundaries |
| StaleWriters.PutInserts | hw3/cipher/cipher.c:334-390 | for any writer, what its bucket still takes goes between the bytes in front of its place and those behind, encrypted from its own key offset, and the rest goes to the end |
| StaleWriters.PlainAfterPut | hw3/cipher/cipher.c:170-178 | what a write at the end of the stream adds to the plaintext is its data under the difference of the writer's and the due keystream |
| StaleWriters.PutExtendsPlainExactlyWhenAligned | hw3/cipher/cipher.c:170-178 | a write at the end of the stream extends the plaintext by its data if and only if the writer's key offset yields, for its length, the keystream due there |
| StaleWriters.InsertionDisplaces | hw3/cipher/cipher.c:380-388 | a write with bytes stored behind its place does not extend the plaintext unless its first byte encrypts to the byte stored there |
| StaleWriters.WritesExtendPlainExactly | hw3/cipher/cipher.c:334-390 | for any writer and length, all data of that length extends the plaintext if and only if nothing is stored behind the writer's place and its key offset yields the keystream due at the end |
| StaleWriters.NewReaderReadsPlain | hw3/cipher/cipher.c:155-169 | a reader that opens now reads exactly the device's plaintext, unless it frees a bucket |
| CipherLimits.SecondWriterReadableExactly | hw3/cipher/cipher.c:178-182 | two writers open an empty device and each writes a byte: the plaintext is what was written if and only if the first two key bytes are equal |
| CipherLimits.FirstWriterInserts | hw3/cipher/cipher.c:334-390 | after that the first writer is in the middle of the stream, and for every length some data does not extend the plaintext |
| CipherLimits.EarlyReaderMissesEverything | hw3/cipher/cipher.c:165-169 | a reader opens the empty device, a writer opens it and writes a byte: the run is disciplined and the reader is stranded without it |
| CipherLimits.LoneReaderFrees | hw3/cipher/cipher.c:256-262 | a reader alone in the first of several buckets frees it by reading beyond it |
| CipherLimits.OneWriterOneReaderFrees | hw3/cipher/cipher.c:256-262 | one writer writes more than a bucket, one reader opens and reads beyond it: a bucket is freed |
| CipherAccounts.OpenKeepsAccounts | hw3/cipher/cipher.c:145-183 | opening keeps every reference count equal to the number of holders |
| CipherAccounts.PassKeepsAccounts | hw3/cipher/cipher.c:256-279 | so does moving on from a bucket |
| CipherAccounts.NewBucketKeepsAccounts | hw3/cipher/cipher.c:336-367 | so does a writer's new bucket, which starts with its writer and all readers |
| CipherAccounts.PutKeepsAccounts | hw3/cipher/cipher.c:334-390 | so does a whole write |
| CipherAccounts.ReadKeepsAccounts | hw3/cipher/cipher.c:253-301 | so does a read that frees nothing |
| CipherAccounts.ReadFreesExactly | hw3/cipher/cipher.c:256-262 | a read frees a bucket if and only if it moves on from one whose count is 1 |
| CipherAccounts.ReadFreesOnlySolelyHeld | hw3/cipher/cipher.c:256-276 | with accounts kept, that is a bucket no other context holds, and never the last one |
| CipherRuns.DefaultKeySpellsText | hw3/cipher/cipher.c:23 | the default key is the text of the source, byte by byte |
| CipherRuns.KeyOf | hw3/cipher/cipher.c:450-453 | the key is the user's bytes up to the first NUL, at most 4095 |
| CipherRuns.StepKeeps | hw3/cipher/cipher.c:107-394 | every open, read, write and reset keeps accounts, quotas and cursors |
| CipherRuns.RunsKeepAccountsAndQuotas | hw3/cipher/cipher.c:323-330 | in every run reference counts are holder counts, each context holds the bucket it is in, and each writer got min(8192, requested) bytes in since the last reset |
| CipherRuns.RunsReportQuota | hw3/cipher/cipher.c:493-500 | in every run QREM tells a writer 8192 minus what it got in since the last reset |
| CipherRuns.RemainingPredictsWrite | hw3/cipher/cipher.c:323-330 | if QREM reports r to a writer, a write of n bytes gets min(n, r) in and QREM then reports r - min(n, r) |
| CipherRuns.RunsFreeExactly | hw3/cipher/cipher.c:256-262 | in every run a read frees a bucket if and only if it moves on from one that no other context holds |
| CipherRuns.ReaderAtHeadProtects | hw3/cipher/cipher.c:145-153 | while another reader is in the first bucket no read frees anything |
| CipherHolders.RunsHoldExactly | hw3/cipher/cipher.c:145-153 | in every run a reader holds the buckets from its own on, or from some point on when it has none; a writer holds its own and those in front of it that it found when it opened, but for the one it began in |
| CipherHolders.StrandedHoldsLaterBuckets | hw3/cipher/cipher.c:345-361 | until the next reset a stranded reader has a share in every bucket made since |
| CipherHolders.StrandedReaderProtectsLaterBuckets | hw3/cipher/cipher.c:256-262 | until then a read frees a bucket if and only if it moves on from one that was there when the reader was stranded and that nobody else holds; a reader that opened an empty device protects all |
| CipherRuns.StrandedReadersStayStranded | hw3/cipher/cipher.c:239-253 | in every run, resets included, a reader without a bucket never has one again; what it received stays, or is nothing since a reset |
| CipherRuns.ResetsStrandOpenReaders | hw3/cipher/cipher.c:426-434 | a reset strands every open reader: it receives nothing in any later run |
| CipherRoundTrip.ByteAt | hw3/cipher/cipher.c:334-390 | byte p of the stream is in bucket p / 256 at p mod 256 as plaintext[p] ^ key[p mod key length] |
| ContinuedRuns.ReadContinues | hw3/cipher/cipher.c:253-301 | a read gives a reader the next accepted bytes, as many as asked for and there are; it loses its bucket exactly when there were fewer |
| ContinuedRuns.PutKeepsReader | hw3/cipher/cipher.c:334-390 | a write by a writer at the end leaves other cursors where they are and puts its data ahead of them |
| CipherRoundTrip.StepKeepsOrder | hw3/cipher/cipher.c:107-394 | every step in which only the latest writer writes keeps the layout and every reader's order |
| CipherRoundTrip.RunsStayInOrder | hw3/cipher/cipher.c:155-183 | over all such runs the stored bytes are the accepted plaintext under the key from offset 0, all buckets but the last are full, keylast is the stored length, and the latest writer is at the end with the key offset due |
| CipherRoundTrip.ReceivedIsPrefix | hw3/cipher/cipher.c:239-305 | over all such runs, what a reader received is a prefix of the concatenated accepted plaintext |
| ContinuedRuns.ContinuedRunsFollow | hw3/cipher/cipher.c:239-394 | over every run in which each write is made at the end with the keystream due there, by whichever writer, the stored bytes are the accepted plaintext under the key, and each reader has received what is behind its cursor |
| ContinuedRuns.ContinuedReceivedIsPrefix | hw3/cipher/cipher.c:239-305 | over all such runs, what a reader received is a prefix of the concatenated accepted plaintext |
| CipherRoundTrip.DisciplinedRunsContinue | hw3/cipher/cipher.c:170-178 | every run in which only the latest writer writes is such a run |
| ContinuedRuns.LongReadCompletesExactly | hw3/cipher/cipher.c:253-301 | a read of more than remains brings a reader everything written if and only if it still had a bucket or had everything already |
| ContinuedRuns.EmptyReadExactlyAtEnd | hw3/cipher/cipher.c:253-304 | a reader with a bucket reads 0 bytes if and only if it has received everything written |
| ContinuedRuns.ReadingUntilEmptyCompletesExactly | hw3/cipher/cipher.c:239-305 | the writing has finished, anybody opens and reads, nothing is freed: when a reader's read returns 0 it has received everything written, if and only if it had a bucket, or everything, when the writing finished |
| CipherDriver.BucketNode.Store | hw3/cipher/cipher.c:380-381 | the bytes go behind those in the buffer, which stay |
| CipherDriver.CipherDriver.constructor | hw3/cipher/cipher.c:606-617 | a new device is empty under the default key |
| CipherDriver.CipherDriver.OpenFile | hw3/cipher/cipher.c:107-191 | in place: counts of all listed nodes go up, a reader starts at the head with keyfirst, a writer at the end of the last node with keylast; opening for both is refused |
| CipherDriver.CipherDriver.Cross | hw3/cipher/cipher.c:256-280 | in place: the share is given up and the cursor goes to the linked successor, unless the count reaches zero, which is reported |
| CipherDriver.CipherDriver.CopyOut | hw3/cipher/cipher.c:283-300 | in place: bytes of the node are copied and decrypted, and off and keyoff advance |
| CipherDriver.CipherDriver.ReadFile | hw3/cipher/cipher.c:239-305 | the read loop over the linked list returns the bytes of the read on values and leaves its device, or reports that it freed a bucket exactly when that does; it terminates |
| CipherDriver.CipherDriver.CountReaders | hw3/cipher/cipher.c:345-350 | the loop over the contexts counts the readers |
| CipherDriver.CipherDriver.LinkBucket | hw3/cipher/cipher.c:363 | in place: the node becomes the successor of the last one, or the head, and the list is otherwise unchanged |
| CipherDriver.CipherDriver.AddBucket | hw3/cipher/cipher.c:336-367 | in place: the writer gives up its node and gets a fresh one, shared with all readers, at the end of the list |
| CipherDriver.CipherDriver.AppendChunk | hw3/cipher/cipher.c:370-388 | in place: the chunk is encrypted and stored behind the node's bytes; keyoff, keylast and the writer's total advance |
| CipherDriver.CipherDriver.PutAll | hw3/cipher/cipher.c:334-390 | the write loop stores all of its data as the write on values does; it terminates |
| CipherDriver.CipherDriver.WriteFile | hw3/cipher/cipher.c:310-394 | in place: a write appends exactly what the quota admits and returns how much that is |
| CipherDriver.CipherDriver.LoadKey | hw3/cipher/cipher.c:451-453 | in place: the key is the user's bytes up to the first NUL, at most 4095 |
| CipherDriver.CipherDriver.ResetContexts | hw3/cipher/cipher.c:456-465 | every context loses its bucket, offsets and total, and keeps its mode |
| CipherDriver.CipherDriver.Restart | hw3/cipher/cipher.c:446-466 | in place: an empty device under the new key with every context at the start, for every user key; only an empty key leaves it unable to encrypt |
| CipherDriver.CipherDriver.Clear | hw3/cipher/cipher.c:416-437 | in place: an empty device under the default key with every context at the start |
| CipherDriver.CipherDriver.CountAhead | hw3/cipher/cipher.c:482-491 | the loop over the linked list adds up the bytes from a node and offset on; it terminates |
| CipherDriver.CipherDriver.QueryRemaining | hw3/cipher/cipher.c:470-500 | in place: what QREM reports on values, for readers and writers |

## Left out

- Sockets, mmap, fork, thread creation, `main`, and the sending of a message: input and output.
- The texts of messages, their truncation to 255 characters, and the replies `OK` and `Error`: messages are values.
- `sscanf`: commands are taken as parsed; lines that match no command change nothing.
- `list_supplies`, `list_demands`, `my_supplies`, `my_demands`: they only print; one command that changes nothing stands for them.
- Disconnects are a stop of both threads followed by the removal of the client's entries; cancelling a thread that waits on a condition, and liveness of the per-client lock after it, are not modelled.
- Integer overflow of amounts, coordinates and key offsets.
- `cipher_release`: it lowers the count of every listed bucket, also of those the context gave up before, so counts stop being holder counts; all runs are without a close.
- What a read does after freeing a bucket, and what later readers decrypt then: `keyfirst` is never advanced.
- Failing allocations and user copies, empty keys, several devices, `llseek`, ioctl number checks, module loading.
- CipherDriver.CipherDriver.Restart: drops the list at once where the code unlinks and frees the nodes one by one, because freed memory is not modelled.
- CipherDriver.CipherDriver.QueryRemaining: does not model that the reader's cursor is fetched before the device lock is taken.
- CipherDriver.CipherDriver.OpenFile: adds the context at the end of the context list instead of the front, because only the number of readers in it matters.
- CipherDriver.CipherDriver.ReleaseBucket: counts the readers before the writer's share is given up instead of after, because neither depends on the other.
- SharedMemory.SharedMemory.RegisterClient: does not clear the ring indices, because the ring is a class of its own; the same loop's clearing of them is NotificationQueue.Reset, and Server.Next does both in one step.
- LineSplits.SplitSafeExactlyWithoutNulBeforeNewline: covers streams whose lines and tail fit the buffer and of which no line but the last is a quit; with an earlier quit a NUL before a newline can be harmless (LineSplits.QuitHidesNul).
- `hw2/mm536.c`, `hw1/tester.c`, `hw3/cipher/test.c`: a system call that copies fields, and test programs.
