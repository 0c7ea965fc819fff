# NewNameAuction: a verified model

A game-nickname auction server: an IOCP network layer that hands packets to a single logic
thread, which keeps the auctions. This project models the parts of it where the difficulty
lies and proves what they promise, in Dafny 4.11. `dafny verify dfyconfig.toml` checks it.

**The lock-free stack** (`Bytes`, `StampedWord`, `Tally`, `LockFreeStack`, `StackAnswers`,
`StackAlone`, `StampWrap`). `push`
and `pop` as a transition system, one action per shared load, store or interlocked operation,
any number of threads, nodes recycled through a pool. `LockFreeStack.AfterAdvance` takes one
step of `LockFreeStack.h:35-81`; the top word is a 64-bit vector with a 47-bit address and a
wrapping signed stamp. A step keeps the invariant exactly if it is not the successful swap of a pop
whose successor is out of date, which takes sleeping through a positive multiple of 65536 pops; the
stack is linearizable in every run without such a step, and for every such multiple there is a run
with one. What each operation answers, and that one left alone completes, is in `StackAnswers` and
`StackAlone`.

**Session slots** (`SessionSlots`, `SessionAnswers`). Reference count, release flag, generation-tagged ids, slot
reuse and the path that backs out of a release which hit a reincarnated slot:
`CNetServer.cpp:233-254`, `314-420`, `445-532`, `582-598`, `750-828`, `978-981`. Accept thread,
workers, finders and releasers interleave freely; the count read and the flag swap of
`releaseSession` are two steps, as they are in the code. `SessionAnswers` says what each call
comes to.

**Send path** (`SendPath`, `SendLimits`, `SendAnswers`) and **packet lifetime**
(`PacketLifetime`, `PacketAnswers`, `StaleRelease`). The first takes one session from accept to release: who owns `sendFlag`, what is
in `sentPacketArray`, in what order packets leave (`CNetServer.cpp:262-369`, `951-975`). The second
follows reference counts of packets through any number of sessions, the job queue, batches in
flight, failed sends, releases and slot reuse. `releaseSession` reads the count and then swaps the
flag; the results hold for the runs in which nobody uses the session when the flag is taken
(`SessionSlots.ZeroMeansUnused` says what a count of 0 means). `StaleRelease` has a run in which
somebody does and all of them fail.

**Packets** (`PacketCodec`, `Packet`, `PacketFields`, `WireFormat`). `CPacket` as a class over a real array, its
cursor arithmetic, the typed reads and writes, and the in-place two-stage chain with its checksum,
each method proved against a function on the packet's abstract value; `WireFormat` says the same
bytes in C's int arithmetic. The codec is the one under
`Encode_option`, a macro that `Packet.cpp:6` has commented out; without it nothing is encoded.

**Framing** (`Framing`). The receive loop (`CNetServer.cpp:874-946`) as a class over a byte queue.
`DWORD` arithmetic on `leftByte` wraps.

**Auctions** (`AuctionRules`, `AuctionHistory`, `AuctionPasses`, `AuctionJobs`, `AuctionRuns`,
`AuctionAnswers`, `AuctionLosses`, `AuctionServer`). `AuctionRules` specifies each job; the class in `AuctionServer`
carries out the handlers and timed passes over the containers it mutates, loops included, and is
proved equal to that; the other modules prove what holds over all runs. Clock readings, random
minutes, the order in which an unordered container is walked, account numbers (no code assigns one
other than 0) and the answers of the database thread are inputs. 64-bit times, 32-bit prices and
the 8-bit registration time wrap as in the code.

## What the code does not do

Where the code falls short of its purpose, the exact condition is proved; only of the stale release
(third below) it is not shown that every one does harm.

- A pop that sleeps through exactly 65536 pops, or a multiple, can corrupt the stack
  (`StampWrap.OversleepingBreaksTheStack`), and does exactly when its swap succeeds and installs
  another word than a pop reading the successor now would (`LockFreeStack.StepKeepsExactly`).
- A session whose first `WSARecv` fails, or whose release request cannot be posted, is left with a
  count of 0 and nobody bound to release it (`SessionSlots.LostExactlyThere`), until somebody next
  finds it by its id (`SessionSlots.RescuedExactly`).
- A sender that finds a session between the count read and the flag swap of its release can have
  its packet freed while it still holds it (`StaleRelease.FreedWhileHeld`). When the flag is taken
  from under a batch that is being filled, posted or sent, a reference to its first packet can be
  given up twice, from any state the invariant allows (`StaleRelease.StaleSwapLosesAReference`). No other
  step breaks what the reference counts promise (`PacketLifetime.ActionKeeps`).
- The receive loop stops when the bytes taken equal the bytes transferred. So complete frames stay
  queued exactly when some of the last frames, with the unfinished rest, take up as many bytes as
  earlier completions had left (`Framing.LeftBehindExactly`).
- With fewer than five bytes queued the receive loop compares a header variable that was never
  written. Whenever that happens not to hold the code, a well-behaved client is disconnected, with
  one exception (`Framing.DisconnectedExactly`); every frame that is cut in two runs that risk
  (`Framing.EveryCutFrameIsAtRisk`).
- A request to change a nickname dereferences the owner's list entry unchecked; a client that has
  just joined has none (`AuctionRuns.BoundsAreDecided`, `AuctionRuns.NewClientDerails`).
- `Update` notes the time on every call, and the logic loop calls it about every 100 ms; calls at
  most a minute apart never make an auction imminent (`AuctionJobs.FrequentUpdatesEndNothing`).
- A nickname registered twice loses the second auction for ever
  (`AuctionLosses.RegisteringTwiceLosesTheSecond`).
- Forgetting a changed nickname erases while iterating and decrements on every pass: it halves the
  slots in use and finds the name only in the first slot (`AuctionPasses.ForgettingIsRightExactly`);
  names inserted later may not be seen (`AuctionPasses.InsertedIsSeenExactly`).
- A bid by account 0 counts as no bid at closing (`AuctionRuns.ClosesByItsLog`), and the points
  of an outbid bidder are not returned (`AuctionJobs.BidIsDecided`).

## Model

| member | source | states |
|---|---|---|
| `StampedWord.PushedOverParts` | NewNameAuction/LockFreeStack.h:49 | the word a push installs holds its node in the low 48 bits and the old stamp in the high 16, for every address user code can have |
| `StampedWord.PoppedOverParts` | NewNameAuction/LockFreeStack.h:69-72 | the word a pop installs holds the successor and the old stamp plus one; the sign extension of the short never leaks into the address |
| `StampedWord.SignIsShiftedOut` | NewNameAuction/LockFreeStack.h:69-71 | a negative stamp, sign-extended to 64 bits, shifts to the same high bits as its 16-bit pattern |
| `StampedWord.StampAfterIsModular` | NewNameAuction/LockFreeStack.h:69-70 | the stamp after n pops is n modulo 65536 |
| `StampedWord.StampsCoincide` | NewNameAuction/LockFreeStack.h:69-72 | two stamps are equal exactly when the number of pops between them is a multiple of 65536 |
| `LockFreeStack.StepIsAtomic` | NewNameAuction/LockFreeStack.h:35-81 | any single shared access by any thread keeps the whole invariant and either pushes one value on, pops the top value off, or leaves the abstract stack alone, unless it is the successful swap of an outdated pop: one that would install another word than a pop reading the successor now |
| `LockFreeStack.StepKeepsExactly` | NewNameAuction/LockFreeStack.h:60-72 | a step keeps the invariant if and only if it is not such a swap |
| `LockFreeStack.OutdatedMeansOverslept` | NewNameAuction/LockFreeStack.h:60-72 | such a swap needs a positive multiple of 65536 pops since the load |
| `LockFreeStack.PushSwapStep` | NewNameAuction/LockFreeStack.h:44-47 | a successful push swap links exactly its own node on top and keeps nodes, counts and the log of effects consistent |
| `LockFreeStack.PopSwapStep` | NewNameAuction/LockFreeStack.h:60-72 | a successful pop swap that is not outdated unlinks exactly the top node, although its successor was read long before |
| `LockFreeStack.FreshSwap` | NewNameAuction/LockFreeStack.h:60-72 | a swap that finds the loaded word again, after any number of pops but a positive multiple of 65536, finds a stack whose top and successor have not changed, however many nodes were recycled meanwhile |
| `LockFreeStack.RunInv` | NewNameAuction/LockFreeStack.h:35-81 | the invariant holds in every state of every run without the successful swap of an outdated pop |
| `LockFreeStack.AwakeMeansValid` | NewNameAuction/LockFreeStack.h:60-72 | every run in which no pop's swap succeeds after a positive multiple of 65536 pops is one of those |
| `LockFreeStack.Linearizable` | NewNameAuction/LockFreeStack.h:35-81 | in every such run every step acts atomically on one LIFO sequence, the order of the swaps is a legal sequential history ending in the present contents, and each thread has been handed exactly what its pops took off, in order |
| `LockFreeStack.PushesAndPops` | NewNameAuction/LockFreeStack.h:35-81 | in a legal LIFO history the values pushed are the values popped and the values left |
| `LockFreeStack.Conservation` | NewNameAuction/LockFreeStack.h:35-81 | at every moment of every such run no value is lost, invented or handed out twice |
| `LockFreeStack.OnePlace` | NewNameAuction/LockFreeStack.h:37-47 | a node the pool has handed out is on the chain or in the hands of exactly one thread, never both, and the chain visits no node twice |
| `LockFreeStack.NeverStuck` | NewNameAuction/LockFreeStack.h:60-72 | every address a thread in mid-operation dereferences is mapped, including the node of a stale load |
| `LockFreeStack.FalsePop` | NewNameAuction/LockFreeStack.h:52-67 | in the states in which pop answers FALSE (which these are, the next four rows say) the stack is no longer than the uncounted pushes plus the counted pops; with a NULL top it is empty |
| `StackAnswers.RefusesOnlyWithinBound` | NewNameAuction/LockFreeStack.h:53-56 | a pop refuses at once exactly when nodeCount is 0 or less, and the stack is then no longer than the pushes not yet counted plus the pops already counted |
| `StackAnswers.GivesUpOnlyWhenEmpty` | NewNameAuction/LockFreeStack.h:60-67 | a pop that has started goes on to its second FALSE exit only from an empty stack, never because a swap failed |
| `StackAnswers.FalseMeantEmpty` | NewNameAuction/LockFreeStack.h:57-67 | in every run, whenever a started pop is on its way to answering FALSE, the stack was empty at a moment of that very pop |
| `StackAnswers.PopEndsInAnAnswer` | NewNameAuction/LockFreeStack.h:57-78 | a started pop ends only by that exit, giving its decrement back, or by handing over, once, the value its own swap took off |
| `StackAnswers.EveryPushTakesEffect` | NewNameAuction/LockFreeStack.h:35-49 | in every run the values a thread was asked to push are those its pushes put on the stack, in order, and then at most the one it is still busy with |
| `StackAlone.PopCompletesAlone` | NewNameAuction/LockFreeStack.h:57-78 | from any state the invariant allows, whatever the other threads have left half done, a pop left alone completes within eight steps with the top value, or with FALSE if the stack is empty (a pop about to swap: unless that swap is an outdated one) |
| `StackAlone.PushCompletesAlone` | NewNameAuction/LockFreeStack.h:35-49 | likewise a push left alone completes within eight steps with its value on top |
| `LockFreeStack.QuietCount` | NewNameAuction/LockFreeStack.h:47-58 | with no operation in progress nodeCount is the number of values on the stack |
| `StampWrap.OversleepingBreaksTheStack` | NewNameAuction/LockFreeStack.h:60-72 | sleeping too long can break the stack: for every positive multiple of 65536 a run from the empty stack in which a pop sleeps through exactly that many, its swap succeeds, the top becomes a node that is back in the pool, and a node never popped is no longer reached from the top |
| `StampWrap.WholePush` | NewNameAuction/LockFreeStack.h:35-49 | what an uninterrupted push makes of the stack, as a run of single steps |
| `StampWrap.WholePop` | NewNameAuction/LockFreeStack.h:50-78 | what an uninterrupted pop makes of the stack, as a run of single steps |
| `SessionSlots.CountIsExact` | NewNameAuction/CNetServer.cpp:398-416 | in every reachable state, across slot reuse, IOcount equals posted receives, posted sends, queued send requests and the references of finders, workers, accept and threads backing out; it is never negative and releaseSession never reads a negative count |
| `SessionSlots.ExactlyOnePlace` | NewNameAuction/CNetServer.cpp:756-772 | every slot index is in exactly one of: the stack of empty indices (once), the hands of accept, live, in cleanup; a live slot is valid, and its flag is ON exactly while one thread has claimed it |
| `SessionSlots.CleanupAtMostOnce` | NewNameAuction/CNetServer.cpp:465-525 | no session id is cleaned up twice in any run, and only ids accept gave out are |
| `SessionSlots.IdsAreNeverReused` | NewNameAuction/CNetServer.cpp:764-766 | accept never gives out an id twice, and the 16-bit index an id carries is that of its slot |
| `SessionSlots.FoundMeansMatched` | NewNameAuction/CNetServer.cpp:382-420 | at the step in which findSession returns a slot its id matches, and the slot's count already includes the caller |
| `SessionAnswers.IdLayout` | NewNameAuction/CNetServer.cpp:764-766 | an id is the serial number shifted up by 16 bits, with the slot's index in the low 16 |
| `SessionAnswers.FoundMeansOpen` | NewNameAuction/CNetServer.cpp:398-420 | in every run a thread that findSession gives a session had counted itself in, then read the release flag OFF, and then compared the id |
| `SessionAnswers.FindDecides` | NewNameAuction/CNetServer.cpp:398-420 | a finder left alone gets the session if and only if the flag is OFF and the id matches, with one reference more; otherwise all is as before, but for a release request if nobody else held a reference |
| `SessionAnswers.FindEnters` | NewNameAuction/CNetServer.cpp:384-398 | it gets as far as its increment exactly if the index is one of a slot and the slot is valid |
| `SessionAnswers.DropDecides` | NewNameAuction/CNetServer.cpp:594-598 | giving a reference back takes one off the count and asks for a release exactly if it was the last |
| `SessionAnswers.RequestDecides` | NewNameAuction/CNetServer.cpp:582-598 | a sender's request to send holds a reference of its own exactly if it could be posted, and the sender's is given back |
| `SessionAnswers.WorkerDecides` | NewNameAuction/CNetServer.cpp:978-981 | a worker that is done gives up its reference and goes on to release exactly if it was the last |
| `SessionAnswers.PostDecides` | NewNameAuction/CNetServer.cpp:233-254 | a posted receive or send holds a reference of its own, one that fails holds none |
| `SessionAnswers.ReleaseDeclines` | NewNameAuction/CNetServer.cpp:460-474 | a release left alone does nothing to a session that is not valid, in use, or claimed already |
| `SessionAnswers.ReleaseCleans` | NewNameAuction/CNetServer.cpp:460-525 | a release left alone of the session that is in the slot, unused and unclaimed, cleans it up once and gives its index back |
| `SessionAnswers.StaleReleaseCleans` | NewNameAuction/CNetServer.cpp:471-482 | one by an old id, of a slot whose present session is unused, gives the flag back and then releases the present session |
| `SessionAnswers.AcceptOpens` | NewNameAuction/CNetServer.cpp:756-823 | accept takes the index on top, gives the slot a new id, validity and an open flag, and leaves a count of 1 for the posted receive, or of 0 if that failed |
| `SessionSlots.ReleaseIsNeverLost` | NewNameAuction/CNetServer.cpp:460-482 | as long as neither a first WSARecv nor the post of a release request fails, a live slot with count 0 always has a thread or a queued request bound to release it, so the back-out path never loses the new session |
| `SessionSlots.LostExactlyThere` | NewNameAuction/CNetServer.cpp:529-532 | two steps leave a live slot with count 0 and nobody bound to release it, and only these: accept's decrement after a failed first WSARecv (lines 807-823), and a release request whose failing post is ignored, each exactly when the count is then 0 and nobody else is bound to release the slot |
| `SessionSlots.RescuedExactly` | NewNameAuction/CNetServer.cpp:382-416 | such a slot stays so until, exactly, somebody who looked up its session counts itself in |
| `SessionSlots.NextSendRescuesSession` | NewNameAuction/CNetServer.cpp:534-606 | both are reachable: after the failed first receive the next send takes a reference, and dropping it queues the release, or loses the session again if that post fails |
| `SessionSlots.ZeroMeansUnused` | NewNameAuction/CNetServer.cpp:460-465 | IOcount is 0 if and only if no receive, send or send request is under way and no finder, worker or accept thread holds a reference |
| `SessionSlots.FirstReceiveFailureLosesSession` | NewNameAuction/CNetServer.cpp:807-823 | the first of the losing steps is reachable: accept one session and let its first WSARecv fail |
| `SessionSlots.ActionKeeps` | NewNameAuction/CNetServer.cpp:373-525 | every step of finders, workers, releasers, senders and accept keeps the slot invariant and every slot's cover, but for the losing steps |
| `SessionSlots.IndexIsValid` | NewNameAuction/CNetServer.cpp:445-458 | the index guard of releaseSession never turns away a worker or a thread backing out: the id it read carries the index of a real slot |
| `SessionSlots.StartsCleaning` | NewNameAuction/CNetServer.cpp:470-488 | the winner of the release flag whose id matches cleans a slot that nobody else cleans and whose id was given out and never cleaned |
| `SendPath.FlagMeansBusy` | NewNameAuction/CNetServer.cpp:262-280 | until release sendFlag is 1 exactly when one thread is inside the region, a send is outstanding, or a send has completed with an error, never two of these |
| `SendPath.BatchIsFrozen` | NewNameAuction/CNetServer.cpp:283-309 | a batch has at most 950 packets, and neither sentPacketArray nor sendPacketCount changes while it is in flight |
| `SendPath.PacketsInOrder` | NewNameAuction/CNetServer.cpp:285-309 | packets taken for sending followed by those still queued are the packets enqueued, in order; the references given up are those of the first packets taken; what is taken and not given up is the current batch |
| `SendPath.DropStep` | NewNameAuction/CNetServer.cpp:333-363 | giving up one packet of a batch, after a failed send or a completion, keeps the invariant: what is taken and not given up is the rest of the batch |
| `SendPath.FillStep` | NewNameAuction/CNetServer.cpp:285-298 | a turn of the filling loop keeps the invariant: what has left the queue and is not given up is what the array holds so far |
| `SendAnswers.FlagDecides` | NewNameAuction/CNetServer.cpp:264 | a post wins the flag exactly when it was clear |
| `SendAnswers.SendDecides` | NewNameAuction/CNetServer.cpp:280-320 | a post that won the flag, left alone, puts the first packets of the queue, all of them or 950, into the array in order and sends just those; the batch is the last exactly if a last packet was asked for before |
| `SendAnswers.SendDeclines` | NewNameAuction/CNetServer.cpp:266-278 | on a session to be disconnected or with nothing queued it gives the flag back and changes nothing else |
| `SendAnswers.CompletionDecides` | NewNameAuction/CNetServer.cpp:951-975 | a completion left alone gives up the packets of the batch, in order, and then the flag; it disconnects the session if and only if the batch was marked as the last |
| `SendAnswers.CompletionSendsOn` | NewNameAuction/CNetServer.cpp:969-974 | and then, unless it disconnects, the packets queued by then, all of them or 950, are sent as the next batch |
| `SendAnswers.FailureDecides` | NewNameAuction/CNetServer.cpp:328-368 | a send that failed at once does the same with its batch, and disconnects the session |
| `SendAnswers.StageMovesExactly` | NewNameAuction/CNetServer.cpp:315-317 | the disconnect stage moves from normal by a last packet, on by the next batch posted, and to disconnect by a disconnect, a send that failed, or the completion of a batch so marked, and never otherwise |
| `SendAnswers.StaysNormal` | NewNameAuction/CNetServer.cpp:951-957 | in every run without a last packet, a disconnect and a failed send the session stays in its normal stage |
| `SendAnswers.LastMeansMarked` | NewNameAuction/CNetServer.cpp:315-317 | in every run a batch is the last only if a last packet was queued, in the normal stage, before |
| `SendPath.ActionKeeps` | NewNameAuction/CNetServer.cpp:262-369 | every step of senders, workers and environment keeps exclusivity and order; what becomes of the disconnect stage is in the rows above |
| `PacketLifetime.CountIsExact` | NewNameAuction/CNetServer.cpp:553-574 | in every state reachable without a stale release, a packet's reference count is the number of references that creators, receivers, senders, session queues, batches and the job queue answer for |
| `PacketLifetime.NeverFreedWhileHeld` | NewNameAuction/CNetServer.cpp:499-522 | in those states a packet that is freed, or about to be, is referred to by no thread, no queue, no batch in flight and no job, for broadcasts to any sessions |
| `PacketLifetime.FreedExactlyOnce` | NewNameAuction/CNetServer.cpp:958-967 | in those states a packet has been freed at most once, and has been exactly when nobody holds it and nobody is making or just freeing it: none leaks |
| `PacketLifetime.OneAtATime` | NewNameAuction/CNetServer.cpp:262-280 | in those states at most one thread works on a session's batch or tends its slot, and none uses a session that is being released or opened |
| `PacketAnswers.BroadcastReaches` | NewNameAuction/CNetServer.cpp:535-609 | a broadcast goes on to its last target whatever it meets: each session found has the packet queued, with a reference, once for each time it is a target, and is asked to send as often as that request could be posted; no other session changes |
| `PacketAnswers.SharedByAll` | NewNameAuction/AuctionServer.cpp:183-201 | from mAlloc to the last subRef, a packet for several sessions ends with as many references as it was queued times, and is freed at once if there were none |
| `PacketAnswers.ReceivedBecomesJob` | NewNameAuction/CNetServer.cpp:907-942 | a received packet that decodes becomes one job that holds its only reference; one that does not is freed |
| `PacketAnswers.JobIsUsedUp` | NewNameAuction/AuctionServer.cpp:619-668 | the logic thread takes the oldest job and gives up its reference, freeing the packet exactly if it was the last |
| `PacketAnswers.SendsOut` | NewNameAuction/CNetServer.cpp:262-320 | a request to send, taken up and left alone, makes the oldest packets, all there are or 950, the batch, in order, and changes no count |
| `PacketAnswers.CompletionGivesUpAll` | NewNameAuction/CNetServer.cpp:958-967 | a completion or failed send left alone gives up each packet as often as it is in the batch, frees exactly those nobody else holds, and leaves the queue alone |
| `PacketAnswers.ReleaseGivesUpAll` | NewNameAuction/CNetServer.cpp:499-522 | a release left alone gives up everything queued and everything in the batch, and frees exactly what nobody else holds |
| `PacketAnswers.VacantHoldsNothing` | NewNameAuction/CNetServer.cpp:785-797 | in every run without a stale release a vacant slot holds no packet, so that accept finds an empty queue |
| `PacketLifetime.Balanced` | NewNameAuction/CNetServer.cpp:603-609 | each step changes what its thread, its session and the job queue answer for by exactly what it changes the count by |
| `PacketLifetime.Settles` | NewNameAuction/Packet.cpp:226-229 | a count leaves 0 only by adoption and reaches it only by a drop whose thread then frees the packet |
| `PacketLifetime.ActionKeeps` | NewNameAuction/CNetServer.cpp:460-465 | every step of creators, receivers, the logic thread, senders, releases or accept keeps exact counts and exclusive batches, unless it takes the release flag while somebody uses the session |
| `PacketLifetime.StepIsExact` | NewNameAuction/CNetServer.cpp:499-522 | a step keeps the counts exact whenever its own thread and slot are in order, even one that takes the release flag from under a user of the session: what that breaks is that batches have one owner |
| `StaleRelease.FreedWhileHeld` | NewNameAuction/CNetServer.cpp:460-522 | the condition of the four results above is needed: an interleaving of 19 steps in which a sender finds the session between the count read and the flag swap, and at whose end its packet has been freed while the sender holds it, so that the count is not the number of holders, a freed packet is held, being freed does not mean having no holder, and two threads work on one batch |
| `StaleRelease.StaleSwapLosesAReference` | NewNameAuction/CNetServer.cpp:499-522 | from any state that satisfies the invariant, a release flag taken while a thread fills or posts a batch, or while one is in flight and a thread can take up its completion, can be followed by steps after which the first packet's count is one short of its holders |
| `Packet.CPacket.constructor` | NewNameAuction/Packet.cpp:15-25 | a new packet is empty and unencoded, with no reference |
| `Packet.CPacket.Allocate` | NewNameAuction/Packet.cpp:214-224 | a packet from the pool has no reference and is not encoded; its cursors stay but for the room of a header |
| `Packet.CPacket.AddRef` | NewNameAuction/Packet.cpp:32-35 | the count rises by the argument, nothing else changes |
| `Packet.CPacket.SubRef` | NewNameAuction/Packet.cpp:36-39 | the count falls by one and is returned |
| `Packet.CPacket.Clear` | NewNameAuction/Packet.cpp:46-51 | an empty payload behind room for a header; the bytes stay |
| `Packet.CPacket.ClearNetwork` | NewNameAuction/Packet.cpp:53-58 | both cursors at the start |
| `Packet.CPacket.GetDataSize` | NewNameAuction/Packet.cpp:65-68 | the number of bytes between the cursors, which is also DataSize |
| `Packet.CPacket.MoveWritePos` | NewNameAuction/Packet.cpp:95-112 | moves by the argument, or not at all: 0 for none, -1 without room; 0 <= readPos <= writePos <= end and DataSize are kept |
| `Packet.CPacket.MoveReadPos` | NewNameAuction/Packet.cpp:114-130 | moves by the argument, or not at all: 0 for none, -1 without data; the cursor invariant is kept |
| `Packet.CPacket.PutScalar` | NewNameAuction/Packet.cpp:254-263 | the image is appended if it fits, else nothing changes |
| `Packet.CPacket.GetScalar` | NewNameAuction/Packet.cpp:445-454 | the next bytes are taken off if there are enough, else the variable keeps its value and nothing changes |
| `Packet.CPacket.PutData` | NewNameAuction/Packet.cpp:542-558 | the block is appended or refused as a whole, and the answer says which |
| `Packet.CPacket.GetData` | NewNameAuction/Packet.cpp:523-540 | the block is taken off or refused as a whole, and the answer says which |
| `Packet.CPacket.PayloadSum` | NewNameAuction/Packet.cpp:146-152 | the checksum loop computes the sum of the payload |
| `Packet.CPacket.PutHeader` | NewNameAuction/Packet.cpp:139-153 | header and plain checksum in front of an untouched payload |
| `Packet.CPacket.EncodeChain` | NewNameAuction/Packet.cpp:155-164 | the in-place loop leaves the chained encoding of checksum and payload, which `WireFormat.EncodesAsWritten` spells out, and touches nothing else |
| `Packet.CPacket.DecodeChain` | NewNameAuction/Packet.cpp:181-194 | the in-place loop leaves the chained decoding and touches nothing else |
| `Packet.CPacket.Encode` | NewNameAuction/Packet.cpp:132-169 | refuses a packet without payload; else the buffer holds the encoded frame of the payload that was in it, byte for byte as in `WireFormat.FrameAsWritten` |
| `Packet.CPacket.Decode` | NewNameAuction/Packet.cpp:171-210 | refuses a packet without payload; else checksum and payload are decoded in place and the answer says whether they agree; reports, touching nothing, when the trusted length field would take the loop past the buffer |
| `Packet.EncodeTurn` | NewNameAuction/Packet.cpp:160-163 | one turn of the encoding loop is one step of the recursive chain |
| `Packet.DecodeTurn` | NewNameAuction/Packet.cpp:189-193 | one turn of the decoding loop is one step of the recursive chain |
| `PacketCodec.MixingTruncates` | NewNameAuction/Packet.cpp:160-161 | mixing in int arithmetic and truncating on assignment is mixing in unsigned char arithmetic |
| `WireFormat.KeyValue` | NewNameAuction/Packet.cpp:160-161 | the key byte at position i is the key plus i plus 1, modulo 256 |
| `WireFormat.EncodesAsWritten` | NewNameAuction/Packet.cpp:155-164 | the encoding chain is the loop as written: on 32-bit ints, each byte `x ^ (last + key + i + 1)` truncated |
| `WireFormat.DecodesAsWritten` | NewNameAuction/Packet.cpp:187-194 | and so is the decoding chain |
| `WireFormat.FrameAsWritten` | NewNameAuction/Packet.cpp:132-164 | what Encode sends: 0x77, the length with its low byte first, the key, and the sum of the payload modulo 256 and the payload through that loop |
| `WireFormat.DecodedAsWritten` | NewNameAuction/Packet.cpp:187-207 | what Decode leaves is that loop over what came, and it accepts if and only if the first byte it leaves is the sum of the others modulo 256 |
| `WireFormat.OneFrame` | NewNameAuction/Packet.cpp:132-164 | payload 0 under key 0 is sent as 77 01 00 00 32 65 |
| `WireFormat.ScalarImage` | NewNameAuction/Packet.cpp:254-398 | byte i of a scalar's image is digit i in base 256 of the value, or of its two's complement if it is negative |
| `PacketCodec.DecodeUndoesEncode` | NewNameAuction/Packet.cpp:155-194 | the decoding chain undoes the encoding chain for all data, keys and loop states |
| `PacketCodec.EncodeUndoesDecode` | NewNameAuction/Packet.cpp:155-194 | and the other way round |
| `PacketCodec.DecodeAfterEncode` | NewNameAuction/Packet.cpp:132-210 | for every key and every payload of 1 to 65535 bytes the encoded frame is well framed, accepted, and decodes to that payload |
| `PacketCodec.EncodeAfterDecode` | NewNameAuction/Packet.cpp:132-210 | Decode accepts a well-framed buffer if and only if encoding the payload it found, under the key it found, gives back exactly that buffer |
| `PacketCodec.DecodeClosed` | NewNameAuction/Packet.cpp:187-194 | decoded byte i is a function of cipher bytes i-2, i-1 and i and the keys alone |
| `PacketCodec.CorruptionIsLocal` | NewNameAuction/Packet.cpp:187-194 | changing one cipher byte changes at most that decoded byte and the next two |
| `PacketCodec.CorruptionShows` | NewNameAuction/Packet.cpp:187-194 | the changed byte itself always decodes differently |
| `PacketCodec.LastByteChangesChecksum` | NewNameAuction/Packet.cpp:196-207 | payloads that differ in the last byte only have different checksums |
| `PacketCodec.LastByteIsGuarded` | NewNameAuction/Packet.cpp:187-207 | an encoded frame corrupted in its last payload byte only is never accepted |
| `PacketFields.LittleEndianRoundTrip` | NewNameAuction/Packet.cpp:254-398 | an unsigned value read from its memory image is the value |
| `PacketFields.ReadingUndoesImage` | NewNameAuction/Packet.cpp:254-521 | a value of any operand type, negative ones included, read from its memory image is the value |
| `PacketFields.WriteAllContents` | NewNameAuction/Packet.cpp:254-398 | writes that fit leave exactly their images, in order, and nothing before the cursor changes |
| `PacketFields.ReadAllSerialized` | NewNameAuction/Packet.cpp:400-540 | reading with the types that were written returns what was written and leaves no data |
| `PacketFields.WireIsFrame` | NewNameAuction/Packet.cpp:132-169 | what a packet of fields puts on the wire is the encoded frame of their images |
| `PacketFields.DecodeReceived` | NewNameAuction/CNetServer.cpp:907-937 | an encoded frame received into any packet is accepted and, past the header, is its payload |
| `PacketFields.FieldsRoundTrip` | NewNameAuction/CNetServer.cpp:907-937 | any typed fields and raw blocks that fit, written after Clear, encoded under any key, received into any packet, decoded and read back with the same types, come back unchanged and leave no data |
| `Framing.DrainConserves` | NewNameAuction/CNetServer.cpp:876-945 | frames taken followed by the bytes still queued are the bytes that were queued; nothing is lost or reordered |
| `Framing.DrainStops` | NewNameAuction/CNetServer.cpp:875-881 | on exit without disconnect either no complete frame is queued or the bytes taken are exactly the bytes transferred, unsigned wrap of leftByte included |
| `Framing.FramesAreUnique` | NewNameAuction/CNetServer.cpp:884-937 | good frames are self-delimiting: those found at the front of a stream of good frames are its first frames, in order |
| `Framing.DrainDecided` | NewNameAuction/CNetServer.cpp:876-945 | on any queue of good frames and an unfinished rest: which frames the loop takes, that it leaves a complete frame exactly when leftByte comes to 0 before the last of them, and that it disconnects exactly when leftByte never does, the rest is shorter than a header and the stale code is wrong |
| `Framing.EveryQueueSplits` | NewNameAuction/CNetServer.cpp:884-937 | every queue of bytes is good frames and then something that does not begin with one |
| `Framing.AnyQueueDecided` | NewNameAuction/CNetServer.cpp:876-945 | so for any bytes at all: the good frames in front are delivered up to where leftByte comes to 0, and the client is disconnected if and only if leftByte does not before the rest, and the rest is a wrong code, a length above 2000, a complete frame that does not decode, or less than a header with a stale code |
| `Framing.DisconnectedExactly` | NewNameAuction/CNetServer.cpp:884-893 | a client that sends good frames is disconnected if and only if fewer than five bytes are left over, the header variable does not happen to hold the code, and no last frames take up, with what is left over, as many bytes as earlier completions had left |
| `Framing.EveryCutFrameIsAtRisk` | NewNameAuction/CNetServer.cpp:884-893 | a good frame cut in two is delivered with its end, and then the stale code alone decides whether the client is disconnected |
| `Framing.GoodStreamsFallApart` | NewNameAuction/CNetServer.cpp:884-905 | every beginning of a stream of good frames is its first frames and an unfinished rest, so the three results above cover every well-behaved client |
| `Framing.UsedUpIsASplit` | NewNameAuction/CNetServer.cpp:875-881 | leftByte comes to 0 behind the first n frames exactly when their size does, modulo 2 to the 32 |
| `Framing.LeftBehindExactly` | NewNameAuction/CNetServer.cpp:875-945 | whatever completion brings whatever frames: a complete frame is left in the queue, undelivered, if and only if some of the last frames, with the unfinished rest, take up as many bytes as earlier completions had left |
| `Framing.LeftBehindHappens` | NewNameAuction/CNetServer.cpp:875-945 | it happens for every cut longer than a header: a frame cut there, then its end and a whole frame of the size of what had come |
| `Framing.EncodedIsGood` | NewNameAuction/Packet.cpp:132-169 | every frame Encode can produce is one the loop delivers, as its payload |
| `Framing.FrameInPacket` | NewNameAuction/CNetServer.cpp:907-937 | a frame copied into a packet decodes exactly when it is good, to its payload; one too long for the write cursor is refused |
| `Framing.InPacket` | NewNameAuction/CNetServer.cpp:907-923 | a frame's bytes are in a fresh packet, as far as they fit, with one reference |
| `Framing.Session.constructor` | NewNameAuction/CNetServer.cpp:756-783 | a new session has received and delivered nothing |
| `Framing.Session.TakeFrame` | NewNameAuction/CNetServer.cpp:907-937 | one frame leaves the queue and is handed on, as its payload, exactly if it is good |
| `Framing.Session.DrainQueue` | NewNameAuction/CNetServer.cpp:875-945 | the loop terminates, delivers the payloads of the frames it takes, in order, counts them, and leaves queue and disconnect flag as specified |
| `Framing.Session.OnReceived` | NewNameAuction/CNetServer.cpp:874-946 | after each receive of any size, what was delivered followed by what is queued is all that was received; a complete frame is left only when bytes taken equal bytes transferred |
| `Framing.DeliveredInOrder` | NewNameAuction/CNetServer.cpp:874-945 | whatever way a stream of good frames is cut, a session has delivered the payloads of its first frames, in order, and the rest of what arrived is queued |
| `AuctionRuns.BidLogIsRefined` | NewNameAuction/AuctionServer.cpp:447-455 | in every reachable state every auction is what its bid log says: prices ascend from the start price, the owner never bids, Price, BidderID and the 32-bit Count are last price, last bidder and length, and the length is at most the rise of the price |
| `AuctionRuns.ClosesByItsLog` | NewNameAuction/AuctionServer.cpp:1018-1050 | exactly one sale report per closing, naming the last bidder, none before; sold exactly when that account is not 0, so with nonzero accounts exactly when there was a bid |
| `AuctionRuns.HistoryOnlyGrows` | NewNameAuction/AuctionServer.cpp:931-1055 | between any two moments of a run an auction's status only moves on, its log only grows, its end time changes only when it becomes imminent, and once closed or lost it never changes |
| `AuctionRuns.OneContainer` | NewNameAuction/AuctionServer.cpp:939-955 | every auction is in exactly the container its status names, under its nickname and no other key, FinList without repeats, or has been lost and is in none |
| `AuctionRuns.LiveNamesakes` | NewNameAuction/AuctionServer.cpp:433-445 | two live auctions share a nickname only if one is on sale and the other imminent |
| `AuctionRuns.DeadlineIsWithinTwoMinutes` | NewNameAuction/AuctionServer.cpp:738-740 | after the random minutes the end time is within two minutes of what the seller asked for exactly when the drawn end time fits 64 bits, and closing is later than it |
| `AuctionRuns.NeverClosesEarly` | NewNameAuction/AuctionServer.cpp:1018-1021 | for a positive time no auction closes earlier than start plus time minus two minutes, unless the end time it drew does not fit 64 bits |
| `AuctionRuns.SlotsSuffice` | NewNameAuction/AuctionServer.cpp:713-722 | auctions on sale, imminent and sold never outnumber NumOfSales, which counts every registration and never exceeds 20000 |
| `AuctionRuns.BoundsAreDecided` | NewNameAuction/AuctionServer.cpp:490-492 | in every reachable state a job accesses only valid auctions, list slots in use (0 <= count <= number of names for every owner) and entries that exist, if and only if it is not a nickname change for an account without an entry in OwnList |
| `AuctionRuns.NewClientDerails` | NewNameAuction/AuctionServer.cpp:490-492 | any client that has just joined can make such a request |
| `AuctionJobs.AnswersAreInBounds` | NewNameAuction/AuctionServer.cpp:679-683 | a positive answer of the database thread to a check it was asked for is never such a job |
| `AuctionRuns.RunInv` | NewNameAuction/AuctionServer.cpp:572-790 | the server invariant holds in every state of every run |
| `AuctionHistory.JobKeeps` | NewNameAuction/AuctionServer.cpp:586-790 | every job keeps the server invariant and lets every auction only evolve |
| `AuctionHistory.LogIsNoLongerThanTheRise` | NewNameAuction/AuctionServer.cpp:447-455 | an ascending log is no longer than its last price minus the start price |
| `AuctionHistory.BidKeepsLog` | NewNameAuction/AuctionServer.cpp:452-455 | an accepted bid keeps object and log in step |
| `AuctionHistory.MoveOneKeeps` | NewNameAuction/AuctionServer.cpp:941-955 | becoming imminent, collision or not, keeps the server invariant |
| `AuctionHistory.CloseOneKeeps` | NewNameAuction/AuctionServer.cpp:1018-1050 | closing keeps the server invariant |
| `AuctionHistory.RegisteredKeeps` | NewNameAuction/AuctionServer.cpp:698-770 | registering, collision or not, keeps the server invariant |
| `AuctionHistory.IndexingIsSafe` | NewNameAuction/AuctionServer.cpp:684-693 | the same in any state that satisfies the server invariant |
| `AuctionHistory.ForgettingHalves` | NewNameAuction/AuctionServer.cpp:684-693 | the loop that forgets a changed nickname leaves half the slots in use, rounded down, and the list indexable |
| `AuctionPasses.ForgetsOnlyTheFirst` | NewNameAuction/AuctionServer.cpp:684-693 | that loop strikes off a name exactly when the requested name is in the first slot (no owner holding a name spelled "NULL") |
| `AuctionPasses.ForgettingIsRightExactly` | NewNameAuction/AuctionServer.cpp:684-693 | for any list of names it strikes off the requested name where it first stands and gives up one slot, as meant, if and only if that is the first slot and at most two slots are in use |
| `AuctionPasses.InsertedIsSeenExactly` | NewNameAuction/AuctionServer.cpp:1158-1166 | an inserted name is among those the loops see if and only if it was before, or no unused slot was left behind, or the first unused slot already held it |
| `AuctionPasses.MovePass` | NewNameAuction/AuctionServer.cpp:936-955 | the one-minute pass, in any order: entries past their end time leave CellList and become imminent, later by their draw; a collision, and only a collision, loses the auction; everything else is as it was |
| `AuctionPasses.ClosePass` | NewNameAuction/AuctionServer.cpp:1007-1051 | the five-second pass, in any order: entries past their end time are closed, as sold exactly with a bidder, and reported; everything else is as it was |
| `AuctionPasses.UpdateLeavesNothingOverdue` | NewNameAuction/AuctionServer.cpp:931-1054 | an update more than a minute after the last leaves no overdue entry in CellList or ImminentList |
| `AuctionAnswers.UpdateIsGated` | NewNameAuction/AuctionServer.cpp:931-1055 | in every reachable state: an update at most 5000 ms after the last only notes the time, one at most 60000 ms after it closes exactly what is overdue in ImminentList and leaves CellList alone, a later one first makes imminent exactly what is overdue in CellList; the gap is an unsigned 64-bit difference |
| `AuctionAnswers.AnyMinutesMayBeDrawn` | NewNameAuction/AuctionServer.cpp:934-952 | the delay drawn is any from 480000 to 720000 ms |
| `AuctionAnswers.NewestSoldFirst` | NewNameAuction/AuctionServer.cpp:1026-1030 | between any two moments of a run nothing leaves the list of what was sold, and what is sold later stands in front |
| `AuctionAnswers.IndexFindsFirstSold` | NewNameAuction/AuctionServer.cpp:1031 | in every reachable state FinList_UMap finds, under each nickname, the first auction sold under it, and nothing under any other |
| `AuctionJobs.RegistrationIsDecided` | NewNameAuction/AuctionServer.cpp:698-760 | a registration adds exactly one auction, with the asked price and time, exactly when account and server have a slot, the request waits and a player is entered under the account number; the request is used up even without such a player |
| `AuctionAnswers.SaleIsNoted` | NewNameAuction/AuctionServer.cpp:279-325 | a request to sell one's own nickname leaves its hours and price waiting under the account and posts one check; while one waits, another leaves it as it is; a request for any other nickname changes nothing and costs the connection |
| `AuctionAnswers.RequestWaits` | NewNameAuction/AuctionServer.cpp:724-728 | in any job, a waiting request goes exactly when its player leaves or its nickname is found free with a slot left for the account (of 5) and the server (of 20000); it is never overwritten, and comes only with a request for just those hours and that price |
| `AuctionAnswers.RegistrationTouches` | NewNameAuction/AuctionServer.cpp:745-770 | a registration puts the nickname at the end of the account's own list, one slot more in use, into CellList unless one of that nickname is there, and posts one check; nothing else changes and nobody else's list |
| `AuctionAnswers.EveryAuctionWasAsked` | NewNameAuction/AuctionServer.cpp:307-310 | every auction of every reachable state goes back to one sale request of its owner, which waited until its registration: it starts at the price in that packet, its plain sale ends the hours in that packet less ten minutes after the registration, and only a higher bid changes its price |
| `AuctionJobs.BidIsDecided` | NewNameAuction/AuctionServer.cpp:424-455 | a bid enters an auction's log exactly when the auction is open under that nickname, the bid is all the bidder's points, tops the last price and is not the owner's; it costs those points and changes nobody else's |
| `AuctionAnswers.BidMarksAuction` | NewNameAuction/AuctionServer.cpp:452-455 | an accepted bid puts bidder and price on the auction and counts it, in 32 bits, and changes no other auction, list, request or report |
| `AuctionAnswers.BidNamesAuction` | NewNameAuction/AuctionServer.cpp:1145-1167 | and the bidder's own list, and no other, has the nickname at its end and one slot more in use, unless a slot in use named it |
| `AuctionAnswers.IntolerableChangesNothing` | NewNameAuction/AuctionServer.cpp:542-570 | the connection is dropped exactly for unknown packets, the sale of a nickname not one's own and a bid that is not one's points, and the state is then as before; a search never changes it |
| `AuctionAnswers.InfoIsStored` | NewNameAuction/AuctionServer.cpp:509-539 | player data reaches the player entered under that number and nobody else |
| `AuctionAnswers.WishIsNoted` | NewNameAuction/AuctionServer.cpp:472-507 | a wish for another nickname is noted in the account's own list, whose names stay, and posted with the present nickname |
| `AuctionAnswers.PlayersFollowJobs` | NewNameAuction/AuctionServer.cpp:586-619 | players come and go exactly with their join and leave jobs, with account 0, no points and the nickname NULL |
| `AuctionAnswers.EnteredMeansAdmitted` | NewNameAuction/AuctionServer.cpp:626-651 | in every run the session number and validity tests of a receive job never fail for a player that is entered |
| `AuctionJobs.FrequentUpdatesEndNothing` | NewNameAuction/AuctionServer.cpp:1054 | as long as updates come at most a minute apart no auction ever leaves plain sale, since each call notes the time |
| `AuctionLosses.OnlyNamesakesLose` | NewNameAuction/AuctionServer.cpp:746 | an auction is lost only to another auction registered under the same nickname |
| `AuctionLosses.RegisteringTwiceLosesTheSecond` | NewNameAuction/AuctionServer.cpp:745-746 | registering a nickname that is still on sale makes an auction that is in no list for ever: no bid, no closing, no report |
| `AuctionServer.AuctionServer.constructor` | NewNameAuction/AuctionServer.cpp:37-45 | an empty server satisfies the invariant |
| `AuctionServer.AuctionServer.OwnList_CheckAndInsert` | NewNameAuction/AuctionServer.cpp:1145-1167 | the searching loop inserts the name exactly if the slots in use do not hold it |
| `AuctionServer.AuctionServer.ForgetChanged` | NewNameAuction/AuctionServer.cpp:682-693 | the loop over a shrinking list stays in bounds and leaves what the specification says |
| `AuctionServer.AuctionServer.RegisterAuction` | NewNameAuction/AuctionServer.cpp:700-770 | registration over the real containers is the specified one |
| `AuctionServer.AuctionServer.ReqBid` | NewNameAuction/AuctionServer.cpp:424-484 | a bid over the real containers is the specified one; false exactly when the points differ from the price |
| `AuctionServer.AuctionServer.FindAuction` | NewNameAuction/AuctionServer.cpp:430-445 | the auction found is the one open for bids under that nickname: the imminent one, or the one on sale if none is imminent; none if there is none |
| `AuctionJobs.OpenIsFound` | NewNameAuction/AuctionServer.cpp:430-445 | the lookups in the two containers decide that |
| `AuctionServer.AuctionServer.AcceptBid` | NewNameAuction/AuctionServer.cpp:452-484 | points, auction, log and owner list after an accepted bid |
| `AuctionServer.AuctionServer.PacketProc` | NewNameAuction/AuctionServer.cpp:542-570 | each packet is handled as specified, what that comes to being in the rows of `AuctionAnswers`; the answer says whether the session stays connected, and a change request without an owner entry is reported as the fault it is |
| `AuctionServer.AuctionServer.MoveEntry` | NewNameAuction/AuctionServer.cpp:941-955 | one entry is made imminent, later by its draw, if it is overdue; every other auction and entry stays, and the server invariant is kept |
| `AuctionServer.AuctionServer.CloseEntry` | NewNameAuction/AuctionServer.cpp:1018-1050 | one imminent auction is closed, as sold exactly with a bidder, and reported if it is overdue; every other auction and entry stays, and the server invariant is kept |
| `AuctionServer.AuctionServer.MoveOverdue` | NewNameAuction/AuctionServer.cpp:939-955 | the erasing loop finds every entry as it was and does what the specified pass does |
| `AuctionServer.AuctionServer.CloseOverdue` | NewNameAuction/AuctionServer.cpp:1016-1050 | the erasing loop finds every entry as it was and does what the specified pass does |
| `AuctionServer.AuctionServer.Update` | NewNameAuction/AuctionServer.cpp:931-1055 | both gated passes and the noted time, over the real containers; the invariant is kept |
| `AuctionServer.AuctionServer.Process` | NewNameAuction/AuctionServer.cpp:586-790 | one job of the logic thread over the real containers is one step of the specified server and keeps the invariant, or is exactly one of the jobs that are out of bounds |

## Left out

- Framing.Session.TakeFrame: does not model the bytes that the ring buffer copies past the end of the packet's buffer when a frame is longer than 2000 bytes; such a frame is refused, as the code refuses it.
- SessionSlots.CountIsExact: IOcount, the 48-bit serial in session ids and nodeCount are unbounded integers; the model has no wrap-around of them.
- PacketLifetime.CountIsExact: promises nothing for interleavings in which a session is found between the count read and the flag swap of its release; `StaleRelease.FreedWhileHeld` is one in which it fails, and `PacketLifetime.ActionKeeps` says that only such a swap breaks the invariant.
- PacketLifetime.NeverFreedWhileHeld: promises nothing for interleavings in which a session is found between the count read and the flag swap of its release; see `PacketLifetime.CountIsExact`.
- PacketLifetime.FreedExactlyOnce: promises nothing for interleavings in which a session is found between the count read and the flag swap of its release; see `PacketLifetime.CountIsExact`.
- PacketLifetime.OneAtATime: promises nothing for interleavings in which a session is found between the count read and the flag swap of its release; see `PacketLifetime.CountIsExact`.
- PacketLifetime: a release that backs out of a reincarnated slot leaves no trace in this machine; `SessionSlots` follows it step by step.
- AuctionRuns.NeverClosesEarly: says nothing of how soon after its end time an auction closes; that depends on when Update is called.
- What the program does after an access that is out of bounds (a frame longer than the buffer handed to Decode, a nickname change without an owner entry) is undefined; the methods report it and change nothing.
- LockFreeQueue is taken as a FIFO queue whose Enqueue always succeeds (it has no failing exit, LockFreeQueue.h:44-86); the memory pools never hand out an object in use; the ring buffer is a queue of 80000 bytes.
- Auction objects are records in a pool, and the containers hold indices into it: updates through one container are seen through the others, but the objects are not heap objects of their own. The bid log, the draws and the closing time of each are bookkeeping.
- That a queued packet is eventually sent: the empty-queue exit of sendPost can drop a concurrent request.
- CellList_TimeOrder24, CellList_TimeOrder48 and CellList_PriceOrder: listings for clients that no decision depends on.
- SendInitPackets, nickname search, and the wrappers that build answers to clients: they change no auction.
- The database thread, its queries and their answers; logging, profiling, monitoring, start and stop of threads, sockets and configuration.
- Wide strings longer than a nickname, and packets shorter than the fields a handler reads: the handlers then read uninitialised memory.
