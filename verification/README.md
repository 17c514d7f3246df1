# Verified model of the RTL8188FU driver's core

A Dafny 4.11 model of four parts of a Linux Wi-Fi driver, each in the form of its source: buffers, tables and
lists that are changed in place, with the functions they are proved against beside them.

| files | source | what is modelled |
|---|---|---|
| CmdProtocol, CmdRuns, CmdOrder, CmdOutcome, CmdExecution, CmdLifetime, CmdOrphans, CmdIntrusion, CmdLeaks, CmdWakeup, CmdProgress, CmdShutdown, CmdMemory, CmdThread | core/rtw_cmd.c | the command queue: one thread, any number of submitters that may wait with a completion on their stack, any number of stoppers, and the spawner |
| Nat25Spec, Nat25Rows, Nat25Table | core/rtw_br_ext.c | the NAT2.5 hash table, its keys and its ageing |
| Skb, PppoeTags, Pppoe, Dhcp, BridgeSpec, TransmitSpec, Bridge, Clients, Sessions | core/rtw_br_ext.c, core/rtw_xmit.c | clients' frames on their way out and the answers on their way in: keys learned and looked up, PPPoE relay tags, 802.1Q tags and the DHCP broadcast flag |
| Memory, Elements, Ieee80211, ParseElems, VendorAttributes, BssElements | core/rtw_ieee80211.c | information elements in one buffer, and attributes nested in them |
| Beacon, Tim, ApStations, KeepAlive, AccessPoint | core/rtw_ap.c | the beacon's elements, station counters, protection bits and keep-alive |

`dafny verify dfyconfig.toml` checks everything.

## How it is built

- The command thread is a state machine (`CmdProtocol`) whose actions are the steps that no other party sees half
  done; filter, insert and semaphore-up of an enqueue are one.  Runs are arbitrary sequences of actions, so every
  interleaving is covered.  What timers, the adapter and handlers do is part of the action, and so are signals: they
  end the waits of the thread, of stoppers and of the spawner for a semaphore that is down, and those of the thread and
  of owners for a sctx mutex that is taken.  No caller looks at the mutex's answer, so such a party goes on without it,
  and its unlock frees the mutex whoever holds it.
- `CmdOrder`, `CmdOutcome` and `CmdExecution` hold in every run; `CmdLifetime` and `CmdOrphans` hold as long as no party
  has gone on without the mutex, and `CmdIntrusion` shows that this is what they need.
- `CmdMemory` and `CmdThread` are the same in memory: commands linked in a list, completions in their submitters'
  frames, pointers between them, and the thread as the source's loops.  A schedule says what the others do before
  each of its steps.  Where the thread is, what has been freed and what has been done so far are ghost.  The state
  machine's state is computed from the objects, so its theorems hold of them.
- `Nat25Table` holds nodes with `next` and `pprev`, the latter as the name of a slot.  Its view is a map from
  addresses to MAC, time and use count, and every method is proved to act on that map as `Nat25Spec` says.
- Frames live in the middle of one allocation (`Skb`).  Block moves, pulls and pushes are those of the source.
- `BridgeSpec` and `TransmitSpec` say what happens to an answer and to a client's frame, `Bridge` does it in place, and
  `Clients` and `Sessions` have the theorems about both together, in bytes.  The host's byte order is a parameter where
  the source forgets to convert; what lies in memory behind a buffer that it reads past is one as well.
- Element lists are sequences (`Elements`); `At(buffer, offset, Encode(list))` ties them to bytes.  The beacon code
  works on the same lists.
- `AccessPoint` holds stations as objects in a list; `KeepAlive` and `ApStations` say what a tick and a run mean
  for one station and for the beacon.

## Where the source falls short

Each of these has a lemma with the exact condition or an input that shows it.

- A command longer than the queue takes is freed, but rtw_enqueue_cmd answers success; a submitter that waits for it
  comes to write to freed memory (core/rtw_cmd.c:461-475).  The source's own waiters all send small commands of fixed
  size, so none of them meets this.
- The drain frees a command without signalling, so a submitter that still waits for it does meet it
  (core/rtw_cmd.c:737-755).
- _enter_critical_mutex is interruptible and nobody looks at its answer (include/osdep_service_linux.h:252-262).  A
  thread or an owner that a signal reaches while the other one is inside goes in as well; the thread may then signal
  a completion whose owner is back, and the owner may write to a command that has been freed.
- A disconnect command that fails is freed by nobody (core/rtw_cmd.c:4706-4715).
- With LPS_LCLK a command that is put back raises no semaphore (core/rtw_cmd.c:656-661).
- A signal ends the wait of rtw_stop_cmd_thread, which ignores that its wait failed and returns with the thread alive
  and the queue open (os_dep/osdep_service.c:1071-1079, core/rtw_cmd.c:540).
- A spawner whose wait is interrupted leaves a semaphore count that lets the first stop return early.
- The TIM of a bitmap with only ids 8 to 15 shows ids 0 to 7 (core/rtw_ap.c:208-209).
- A P2P or WFD attribute header with a length of 65533 makes the search for another id go on for ever
  (core/rtw_ieee80211.c:1980-2005).
- A P2P or WFD header at an element's end whose length is 65534 or 65535 has size 1 or 2, and deletion cuts that out
  of it (core/rtw_ieee80211.c:1980-2005).
- A frame whose address the bridge does not know clears scdb_entry but not scdb_ip and scdb_mac, and frames to that
  address go on to the old MAC when its entry is gone (core/rtw_xmit.c:3587).
- __nat25_add_pppoe_tag takes the new tag's length without ntohs (core/rtw_br_ext.c:115).  On a little-endian host,
  such as the one that the Makefile configures, a PADI or PADR is refused unless it has some 2000 bytes of tailroom, and
  otherwise as many bytes are copied from a buffer of 40.
- A frame that the database refuses goes out all the same, with the client's address and without its 802.1Q tag
  (core/rtw_xmit.c:3664-3666).
- A second IPv4 address of the remembered client is not learned from its IP frames (core/rtw_xmit.c:3555-3563), and a
  client that takes over an address leaves the entry with the old MAC (core/rtw_xmit.c:3587-3592).
- A PPPoE relay tag without data is lost on its way back, and an insert that fails for lack of room has already
  removed the old relay tag (core/rtw_br_ext.c:1240-1257).
- A station that is removed loses its bit in the bitmap but not in the beacon's TIM, which is not rewritten then
  (core/rtw_sta_mgt.c:765).
- The DHCP checksum is updated as if the old flags were zero (core/rtw_br_ext.c:1665-1666); it may become the zero
  that means none, and a datagram that had none gets one.
- An entry of the bridge that is older than the ageing time plus half the clock's range counts as fresh.

## Model

| member | source | states |
|---|---|---|
| CmdOrder.EveryCommandLeavesOnceInOrder | core/rtw_cmd.c:598-756 | in every reachable state the accepted commands, in order of acceptance, are the finished, then the dropped, then the one in hand, then the queued ones, also when a command is put back at the head; none is there twice; a command has been freed if and only if it is neither in hand nor queued nor handed to a callback that keeps it because it failed; nothing is dropped before the drain |
| CmdLeaks.LeakedForGood | core/rtw_cmd.c:4699-4728 | a disconnect command that has failed and been left by its callback is never freed, in any continuation of any run |
| CmdLeaks.LeakRun | core/rtw_cmd.c:640-642 | a run from the start that comes to it: the command is accepted while the hardware is up and refused when that has gone down meanwhile |
| CmdOrder.GiveAway | core/rtw_cmd.c:702-725 | giving away the first live command frees that command and no other one that is live |
| CmdLifetime.OnlyOrphansHarm | core/rtw_cmd.c:681-721 | in every interleaving, as long as no party has gone on without the sctx mutex: the thread never touches a freed command or a completion whose owner has returned, and an owner writes to a freed command exactly if it comes to clear its pointer and the command was freed with that in place |
| CmdIntrusion.MutexSafetyExactly | include/osdep_service_linux.h:252-262 | over all runs before the drain and of commands that fit: that the thread never touches what is gone holds if and only if neither the thread's nor an owner's contended wait for the mutex is interrupted; that owners never do holds under the same condition |
| CmdIntrusion.IntrusionRuns | core/rtw_cmd.c:683-693 | runs from the start that fail, for either party's wait: the thread signals a completion whose owner is back, and an owner writes to a command that the thread has freed |
| CmdOrphans.FaultsExactly | core/rtw_cmd.c:461-475 | as long as no party has gone on without the mutex, an owner that has come to clear its command's pointer has written to freed memory if and only if the command was longer than the queue takes when it was submitted, or the drain dropped it while this owner still waited or was on its way to clear the pointer |
| CmdOrphans.SafeBeforeTheDrain | core/rtw_cmd.c:1360-1373 | as long as no party has gone on without the mutex, before the drain begins an owner has written to freed memory if and only if its command was too long and it has come to clear the pointer; so if every command fits, nobody touches memory that is gone |
| CmdOrphans.OrphanIsHarmed | core/rtw_cmd.c:1367-1373 | once a waited-for command has been freed with its pointer in place and the mutex is free, four steps of its owner's lead it to write to the freed command |
| CmdOrphans.TooLongRun | core/rtw_cmd.c:461-475 | a run from the start that shows it for a command of 1025 bytes |
| CmdOrphans.DrainRun | core/rtw_cmd.c:737-755 | a run from the start that shows it for a command of usual size that the drain drops: a signal ends the thread's wait, and the command is let in before the thread says that it is away |
| CmdOutcome.ReportedOutcome | core/rtw_cmd.c:4010-4025 | in every run, also when a party goes on without the mutex: the handler runs at most once; rtw_mp_cmd reports success only if it returned success, and failure only if it did not or the wait timed out; the waiters that do not look always report success |
| CmdExecution.ExecutedExactly | core/rtw_cmd.c:620-679 | over all runs: the handler of a finished command has run, and then exactly once, if and only if at the thread's last look at it the command fitted and had a handler, the thread was running, and the hardware was up or the command passes without it; otherwise it carries the code for wrong parameters or for having been dropped |
| CmdExecution.ExemptIsExecuted | core/rtw_cmd.c:385-433 | so a channel-plan or no_io command that fits and has a handler has run it when it is finished, whatever the hardware did, if only the thread was running at that look |
| CmdExecution.LookLeads | core/rtw_cmd.c:620-662 | where such a look leads: a refused command goes on without its handler, with LPS_LCLK one that is not no_io goes back to the head of the queue while the chip sleeps, every other one goes to its handler |
| CmdExecution.AcceptedExactly | core/rtw_cmd.c:439-485 | an enqueue lets a command in exactly if the thread runs and the hardware is up or the command passes without, and queues it exactly if it has at most 1024 bytes as well |
| CmdExecution.SequenceCountsCalls | core/rtw_cmd.c:672-680 | over all runs the thread's sequence number is the number of handler calls, modulo 256 |
| CmdOutcome.RunHeld | core/rtw_cmd.c:683-693 | in every run whoever holds the sctx mutex is inside, the thread at its steps or the owner at its own, though another party may be inside as well |
| CmdLifetime.OneInside | core/rtw_cmd.c:681-693 | as long as no party has gone on without it the mutex excludes: never two owners inside, nor an owner and the thread |
| CmdLifetime.TreatedOk | core/rtw_xmit.c:4969-4985 | each of the thread's steps on the command in hand keeps pointer, status and outcome in agreement |
| CmdLifetime.ActedOk | core/rtw_xmit.c:4930-4952 | each step of a waiting owner that does not go on without the mutex keeps them in agreement, and blames the owner exactly when it writes to a freed command |
| CmdWakeup.NoLostWakeUp | core/rtw_cmd.c:570-614 | whenever the thread is at its semaphore with a non-empty queue the semaphore is up; with LPS_LCLK built in, unless the first command has been put back |
| CmdWakeup.PutBackSleeps | core/rtw_cmd.c:652-662 | putting a command back raises no semaphore: with the semaphore down the thread sleeps beside its work through every run in which nobody raises it, with it up the thread goes on |
| CmdWakeup.LostWakeUpRun | core/rtw_cmd.c:652-662 | a run from the start that comes to sleep so, with one command, and stays asleep whatever owners, the spawner and handlers do |
| CmdWakeup.SleepsOn | core/rtw_cmd.c:570-574 | from there it sleeps on through every run in which nobody raises the semaphore |
| CmdProgress.EveryCommandIsFinished | core/rtw_cmd.c:570-756 | from every reachable state with the thread up and no stop request, with submitters, owners, the spawner and power-ups between its steps and with or without LPS_LCLK: once a stated number of the thread's turns has counted, every command accepted by then is finished, in order |
| CmdProgress.TurnsThatCount | core/rtw_cmd.c:570-574 | which turns do: all but those that find an owner inside the sctx mutex and, with LPS_LCLK, those that find the semaphore down and the first command put back |
| CmdShutdown.StopIsHeard | core/rtw_cmd.c:532-542 | once a stopper has raised the semaphore its request is in the thread's view or the semaphore is up |
| CmdShutdown.ReturnedStop | core/rtw_cmd.c:532-542 | what a returned rtw_stop_cmd_thread leaves when the spawner had the thread's sign of life: after an uninterrupted wait the thread is done and the queue empty and closed for good; after one that a signal ended only the request stands, and the thread has it in view or will find its semaphore up |
| CmdShutdown.QuiescentExactly | os_dep/osdep_service.c:1071-1079 | over all runs: that a returned stop leaves the thread done holds if and only if neither its own wait nor the spawner's was interrupted; a signal interrupts only a wait that finds no count |
| CmdShutdown.AliveRun | os_dep/osdep_service.c:1071-1079 | runs that show the other cases: the stop has returned, the thread is at its semaphore, and the filter still lets a command in |
| CmdShutdown.StopReturnsExactly | os_dep/linux/os_intfs.c:1388-1393 | when exactly the wait of a stop ends: when the thread has raised the semaphore more often than spawner and stops have taken it, and then it takes it, or when a signal comes; so, without a signal, the first stop returns at the thread's end if the spawner had its turn, and as soon as the thread is up if it had not |
| CmdShutdown.StopEndsTheThread | core/rtw_cmd.c:733-756 | after a raised request, also when its stopper gave up waiting, 18 thread steps and 12 for each queued command reach the end, whatever handlers return and however often commands are put back |
| CmdShutdown.StoppedAdapterEndsTheThread | core/rtw_cmd.c:570-600 | from every reachable state in which the thread is woken, or about to look whether it may run or for its next command, once the adapter has stopped it begins no further command and is at its end after six steps and one for each queued command |
| CmdShutdown.OwnerLetsGo | core/rtw_cmd.c:1369-1372 | an owner inside the sctx mutex leaves it within three of its own steps |
| CmdShutdown.DoneForGood | core/rtw_cmd.c:733-755 | a thread that is done stays done, with an empty queue and nothing further accepted |
| CmdThread.CmdPriv.CmdFilter | core/rtw_cmd.c:385-433 | the filter admits a command exactly when the thread runs, and the hardware is up or the command is a no_io or an exempt one |
| CmdThread.CmdPriv.Enqueue | core/rtw_cmd.c:439-485 | on the command's own memory: refused ones are freed and the submitter told, too long ones are freed and the submitter told of success, all others are linked at the list's end; in each case the memory stands for the protocol's next state |
| CmdThread.CmdPriv.CmdThread | core/rtw_cmd.c:544-761 | the thread as the source's nested loop over pointers, against every schedule of the other parties and of signals, at its semaphore and at the mutex: what has happened in memory is the run of the protocol that the schedule tells, up to its end or the thread's |
| CmdThread.CmdPriv.PerformAll | core/rtw_cmd.c:1360-1373 | what submitters, stoppers and the spawner do in memory between two of the thread's steps is the run of those actions |
| CmdThread.CmdPriv.HandIsSafe | core/rtw_cmd.c:681-721 | under every schedule the command in hand has not been freed and is not listed, and its pointer leads to its own submitter's frame or nowhere; as long as no party has gone on without the mutex that submitter still waits, so every access of the thread is to memory that is there |
| CmdThread.CmdPriv.PointersAreLive | core/rtw_cmd.c:702-755 | under every schedule a command has been freed exactly if it is neither listed nor in hand nor kept by its callback; as long as no party has gone on without the mutex a command that is there points to a completion only while its submitter may yet clear the pointer |
| CmdThread.CmdPriv.FaultsInMemory | core/rtw_cmd.c:1367-1373 | at every point of a schedule, the drain included, and as long as no party has gone on without the mutex: the thread has never touched what is gone, and a submitter has written to its freed command exactly when it has come to clear the pointer and the command was too long or was dropped under its eyes |
| CmdThread.CmdPriv.ExecutedInMemory | core/rtw_cmd.c:620-679 | under every schedule, of the command objects: which finished commands have had their handler run, once, and which not at all |
| CmdThread.CmdPriv.Drain | core/rtw_cmd.c:737-755 | whatever the others do meanwhile, what was queued is freed in order, behind what had been dropped, and nothing else is finished or dropped |
| CmdThread.CmdPriv.Submit | core/rtw_cmd.c:1355-1366 | making a command, with a completion on the submitter's stack if it waits, and enqueueing it is the protocol's step |
| CmdMemory.CmdQueue.InsertTail | os_dep/osdep_service.c:971-985 | the list's links are right again with the command behind all others |
| CmdMemory.CmdQueue.InsertHead | os_dep/osdep_service.c:955-968 | and with it before all others |
| CmdMemory.CmdQueue.Dequeue | core/rtw_cmd.c:285-348 | the first command is unlinked and the links of the others are right again |
| CmdMemory.Frame.Advance | core/rtw_cmd.c:1367-1373 | a submitter's code after its enqueue does to its frame, its command's pointer and the mutex what the protocol's owner step does, also when a signal ends its wait for the mutex and it unlocks what another party holds |
| Nat25Spec.KeysAreDistinct | core/rtw_br_ext.c:170-234 | IPv4, IPv6 and PPPoE keys name one address each and never coincide |
| Nat25Spec.ExpiredExactly | core/rtw_br_ext.c:150-167 | with wrapping jiffies an entry counts as expired exactly from the ageing time on, until half the clock's range later |
| Nat25Spec.VeryOldEntryIsFresh | core/rtw_br_ext.c:160-167 | whenever it was made, past that it counts as fresh again |
| Nat25Spec.RemovedOnPassCount | core/rtw_br_ext.c:687-750 | over every run of lookups, inserts, passes and remembered sources: an expired entry of count c that is not refreshed or swept away is removed by exactly the c-th expiry pass, however often it is looked up |
| Nat25Spec.CountedOverRuns | core/rtw_br_ext.c:444-448 | over every run, cleanups among it, each entry has a use count of at least 1 and the remembered client's named entry is in the map |
| Nat25Spec.FreshEntryStays | core/rtw_br_ext.c:669-759 | an entry outlives every run in which it has not expired and is not swept away or given to another MAC, with its own, however often it is inserted again |
| Nat25Spec.EntryOverRuns | core/rtw_br_ext.c:432-759 | over every run an entry that stays and is not renewed keeps MAC and time, and its use count goes up by the lookups that found it fresh and down by the passes that found it expired |
| Nat25Spec.RenewedEntry | core/rtw_br_ext.c:509-546 | what renewing does: an insert gives MAC and time and keeps an old count, being remembered gives the time only |
| Nat25Spec.HonestStep | core/rtw_br_ext.c:1535-1544 | from a state in which the map has scdb_ip with scdb_mac, which operations exactly leave one in which it has not: another MAC inserted for the address, the entry dropped or swept away while it is no longer named, a source remembered whose entry holds another MAC |
| Nat25Spec.HonestExactly | core/rtw_xmit.c:3584-3603 | the short cut agrees with the map after every stretch of a run if and only if the run holds none of these |
| Nat25Spec.StaleShortCut | core/rtw_xmit.c:3587-3603 | a run that fails: a frame from another MAC with an unknown address clears scdb_entry only, the client's entry ages out, and its address and MAC stay remembered beside an empty map |
| Nat25Rows.ExpiredDb | core/rtw_br_ext.c:669-759 | a pass over sixteen bucket lists is the pass over the map |
| Nat25Rows.UpdatedDb | core/rtw_br_ext.c:516-524 | a changed row of the bucket of its hash changes the map at its address only |
| Nat25Rows.AddedDb | core/rtw_br_ext.c:530-543 | a row added at the head of the bucket of its hash adds its address only |
| Nat25Table.NetHash.Link | core/rtw_br_ext.c:399-413 | the node becomes the first of its bucket; every slot still points to the next node, and every pprev names the slot that points to its node |
| Nat25Table.NetHash.Unlink | core/rtw_br_ext.c:416-430 | exactly that node leaves its chain, from wherever it stood, and the links of all others are right again |
| Nat25Table.BypassedLinks | core/rtw_br_ext.c:416-430 | the links around a node that is passed over are those of the chain without it |
| Nat25Table.NetHash.Seek | core/rtw_br_ext.c:439-503 | the walk along one bucket finds the node of an address or shows that there is none |
| Nat25Table.NetHash.LookupAndReplace | core/rtw_br_ext.c:432-506 | refines the map's lookup: a live entry writes its MAC to the frame and counts the use; the answer is whether there is an entry at all |
| Nat25Table.NetHash.Insert | core/rtw_br_ext.c:509-546 | refines the map's insert: an entry keeps its count and gets MAC and time, a new one has count 1 |
| Nat25Table.NetHash.Expire | core/rtw_br_ext.c:669-759 | refines the map's expiry pass: the walk visits every node once although it unlinks as it goes, and the remembered client is forgotten exactly when its named entry is dropped |
| Nat25Table.NetHash.ExpireBucket | core/rtw_br_ext.c:679-755 | one bucket's walk leaves exactly the survivors of its rows, in order, and touches no other bucket |
| Nat25Table.NetHash.Cleanup | core/rtw_br_ext.c:638-666 | empties the map, frees every node, and forgets the client exactly if its entry was still named |
| Nat25Table.NetHash.ScdbFindEntry | core/rtw_br_ext.c:1679-1703 | finds the live node of an IPv4 address exactly when the map has it |
| Nat25Table.NetHash.RememberSource | core/rtw_xmit.c:3584-3603 | an IP frame's source does to the table and the remembered client what the map's operation does, and the answer is whether the database is still to be asked |
| Nat25Table.NetHash.ScdbEntryIsLive | core/rtw_br_ext.c:652-660 | in every valid state, however the client came to be remembered, its named entry is linked, not freed, and the map's entry for scdb_ip |
| Nat25Table.NetHash.ViewCounted | core/rtw_br_ext.c:747-750 | in every valid state each entry of the map has a use left |
| PppoeTags.DecodeEncodeTags | core/rtw_br_ext.c:92-107 | a tag list is read back from its bytes |
| PppoeTags.EncodeDecodeTags | core/rtw_br_ext.c:92-107 | bytes that split into tags are the writing of that list |
| PppoeTags.RelayRoundTrip | core/rtw_br_ext.c:1219-1340 | for the tags that a big-endian host sends: the relay tag that PADI or PADR got, wherever it comes back in the answer, names the client and returns with its old data, or goes if it had none; all other tags stay |
| PppoeTags.EchoRestores | core/rtw_br_ext.c:1296-1340 | of those tags, echoed as sent: they come back whole exactly if there was no relay tag or it was in front and had data |
| Clients.EchoRestoresExactly | core/rtw_br_ext.c:1219-1340 | of the frame that goes out, on either host, if it splits into tags that are echoed: the answer goes to the client, and the tags come back as it had sent them if and only if the host is big-endian and there was no relay tag or it was in front and had data |
| Pppoe.FindPppoeTag | core/rtw_br_ext.c:92-107 | finds the first tag of a kind |
| Pppoe.AddPppoeTag | core/rtw_br_ext.c:110-127 | in place: takes the tag's length as the host reads its network-order field; refuses for lack of that much room with the frame as it was, or puts so many bytes from the tag on in front of the other tags, reading past its 40-byte buffer exactly if they are more |
| Pppoe.RelayLenIs | core/rtw_br_ext.c:115 | what that length is for the relay tag: right on a big-endian host, 256 times too large and beyond the buffer on a little-endian one |
| Pppoe.PullAndMerge | core/rtw_br_ext.c:129-148 | cuts bytes out of the frame, or refuses when they are not all in it |
| Pppoe.InsertRelay | core/rtw_br_ext.c:1219-1261 | in place, on either host: the exact refusals, one of which has already removed the old relay tag, the exact frame otherwise, and that a little-endian host reads past the buffer whenever it does not refuse |
| Pppoe.RelayedExactly | core/rtw_br_ext.c:1240-1257 | what the insert leaves is the relay tag of the client's MAC with an older one's data in front of the other tags if and only if the host is big-endian |
| Pppoe.PlainPadi | core/rtw_br_ext.c:1246-1256 | the input that fails: a PADI without tags needs 12 bytes of tailroom on a big-endian host and 2052 on a little-endian one, which refuses it with 100 |
| Pppoe.LookupRelay | core/rtw_br_ext.c:1296-1340 | in place: the destination becomes the client of the first relay tag and our bytes are taken out, or the frame is refused as it is |
| Pppoe.ShortenedFrame | core/rtw_br_ext.c:1327-1336 | cutting our eight bytes out of a longer relay tag and writing both lengths gives the frame with the shorter tag |
| Clients.DiscoveryRoundTrip | core/rtw_br_ext.c:1219-1340 | on whole frames, from rtw_br_client_tx to the answer: with the room that the host asks for the relay tag of the client's MAC goes out in front, and the rest of the frame is right if and only if the host is big-endian; whatever PADO or PADS brings the tag back leaves the bridge for that client, with the other tags as they came and the relay tag as the client had sent it |
| Clients.OfferGoesOutBare | core/rtw_xmit.c:3655-3668 | without that room the PADI or PADR goes out all the same, with the client's own address and without any relay tag |
| TransmitSpec.SourceIsHidden | core/rtw_xmit.c:3655-3709 | a frame that goes out has the bridge's address as its source unless the database has refused it: then it has the client's, and has lost its 802.1Q tag |
| TransmitSpec.OnlyCopiesChange | core/rtw_xmit.c:3611-3641 | the insert changes no byte of a frame that NAT25_CHECK has not had copied |
| Clients.SendingCommutesExactly | core/rtw_xmit.c:3554-3699 | sending a frame behind an 802.1Q tag is sending it without and tagging the result, in data, state and answer, if and only if the database does not refuse it and it is no DHCP request that takes the short cut |
| Clients.LearnedExactly | core/rtw_xmit.c:3584-3668 | when exactly an IP frame leaves its address with its MAC in the database: if they were there, or if the short cut neither finds the address nor still names the sender's entry, the header is sound and the address is not zero |
| Clients.ArpIsLearned | core/rtw_br_ext.c:895-912 | an ARP frame always does, with the protocol address read after the sender's MAC has been replaced |
| Clients.AnswerFindsSender | core/rtw_xmit.c:3533-3712 | the promise: the answer to an IP frame that a client has just sent goes to that client's MAC; which states before the frame exactly make it so |
| Clients.SecondAddressIsMissed | core/rtw_xmit.c:3555-3563 | the frames that fail: a client that is remembered with one address sends from a second one, which is not learned, and the answer goes to the bridge |
| Clients.HeardClientIsReached | core/rtw_br_ext.c:1535-1552 | a client that has been heard is reached: it has sent an IP or ARP frame that the bridge has learned from, and whatever the table and the short cut have done since, as long as its entry has not aged and not been given to another MAC, an IP frame to its address goes to its MAC if and only if the short cut is off, remembers another address, or remembers this one with this MAC; so it does when the short cut agrees with the map |
| Sessions.SessionIsReached | core/rtw_br_ext.c:1282-1354 | a PPPoE session's way, from rtw_br_client_tx to the answer: a client has sent a frame of a session to an access concentrator, tagged or not; over every run that spares the entry a frame of that session from that access concentrator, to whatever address it came, leaves with the client's MAC as its destination and no other byte changed |
| Sessions.Ipv6IsReached | core/rtw_br_ext.c:1417-1486 | the same for an IPv6 source address that is not zero |
| Sessions.ArpIsReached | core/rtw_br_ext.c:875-933 | an ARP frame for a client that has been heard by IP or ARP goes to it, and names it as its target |
| Sessions.ArpIsSent | core/rtw_br_ext.c:895-912 | a client's ARP frame goes out with the bridge's address as source and as sender, and its own protocol address is in the database with its MAC |
| Sessions.ExpiredIsNotUsed | core/rtw_br_ext.c:446-503 | an entry that has expired, by its age in the wrapping clock, leaves an IP frame and the database as they are |
| Sessions.ExpiredSessionIsNotUsed | core/rtw_br_ext.c:446-503 | and so does an expired or unknown session its frames |
| Sessions.UnknownGoesUp | core/rtw_br_ext.c:850-868 | an IP frame to an unknown address goes to everybody if its last octet is 255, and to the bridge otherwise |
| Sessions.OnlyOneConnects | core/rtw_br_ext.c:1262-1275 | without relay tags: while no client is connecting or this one is, its PADI or PADR goes out and it is the one that is connecting, for five rounds; any other client's is dropped and changes nothing |
| Sessions.AnswerToConnecting | core/rtw_br_ext.c:1341-1348 | a PADO or PADS goes to the connecting client, and is refused if there is none |
| Sessions.SessionEndsConnecting | core/rtw_br_ext.c:1286-1289 | that client's first session frame ends it, and no other client's does |
| Sessions.OfferIsRefusedExactly | core/rtw_br_ext.c:1232-1257 | with relay tags: a PADI or PADR is refused as it is exactly if its first relay tag holds more than 28 bytes, and refused without that tag exactly if tailroom and old tag are less than the length the host reads |
| Sessions.ForeignAnswerIsRefused | core/rtw_br_ext.c:1296-1315 | an answer without a relay tag, or whose first one is shorter than ours or lacks the magic code, is refused as it is |
| Sessions.RelayTagBytes | core/rtw_br_ext.c:1245-1253 | the relay tag byte by byte |
| Sessions.BroadcastGoesOut | core/rtw_xmit.c:3554-3712 | a client's broadcast IP frame goes out with the bridge's source address, and if it is a DHCP request, in bytes, with the flag set and another checksum; every other byte stays |
| Sessions.BridgeIsNoticed | core/rtw_xmit.c:3578-3582 | the bridge's own IP address is the source of the last IP frame sent from its MAC |
| Sessions.OffLeavesAlone | core/rtw_br_ext.c:1550-1556 | with the database off exactly the IP and ARP frames for that address are looked up, and all others stay as they are |
| Sessions.MulticastIsLeftAlone | core/rtw_br_ext.c:1509-1514 | multicast frames stay as they are |
| Sessions.UntaggedIsHandled | core/rtw_br_ext.c:1514-1574 | a unicast frame without a tag is handled as it is, with the same answer |
| Sessions.OtherTypes | core/rtw_br_ext.c:1374-1412 | three types by number pass as they are in both directions; all that the database does not know, and ARP for other protocols, are refused as they are |
| BridgeSpec.StaleShortCutMisleads | core/rtw_br_ext.c:1535-1544 | and after the failing run the frame goes to the MAC that has aged out, where the empty table would send it to the bridge |
| BridgeSpec.VlanCommutes | core/rtw_br_ext.c:1514-1571 | handling a unicast frame behind an 802.1Q tag is handling it without and tagging the result with the same control bytes, with the same state and answer, also on failure |
| BridgeSpec.UntagRoundTrip | core/rtw_br_ext.c:1559-1565 | a tag taken off and put back gives the frame |
| BridgeSpec.DoubleTagRefused | core/rtw_br_ext.c:1519-1525 | without the premise: a doubly tagged frame is refused as it is |
| Bridge.BrExt.HandleFrame | core/rtw_br_ext.c:1493-1574 | in place: takes the tag off, handles the frame and puts the tag back; only the answer -1 is passed on |
| Bridge.BrExt.ShiftUp | core/rtw_br_ext.c:1519-1525 | six overlapping halfword moves carry both addresses over the tag |
| Bridge.BrExt.ShiftDown | core/rtw_br_ext.c:1559-1565 | and six more carry them back |
| Bridge.BrExt.DbLookup | core/rtw_br_ext.c:790-1490 | NAT25_LOOKUP: dispatches by the frame's type |
| Bridge.BrExt.LookupIp | core/rtw_br_ext.c:806-873 | IPv4: the entry's MAC, or for an unknown destination the broadcast address or the bridge's own; a header longer than the frame is refused |
| Bridge.BrExt.LookupArp | core/rtw_br_ext.c:875-933 | ARP: the target's hardware address in the frame becomes its new destination |
| Bridge.BrExt.LookupPppoe | core/rtw_br_ext.c:1296-1364 | PPPoE in place: answers by relay tag or to the one connecting client; session frames by their source and session, the key under which the client's frames were entered |
| Bridge.BrExt.LookupIpv6 | core/rtw_br_ext.c:1417-1486 | IPv6: the entry's MAC, or the frame as it is |
| Bridge.BrExt.DbInsert | core/rtw_br_ext.c:790-1490 | NAT25_INSERT: dispatches by the frame's type |
| Bridge.BrExt.InsertIp | core/rtw_br_ext.c:806-834 | IPv4: the source address is entered unless it is zero; a header longer than the frame is refused |
| Bridge.BrExt.InsertArp | core/rtw_br_ext.c:875-912 | ARP: the sender's hardware address becomes the bridge's, then its protocol address is entered with the frame's source |
| Bridge.BrExt.InsertPppoe | core/rtw_br_ext.c:1218-1294 | PPPoE: PADI and PADR get their relay tag, or without relay tags only one client may connect; a session frame is entered and ends the connecting |
| Bridge.BrExt.InsertIpv6 | core/rtw_br_ext.c:1435-1470 | IPv6: the source address is entered unless it is zero |
| Bridge.BrExt.ClientTx | core/rtw_xmit.c:3533-3712 | rtw_br_client_tx in place: the short cut, the 802.1Q tag taken off and put back, the client remembered or entered, the bridge's address and the DHCP flag, each exactly when the source does them |
| Dhcp.ChecksumStaysValid | core/rtw_br_ext.c:1655-1669 | the rewritten datagram sums to all ones exactly if the old one did without its flags field; so a valid one stays valid if and only if that field was zero |
| Dhcp.FoldKeeps | core/rtw_br_ext.c:1667-1668 | folding ends below 65536, keeps the value modulo 65535, and makes zero of zero only |
| Dhcp.OrderDoesNotMatter | core/rtw_br_ext.c:1665-1666 | the host's byte order does not matter to the check |
| Dhcp.HostDoesNotMatter | core/rtw_br_ext.c:1660-1669 | the bytes written are the same on a host of either order |
| Dhcp.NewCheckIsZero | core/rtw_br_ext.c:1669 | when exactly the new checksum is the zero that means there is none |
| Dhcp.NoneBecomesSome | core/rtw_br_ext.c:1663-1669 | a datagram without a checksum gets one |
| Dhcp.FoldSum | core/rtw_br_ext.c:1667-1668 | the source's loop computes the fold |
| Dhcp.FlagBcast | core/rtw_br_ext.c:1632-1674 | in place: exactly a DHCP request without the flag is rewritten |
| Dhcp.RequestIsFlagged | core/rtw_br_ext.c:1632-1674 | which frames those are and what changes, in bytes: IPv4, UDP from port 68 to port 67, the cookie, and the flag not set; it is set, two bytes of checksum are written, and no other byte changes |
| Elements.DecodeEncode | core/rtw_ieee80211.c:193-212 | an element list is read back from its bytes |
| Elements.EncodeDecode | core/rtw_ieee80211.c:1221-1359 | bytes that split into elements are the writing of that list |
| Ieee80211.SetIe | core/rtw_ieee80211.c:193-212 | writes one element and changes nothing else in the buffer |
| Ieee80211.SetIeAppends | core/rtw_ieee80211.c:193-212 | behind a written list it writes the list with one element more |
| Ieee80211.GetIe | core/rtw_ieee80211.c:270-301 | finds what the walk over the buffer finds, with its length |
| Ieee80211.FirstIeFindsElement | core/rtw_ieee80211.c:270-301 | on an element list the walk finds the first element with the id (and prefix), or nothing |
| Ieee80211.GetIeEx | core/rtw_ieee80211.c:315-352 | the same with a vendor prefix |
| Ieee80211.IesRemoveIe | core/rtw_ieee80211.c:365-397 | behind the offset exactly the elements that do not match remain, in order; the bytes before the offset and behind the old end stay; success is reported exactly when something was removed |
| Elements.WithoutAt | core/rtw_ieee80211.c:365-397 | an element stays exactly unless it has the id and begins with the prefix |
| ParseElems.Parse | core/rtw_ieee80211.c:1221-1359 | fails exactly when the bytes do not split into elements; by the elements' own bytes (21 ids by number; for vendor elements OUI, type and subtype): a field is set if and only if an element meets its condition, and names the last one, also in front of bytes that do not split; unknown elements are reported exactly when some element meets none |
| ParseElems.FieldOfMeets | core/rtw_ieee80211.c:1112-1220 | the source's nested tests give an element the field whose byte condition it meets |
| ParseElems.WrittenListParses | core/rtw_ieee80211.c:1221-1359 | a list written element by element parses |
| VendorAttributes.GetAttr | core/rtw_ieee80211.c:1963-2010 | whenever the search ends it gives its outcome, place and size of the attribute or none; also past headers whose length wraps to 1 or 2 |
| VendorAttributes.FirstIsFound | core/rtw_ieee80211.c:1975-2005 | the outcome is the first attribute with the id, or what the search over the bytes behind the last attribute comes to |
| VendorAttributes.DelAttr | core/rtw_ieee80211.c:2103-2144 | in place: whenever its searches end, the element without what they find under a correct length byte, and zeros where it ended |
| VendorAttributes.DeletedIsFilter | core/rtw_ieee80211.c:2110-2140 | deletion ends and leaves the attributes with another id, in order, and the bytes behind them, if and only if the search over these bytes alone ends without a match or with one of size 0 |
| VendorAttributes.ShortHeaderIsCut | core/rtw_ieee80211.c:1980-2005 | the payload that fails: a single P2P header with the id and length 65534 loses its first byte |
| VendorAttributes.StripIsNestedFilter | core/rtw_ieee80211.c:2103-2144 | deletion is a nested filter: list positions, ids, OUIs and other elements stay; an element of the kind keeps exactly its attributes of another id and the bytes behind them, under the condition above on its own bytes |
| VendorAttributes.AttrsOfEncoded | core/rtw_ieee80211.c:1975-2005 | attributes and the bytes behind them are read back from their writing |
| VendorAttributes.KindsAre | core/rtw_ieee80211.c:1975-1990 | P2P and WFD elements by OUI and type, and the byte order of their attributes' lengths |
| VendorAttributes.SearchEndsExactly | core/rtw_ieee80211.c:1980-2005 | the search over any payload ends after some number of rounds if and only if it does not come to a header of another id whose 16-bit length is 65533; it then needs at most a round for each byte and one more |
| VendorAttributes.WrappedLengthStalls | core/rtw_ieee80211.c:1980-2005 | the payload that shows it: three bytes, a P2P or WFD header of another id with that length, at which the search stands after every number of rounds |
| BssElements.GetVendorIe | core/rtw_ieee80211.c:1907-1947 | finds what the walk for vendor elements finds |
| BssElements.FirstVendorIeFindsElement | core/rtw_ieee80211.c:1907-1947 | on an element list it finds the first element of the kind |
| BssElements.BssEx.DelAttrs | core/rtw_ieee80211.c:2163-2221 | the BSS description carries the filtered list behind the same fixed part; its length drops by what was removed, the freed tail is zero, and nothing behind it changes (the WFD twin is the same code with the other kind) |
| Beacon.ScanBcnIe | core/rtw_ap.c:240-276 | the scan stops at the first id that is not smaller, or at the end |
| Beacon.AddBcnIe | core/rtw_ap.c:233-304 | in place: inserts before the first larger id or replaces an equal one reached first; the fixed part stays |
| Beacon.RemoveBcnIe | core/rtw_ap.c:306-346 | in place: the first element with the id goes, unless it is empty |
| Beacon.AddedExactly | core/rtw_ap.c:233-304 | what adding leaves, by the ids around the place: a non-empty element with the id is replaced, otherwise the new one stands behind the smaller ids if the last of them has data |
| Beacon.RemovedExactly | core/rtw_ap.c:306-346 | what removing leaves: the list without the first element with the id, if that has data |
| Beacon.AddKeepsSorted | core/rtw_ap.c:233-304 | a sorted list stays sorted |
| Beacon.AddRemoveKeepOthers | core/rtw_ap.c:233-346 | both keep every element with another id, in order |
| Beacon.AddThenRemove | core/rtw_ap.c:233-346 | when exactly a removal after an addition gives the first list back |
| Beacon.AddThenRemoveFreshId | core/rtw_ap.c:306-346 | it does for an id not present and data that is not empty |
| Tim.FindTimPlace | core/rtw_ap.c:138-178 | where the TIM is written and where the bytes behind it begin |
| Tim.UpdateBcnTim | core/rtw_ap.c:117-231 | in place: the beacon with the bitmap's TIM over the old one, or behind SSID, rates and DS |
| Tim.TimGoesThere | core/rtw_ap.c:138-178 | by positions: a TIM with data is replaced where it stands, otherwise the new one stands behind as many elements as make up SSID, rates and three more bytes |
| Tim.TimBytes | core/rtw_ap.c:186-204 | the element's id, DTIM count 0 and period 1, and the group bit |
| Tim.TimReadsBack | core/rtw_ap.c:192-219 | a station reads exactly association ids 1 to 15 and the group bit if and only if no id above 7 is set or some id below 8 is |
| Tim.OnlyHighIdsAreMisplaced | core/rtw_ap.c:206-211 | the branch that fails: with only id 8 set its octet is written where ids 0 to 7 belong |
| Tim.TimUpdateKeepsOthers | core/rtw_ap.c:117-231 | one TIM afterwards if there was at most one; all other elements in order |
| Tim.TimUpdateIdempotent | core/rtw_ap.c:117-231 | a second update changes nothing, exactly unless the first went behind an empty TIM |
| Tim.UsualBeaconHasPlace | core/rtw_ap.c:151-178 | with SSID, rates and DS first, and no TIM, it goes behind them |
| Tim.UpdateBcnErpInfo | core/rtw_ap.c:2687-2720 | in place: the protection and preamble bits of the ERP byte, and no other bit |
| Tim.ErpBits | core/rtw_ap.c:2707-2715 | both protection bits together, the preamble bit, and the other five as they were |
| Tim.TimUpdateKeepsErp | core/rtw_ap.c:117-231 | a TIM update leaves the ERP byte alone |
| ApStations.ProtectionOverRuns | core/rtw_ap.c:2687-2720 | over every run of joins, leaves and TIM updates the protection bits are set exactly while non-ERP stations are counted, though the writer tests for one |
| ApStations.ErpStepShows | core/rtw_ap.c:3303-3334 | each step keeps that |
| KeepAlive.AnsweringStationStays | core/rtw_ap.c:643-687 | a station that acknowledges every probe is never removed |
| KeepAlive.SilentTickCountsDown | core/rtw_ap.c:477-485 | a silent tick lowers expire_to + 3 - keep_alive_trycnt by one, awake or sleeping |
| KeepAlive.SilentStationExpires | core/rtw_ap.c:512-687 | a silent station is removed on exactly that many ticks |
| KeepAlive.SilentStationDeadline | core/rtw_ap.c:512-687 | so on tick e + 3 for a timer value e of at least 1; for 0 the configured limit plus 4 |
| KeepAlive.PassiveStationDeadline | core/rtw_ap.c:512-628 | without active checking a silent station is removed on exactly the tick that its timer says, a sleeping one that has not been told a whole period later |
| KeepAlive.HeardStationStartsAgain | core/rtw_ap.c:477-482 | hearing from it starts the count again |
| KeepAlive.AnsweredProbeStartsAgain | core/rtw_ap.c:655-665 | and so does an acknowledged probe |
| KeepAlive.UnlinkedStationStays | core/rtw_ap.c:643-687 | a station that is not linked is not probed and never removed |
| KeepAlive.SpecModeKeepsAll | core/rtw_ap.c:516-520 | with wifi_spec 1 nothing expires |
| AccessPoint.Ap.HtOperationUpdate | core/rtw_ap.c:3135-3204 | rewrites the mode word from counters, olbc_ht and width; 0 is returned exactly if it was already so; the other bits stay |
| AccessPoint.Ap.ModeFromStations | core/rtw_ap.c:3176-3196 | with HT on and the word agreeing with the counters, from the stations: the mode is 3 if and only if some listed station is marked non-HT, 2 if and only if none is, the BSS is 40 MHz wide and some is marked 20 MHz, 1 if and only if neither holds and olbc_ht does, 0 otherwise; the greenfield and non-HT bits say whether some listed station is marked so |
| AccessPoint.Ap.BssCapUpdateOnStaJoin | core/rtw_ap.c:3240-3436 | each of the six counters equals the number of stations with its mark; the mode word says of the stations what the row above says, and the beacon's protection bits agree |
| AccessPoint.Ap.BssCapUpdateOnStaLeave | core/rtw_ap.c:3447-3520 | the same for a leave; no counter underflows |
| AccessPoint.Ap.StaJoin | core/rtw_mlme_ext.c:2812-2819 | a station is listed unless it is, with its timer started; its marks are what it announced, and counters, mode word and beacon agree with the stations then listed |
| AccessPoint.Ap.StaLeave | core/rtw_ap.c:3524-3590 | a station leaves the list, the counters and the mode word; its bit leaves the bitmap, but the beacon's TIM stays as it is |
| AccessPoint.Ap.AgeStation | core/rtw_ap.c:460-628 | the walk's work on one station: what KeepAlive.Walk says; it is woken if and only if it stays and its queue is longer than its share while few buffers are free; a sleeping station whose timer ends and that has not been told sets its bit in bitmap and beacon, one that goes clears it in the bitmap only |
| AccessPoint.Ap.ProbeStation | core/rtw_ap.c:643-687 | one probe: what KeepAlive.Probe says |
| AccessPoint.Ap.ExpireTimeoutChk | core/rtw_ap.c:384-687 | one call: each station ends as KeepAlive.Tick says, those that expire leave the list, the others keep their order, and counters and mode word stay right; woken are exactly the overfull stations, in order; a bit of the bitmap is set afterwards exactly if it was or a sleeping station with that id was told, and no station with it has gone; if any was told and the BSS is up the beacon's TIM is that of this bitmap but for the stations that went after the last telling, and otherwise it is the old one |
| AccessPoint.ToldExactly | core/rtw_ap.c:581-593 | the told stations of that contract are exactly those that the walk newly marks with WIFI_STA_ALIVE_CHK_STATE |
| AccessPoint.WokenExactly | core/rtw_ap.c:613-622 | the woken ones exactly those with time left after the countdown and more frames queued than their share of 256 among the stations still listed, while less than half a share is free |
| AccessPoint.TimIsCurrentExactly | core/rtw_ap.c:585-597 | the beacon's TIM is then the final bitmap's if and only if no station that went later had its bit set or was told |
| AccessPoint.GoneStationStaysTold | core/rtw_sta_mgt.c:741-766 | the input that fails: a sleeping station whose probes are used up is told and removed in one call; its bit is gone from the bitmap and stays in the beacon |
| AccessPoint.TallyUpdate | core/rtw_ap.c:3240-3436 | remarking one station changes the number of marked stations by the difference of its own mark |
| AccessPoint.ErpAfterIsStep | core/rtw_ap.c:3303-3334 | what join and leave do to the beacon is the step of the run above |

## Left out

- CmdProtocol: the C2H and power-saving commands that pass the filter are one flag, and handler bodies, extra parameter buffers and response buffers are not modelled.
- CmdProtocol: a second start of the thread after it has ended, and commands of a second adapter.
- CmdThread.CmdPriv.Enqueue: filter, insert and semaphore-up are one step; races inside it are not part of this model.
- CmdMemory.CmdObj: what the bytes of a freed command hold is not modelled; freeing is a ghost mark, and the waiters' three routines are one.
- CmdMemory.CmdQueue: null stands for the list's head, and a deleted command's links are null.
- CmdShutdown.StopEndsTheThread: counts the thread's own steps while no owner holds the mutex; fairness of the scheduler is not part of this model.
- CmdProtocol: the queue's spin lock excludes, and so does the mutex where nobody is interrupted; kernels before 2.6.37, where it is a semaphore and an unlock by another party lets two in, are not modelled.
- CmdProtocol: after a fault the run goes on with the model's own values for what was touched; what the machine would hold there is not known.
- Allocation failure everywhere, logging and hardware calls.
- Nat25Table.NetHash.Insert: the new node always gets its memory.
- Nat25Spec: the use count is unbounded; the source's is a 32-bit atomic.
- Bridge.BrExt.ClientTx: leaves out neighbour discovery messages over IPv6, whose link-layer address and checksum the source rewrites as well; that a copy is made, which is for other holders of the frame; and the test for a bridge port, which its caller has made.
- Bridge.BrExt.DbLookup: IPX and AppleTalk, which the source compiles for kernels up to 5.14 only.
- Bridge.BrExt.HandleFrame: expects a frame long enough for the fields that the branch of its type reads, as the source does without a test.
- Pppoe.FindPppoeTag: on well-formed tag lists; the source reads past the end of others.
- Pppoe.InsertRelay: what pads the frame keeps its size but not its bytes, as in the source; what a read past the buffer does besides yielding bytes is not modelled.
- Tim.UpdateBcnTim: on a little-endian host.
- Dhcp.ChecksumStaysValid: a pseudo header of even length, any number of covered bytes from the end of the cookie on.
- BssElements.BssEx.DelAttrs: on well-formed element lists in which the source's own search ends.
- VendorAttributes.DeletedIsFilter: for payloads shorter than 65533 bytes; an element holds at most 251.
- Ieee80211.IesRemoveIe: on well-formed element lists whose vendor elements are at least as long as the prefix.
- Beacon.AddBcnIe: the result fits the buffer; the source does not test it.
- AccessPoint.Ap.BssCapUpdateOnStaJoin: the HT operation element's bytes, associated_clients_update and the reset of the mode word at line 1468 are not modelled; an HT station's greenfield and 20 MHz marks are set and never cleared by a second join, as in the source.
- AccessPoint.Ap.ExpireTimeoutChk: with active keep-alive checking compiled in; the authentication list, frame sending and channel switching are not modelled.
- AccessPoint.Ap.ExpireTimeoutChk: what wakeup_sta_to_xmit does with a woken station's frames and its TIM bit is not modelled; the stations of the list have distinct association ids, as the source assigns them, and bits from 16 on do not fit its bitmap.
- AccessPoint: num_sta_40mhz_intolerant, which is never lowered, and the preamble bit, which is not refreshed when only the preamble counter changes.
- The P2P and WFD routines, which differ in one OUI byte and the byte order of a length, are modelled once with a parameter.
- rtw_bss_ex_del_p2p_ie, the WPS, WPA and country routines, channel arithmetic and register access: easy members or other chips.
