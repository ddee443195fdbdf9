# HACAN protocol core, verified

A Dafny model of the portable core of HACAN, a home-automation protocol on classical CAN: the frame
codec, one node (`NodeRuntime`), and installations of many nodes on one bus. Time is an argument of
the calls, as in the original, so a run is a sequence of calls.

The project has three layers.

* **Codec.** `CanIdentifier.dfy`, `TypedValue.dfy`, `WirePayload.dfy`, `FrameCodec.dfy`,
  `Payloads.dfy`: the 29-bit identifier (the arbitration field of an extended frame, section 3.2.1
  of the Bosch CAN Specification 2.0 Part B), the validators of all 22 kinds, and the typed payload
  constructors. `WireFormat.dfy` is the reference they are proved against: the registry of kinds,
  and the messages of each kind, field by field.
* **One node.** `NodeRuntime.dfy` is the node in place: a class with the original's arrays, counters
  and loops, whose queues, tables and registrations live in `TransmitQueues.dfy` and `Tables.dfy`.
  Each method is proved equal to a function on node values (`Outbox.dfy`, `Directory.dfy`,
  `Duplicates.dfy`, `Node.dfy`), and the object carries a ghost history of its public calls, so what
  is proved of runs of those functions holds of every history of the object. About runs:
  `NodeFrames.dfy` and `NodeInvariant.dfy` (what every call keeps), `CodecClosure.dfy`, `Fifo.dfy`,
  `Presence.dfy`, `CommandTable.dfy`, `Commands.dfy`, `CommandFlood.dfy`, `Allocator.dfy`,
  `ConflictReport.dfy`, `TickRuns.dfy`, `DiscoveryBackoff.dfy`, `Startup.dfy`, `Publishing.dfy`,
  `UidOrder.dfy`; and, in terms of the wire format, what each call sends: `Transmissions.dfy`,
  `NodeTraffic.dfy`.
* **Several nodes.** `Installation.dfy` (any number of nodes; a bus that may lose, duplicate, delay
  and reorder but forges nothing), `Uniqueness.dfy`, `ConflictResolution.dfy`, and, between two
  nodes, `Heartbeats.dfy`, `Convergence.dfy`, `Commissioning.dfy`, `EntityResolution.dfy`.

The ports are inputs. For each call, `Ports` says which frames the transmitter refuses, whether
storage accepts a save, and what status a handler answers; transmitted frames and callbacks are
recorded in traces. Storage is assumed to load a unicast address or nothing, as the component
guarantees (`components/hacan/hacan.cpp:144-148`).

Check everything with `dafny verify dfyconfig.toml`. No proof relies on Dafny's automatic induction:
every lemma that it would apply to carries `{:induction false}`, recursive or not.

## Where the code departs from its documentation

The model follows the code.

* `docs/esphome/decisions/0007-primary-bootstrap.adoc` says that a primary cannot assign address
  0x001 to a regular node. It can exactly when it left its constructor without that address: it
  loaded a different one, or it loaded none and could not save 0x001; see
  `Allocator.BootstrapAddressIsIssuedExactlyIf` and, for the second case,
  `Allocator.UnassignedPrimaryGivesAway`.
* `docs/protocol/discovery.adoc` says that repeating an identical assignment is idempotent. It is so
  exactly while nothing has been claimed since the address was taken; later the claims and
  announcements start again; see `Commissioning.RepeatedAssignment` and the input in
  `Commissioning.RepeatClaimsAgain`.
* The same file gives the first discovery request a UID-derived delay of up to a second. The code
  sends it in the first tick, so the delay is whatever the caller makes it; see
  `DiscoveryBackoff.FirstRequestIsFirstTick` and the input in
  `DiscoveryBackoff.FirstRequestHasNoDelay`.
* It lets the node with the lower UID repeat its claim after a random delay. The code plans no claim
  at all; it queues a conflict notice at once, exactly if the control queue has room; see
  `ConflictResolution.ChampionAnswers`.
* It makes a node wait 0 to 2000 ms before its first claim. The code waits between one and two and a
  half seconds from the first tick, so it can keep the two seconds exactly if the start delay of its
  UID is no longer; see `Startup.ClaimsWithinExactly` and the UID in `UidOrder.LateClaimer`.
* It makes a node accept addressed traffic only after the claims. The code never looks at them
  (`Commands.ClaimsDoNotMatter`): a command is served too early exactly when a claim is still to be
  sent, the command is new and its endpoint has a handler (`Commands.ServedBeforeClaims`), as in the
  run of `CommandFloods.CommandServedBeforeClaims`.
* `docs/protocol/message-types.adoc` has a repeated command executed once and acknowledged with the
  status of its first copy. The node has room for sixteen records only, so a copy may run again:
  `Commands.CopiesRunAgainExactly` says when, and `CommandFloods.CommandRunsTwice` gives a run. And
  while the record lasts, the status is still lost when the key was used before and the last
  execution found room in the table: `Commands.CopiesCarryStatusExactly` says when, and
  `CommandTables.StaleRecordTakesStatus` gives a case.
* The same file gives events a RETRY flag, and puts the kind of a protocol error in byte 1 and its
  transaction in byte 2. The validators refuse every event with that flag, and look for the kind in
  byte 2, so an error passes exactly if its transaction happens to be a kind code; see
  `WireFormats.RetriedEventIsRefused` and `WireFormats.ErrorIsReadElsewhere`, each with an input.

## Model

| member | source | states |
|---|---|---|
| `Uniqueness.AddressesAreUnique` | components/hacan/protocol_node_runtime.cpp:128-191 | In every run of any number of nodes with distinct UIDs, empty storage at first and one primary that never restarts, over a bus that loses, duplicates, delays and reorders, with applications that queue any frames but such as say who holds an address: no two nodes ever hold one address; all claims, conflict notices and assignments of an address ever sent name one UID, that of the node holding it, so every claim carries the UID the address was assigned to; and no node ever reports a conflict. |
| `Uniqueness.EventKeepsCommissioned` | components/hacan/protocol_node_runtime.cpp:128-191 | One event of such a run, queueing by applications included, keeps the invariant: every address given away has exactly one UID, the primary has them all reserved, and every frame on the bus or in a queue agrees. |
| `Installations.CallStaysGenuine` | components/hacan/protocol_node_runtime.cpp:498-554 | Whatever a node is called with, save to queue a claim, notice or assignment made up by the caller, its queued and transmitted frames assert only address holdings that are real, or that the call itself has just given away. |
| `Installations.CallStaysRightful` | components/hacan/protocol_node_runtime.cpp:128-191 | Where every address has one holder, frames that tell the truth never make a node lose its address or report a conflict, and never give it somebody else's. |
| `Installations.IssuedIsReserved` | components/hacan/protocol_node_runtime.cpp:655-671 | An address handed out in a transmitted assignment was free before the call and is reserved after it; no other entry changes. |
| `ConflictResolution.LowestUidPrevails` | components/hacan/protocol_node_runtime.cpp:128-174 | Among nodes of any role, primaries included, each with the address it loaded or took at boot, under any delivery order and as long as no assignment is taken: the lowest UID holding an address keeps it for ever, every rival that is told of it gives it up for good, and once every rival was told it is the only holder. |
| `ConflictResolution.PrimariesContestBootstrap` | components/hacan/protocol_node_runtime.cpp:40-44 | Two primaries with empty storage both take 0x001 at boot, and are an instance of that: the lower UID is the lowest holder. |
| `ConflictResolution.ChampionAnswers` | components/hacan/protocol_node_runtime.cpp:138-151 | A holder with the lower UID keeps its address and its schedule when a rival claims it, so it plans no claim; at the end of its control queue it puts a conflict notice that makes any rival of higher UID give way if and only if there is room, and otherwise queues nothing. |
| `ConflictResolution.CallAmongGenuine` | components/hacan/protocol_node_runtime.cpp:157-174 | For a node of any role, a call that is no accepted assignment can only lose the address, never move it; the lowest holder never loses it; a truthful claim or notice from a lower UID always takes it away. |
| `ConflictReports.ConflictIsReported` | components/hacan/protocol_node_runtime.cpp:128-174 | Every call: the node reports its address, once, and is left without one, if and only if the call brings a claim from it or a conflict notice to it with a lower UID; otherwise nothing is reported. |
| `ConflictReports.ReportsAreLosses` | components/hacan/protocol_node_runtime.cpp:491-497 | In every run the addresses reported are exactly those lost, in order. |
| `ConflictReports.LoserStartsOver` | components/hacan/protocol_node_runtime.cpp:491-497 | A node that has lost its address and is assigned one has the schedule of a node that has just booted without an address and is assigned the same, but for the pace of its discovery requests. |
| `UidOrder.ComparisonIsNumeric` | components/hacan/protocol_node_runtime.cpp:138-149 | Comparing UIDs byte by byte from the top is comparing them as 48-bit little-endian integers, and is total. |
| `UidOrder.ComparesLower` | components/hacan/protocol_node_runtime.cpp:139-146 | The downward scan with its early exit answers exactly that comparison. |
| `UidOrder.SameUid` | components/hacan/protocol_node_runtime.cpp:133-136 | The byte loop answers whether two UIDs are equal. |
| `UidOrder.ComputeUidHash` | components/hacan/protocol_node_runtime.cpp:20-24 | The loop computes the 32-bit hash with its wrap-around multiplication. |
| `UidOrder.ComputeClaimStartDelay` | components/hacan/protocol_node_runtime.cpp:26-28 | From the hash the method gives the start delay of the first claim. |
| `UidOrder.LateClaimer` | components/hacan/protocol_node_runtime.cpp:20-32 | A UID whose start delay is 2222 ms and whose claim interval is 357 ms. |
| `UidOrder.ComputeResponseDelay` | components/hacan/protocol_node_runtime.cpp:8-18 | The loop's delay is below the window that the request names. |
| `UidOrder.SomeResponseDelay` | components/hacan/protocol_node_runtime.cpp:8-18 | One response delay, from a request's bytes. |
| `Commissioning.DiscoveryLeadsToAddress` | components/hacan/protocol_node_runtime.cpp:52-98 | From an unassigned node's own pending answer to its address in three deliveries: the tick sends the answer, a primary with room assigns its smallest free address past its queues, and the node that receives it and saves it holds that address. |
| `Commissioning.RequestIsNoted` | components/hacan/protocol_node_runtime.cpp:155-159 | A discovery request is noted with its transaction and requester, and falls due after the response delay of UID and request, before the end of the window it names. |
| `Commissioning.DueAnswerIsSent` | components/hacan/protocol_node_runtime.cpp:52-61 | Once due, the next tick sends exactly that answer before anything else. |
| `Commissioning.PrimaryAssigns` | components/hacan/protocol_node_runtime.cpp:262-268 | An unassigned node's answer makes a primary transmit an assignment of its smallest free address to that UID, and reserve it. |
| `Commissioning.AssignmentIsTaken` | components/hacan/protocol_node_runtime.cpp:175-194 | The address, its storage, the reservation and a fresh round of claims and announcements follow exactly when the UID matches and the address was saved; otherwise the node has heard from the manager and everything else is as before. |
| `Commissioning.RepeatedAssignment` | components/hacan/protocol_node_runtime.cpp:175-194 | An assignment of the address already held leaves the node as it was, but for having heard the manager, if and only if no claim is planned or sent, nothing is announced and the next claim is due now; and it leads to that state. |
| `Commissioning.RepeatClaimsAgain` | components/hacan/protocol_node_runtime.cpp:175-194 | A node that booted with an address and ticked once has planned its claim; a repeat of its assignment undoes that. |
| `DiscoveryBackoff.RequestsBackOff` | components/hacan/protocol_node_runtime.cpp:100-120 | Before the clock wraps, whatever calls and frames come between the ticks as long as nobody assigns the node an address, and whether it booted without or withdrew: after a request the next one goes out in the very first tick that owes no answer and is at least 2, 4, 8, 16 and then 30 seconds later, by the number made before; and unless it hears another request meanwhile, its own response leaves the single pending slot before that. |
| `DiscoveryBackoff.FirstRequestIsFirstTick` | components/hacan/protocol_node_runtime.cpp:63-69 | The first tick of a node that boots without an address sends a request, whatever the UID and whatever comes before but an assignment or a discovery request; so all requests keep a distance from start-up if and only if that tick does. |
| `DiscoveryBackoff.FirstRequestHasNoDelay` | components/hacan/protocol_node_runtime.cpp:63-69 | A tick in millisecond zero sends the request in millisecond zero. |
| `DiscoveryBackoff.DiscoveryOnTheWire` | components/hacan/protocol_node_runtime.cpp:52-69 | On an idle node the request or the response is the one frame such a tick transmits; other ticks transmit nothing. |
| `Allocator.AssignmentsNeverRepeat` | components/hacan/protocol_node_runtime.cpp:655-671 | Over any run the transmitted assignments of one node carry pairwise distinct unicast addresses, at most 509 of them. |
| `Allocator.IssuesSmallestFree` | components/hacan/protocol_node_runtime.cpp:648-671 | Each one is the smallest address not reserved at that moment, and a call issues at most one. |
| `Allocator.HeldOrClaimedIsNeverIssued` | components/hacan/protocol_node_runtime.cpp:128-130 | An address the node holds, or once saw claimed, is never issued from then on. |
| `Allocator.BootstrapAddressIsIssuedExactlyIf` | components/hacan/protocol_node_runtime.cpp:36-45 | For any stored address or none, and whether or not the save at boot succeeds: some run of a primary gives address 0x001 to another node if and only if it loaded a different address, or loaded none and could not save 0x001. The promise that none does is false of the code, and this is exactly when. |
| `Allocator.UnassignedPrimaryGivesAway` | components/hacan/protocol_node_runtime.cpp:655-671 | The second case as a run: the unassigned primary takes address 5 from another manager, and then transmits an assignment of 0x001. |
| `Heartbeats.LiveSenderNeverExpires` | components/hacan/protocol_node_runtime.cpp:442-452 | Before the clock wraps: an observer that gets at least one of every three heartbeats of a commissioned sender that ticks at least every 5000 ms and receives nothing never marks it offline, whatever else is called on the observer or, receiving aside, on the sender. |
| `Heartbeats.HeartbeatPutsInTouch` | components/hacan/protocol_node_runtime.cpp:75-78 | The first heartbeat that arrives starts such a timeline. |
| `Heartbeats.SteadyTickTransmits` | components/hacan/protocol_node_runtime.cpp:442-452 | A due tick of a sender without pending claims hands over one heartbeat frame, which decodes to the sender's address. |
| `Presence.OfflineDetectionIsExact` | components/hacan/protocol_node_runtime.cpp:478-489 | Across any number of wraps of the 32-bit clock, if ticks are at most 2^32 - 105000 ms apart: after each tick an address is online if and only if a valid frame from it arrived less than 105000 true milliseconds ago, and every directory entry belongs to such an address. |
| `Presence.NobodyIsSeen` | components/hacan/protocol_node_runtime.cpp:122-127 | In every run, frames from address 0 leave no presence behind. |
| `Types.WrapSafeAge` | components/hacan/protocol_node_runtime.cpp:480-480 | The 32-bit difference is the true age as long as that is below 2^32 ms. |
| `Directories.ExpireForgetsStale` | components/hacan/protocol_node_runtime.cpp:478-489 | Expiry forgets exactly the stale addresses in its range and leaves no entry of a forgotten one. |
| `Directories.ExpireKeepsTheRest` | components/hacan/protocol_node_runtime.cpp:478-489 | An entry is lost exactly when its owner is stale; all others keep their slot. |
| `NodeInvariants.DirectoryReplaysLog` | components/hacan/protocol_node_runtime.cpp:454-489 | In every run, for every entity: available and unavailable callbacks alternate, starting with available, and replaying them gives exactly what resolve answers; so no entity moves without an unavailable callback in between. |
| `Directories.LearnAsMap` | components/hacan/protocol_node_runtime.cpp:454-476 | As a map: a claim adds an unknown entity while there is room, a contradicting claim removes the entry, a repeated one changes nothing, and no other entity is affected. |
| `Directories.LearnRefines` | components/hacan/protocol_node_runtime.cpp:454-476 | A claim keeps the slots a map with unique entities that agrees with the callback log. |
| `Directories.ExpireRefines` | components/hacan/protocol_node_runtime.cpp:478-489 | So does expiry, entry by entry. |
| `Directories.EventsAlternate` | components/hacan/protocol_node_runtime.cpp:454-489 | A legal log alternates per entity, and the entity is present after an odd number of callbacks. |
| `EntityResolution.ResolveFindsOwner` | components/hacan/protocol_node_runtime.cpp:195-210 | From a resolve to the directory: the owner that receives it queues one claim, and an observer that receives the claim finds the entity at the owner's address and endpoint, unless it knew another place or has no room. |
| `EntityResolution.ResolveIsAnswered` | components/hacan/protocol_node_runtime.cpp:199-210 | A commissioned node answers with exactly one claim, of the endpoint it owns the entity at, and is silent about entities it does not own. |
| `EntityResolution.ClaimLocates` | components/hacan/protocol_node_runtime.cpp:195-198 | A received claim locates an unknown entity while there is room, never moves a known one, and drops it when the claim contradicts. |
| `EntityResolution.FrameIsAbout` | components/hacan/protocol_node_runtime.cpp:621-635 | Which entity a frame from an endpoint of a node is about: the one the receiver owns there, if the frame bears its own address; else one that resolve gives at that very node and endpoint; and none only if resolve gives none there. |
| `EntityResolution.LocatedIsMeant` | components/hacan/protocol_node_runtime.cpp:621-635 | Where resolve gives one entity at a place of another node, frames from there are about it. |
| `Convergence.StatesConverge` | components/hacan/protocol_node_runtime.cpp:370-440 | End to end, with a transmitter that never fails, a bus that loses and reorders nothing and an observer whose directory has the entity, and it alone, at that place whenever a state arrives: the listener hears published values and qualities only, unchanged and in order, and once everything pending has arrived the last one heard is the last one accepted. |
| `Convergence.RunConverges` | components/hacan/protocol_node_runtime.cpp:393-440 | In every run without refusals, per key: sent and still queued STATEs together are a subsequence of the accepted ones and end with the last accepted one. |
| `Convergence.AcceptedArePublished` | components/hacan/protocol_node_runtime.cpp:370-380 | The accepted frames of a key carry exactly the accepted publications, value by value. |
| `Convergence.ListenerHearsArrivals` | components/hacan/protocol_node_runtime.cpp:211-225 | A listener hears exactly the arrived readings of its entity, each once and unchanged. |
| `Convergence.ListenersRegisterOnce` | components/hacan/protocol_node_runtime.cpp:338-352 | In every run a listener occupies at most one slot, however often it registers. |
| `Convergence.NotifyIsHeard` | components/hacan/protocol_node_runtime.cpp:219-223 | Each registration of a listener of the entity is called once; nobody else is. |
| `Publishing.StateAcceptedExactly` | components/hacan/protocol_node_runtime.cpp:370-380 | publish_state answers true exactly when the node is commissioned, owns the endpoint, value and quality are well formed, and the queue has room or an older state of that endpoint to replace. |
| `Publishing.EventAcceptedExactly` | components/hacan/protocol_node_runtime.cpp:382-391 | publish_event answers true exactly when the node is commissioned, owns the endpoint, the value is well formed, no flag is set and the queue has room. |
| `Publishing.EventIsHeard` | components/hacan/protocol_node_runtime.cpp:226-245 | A delivered event reaches each registered listener of its entity once and unchanged, and is acknowledged as accepted exactly when it names this node and asks for it, back to its sender. |
| `Publishing.PublishedEventIsHeard` | components/hacan/protocol_node_runtime.cpp:382-391 | End to end: an accepted event is queued as a broadcast, and any other node that receives it and whose directory has one entity at its endpoint tells each listener of that entity once, with the value published, tells nobody else, and acknowledges nothing. |
| `Publishing.OwnedAnswers` | components/hacan/protocol_node_runtime.cpp:271-289 | The answer says whether the pair is registered afterwards; it is refused only for reserved numbers, a clash or want of room; nothing registered is lost. |
| `Publishing.ObservedAnswers` | components/hacan/protocol_node_runtime.cpp:311-323 | The answer says whether the entity is observed afterwards; it is refused only for zero or want of room. |
| `Publishing.ListenerAnswers` | components/hacan/protocol_node_runtime.cpp:338-352 | For a state listener the answer is true exactly when the entity is not zero and the listener is listed afterwards; then its entity is observed; a refusal or a repetition changes nothing, and nothing registered is lost. |
| `Publishing.EventListenerAnswers` | components/hacan/protocol_node_runtime.cpp:354-368 | The same for an event listener. |
| `Publishing.HandlerAnswers` | components/hacan/protocol_node_runtime.cpp:325-336 | A handler is accepted exactly if its endpoint is valid and is served by that handler already, or by nobody while there is room; then it serves it; nothing else changes. |
| `Publishing.HandlersStayOk` | components/hacan/protocol_node_runtime.cpp:325-336 | In every run each endpoint has at most one handler. |
| `Commands.CommandsRunAtMostOnce` | components/hacan/protocol_node_runtime.cpp:246-261 | In every run from start-up, across clock wraps: a copy within 2000 ms of an execution of its key is not executed and calls no handler, unless that was the very first execution and more than sixteen have happened, or it found the table full and another has happened since; and the handler calls of the run are exactly those of the abstract table. |
| `Commands.CopiesAreAnsweredAlike` | components/hacan/protocol_node_runtime.cpp:246-261 | In every run from start-up, across clock wraps: a copy within 2000 ms of the first delivery of its key calls no handler, and queues an acknowledgement exactly if it asks for one, with the status of that first delivery; unless that was the very first execution and more than sixteen have happened, or it found the table full and another has happened since. |
| `Commands.CopiesCarryStatusExactly` | components/hacan/protocol_node_runtime.cpp:581-591 | From start-up, before the clock wraps and while its record is not lost by those counts: any copy within 2000 ms of an execution is acknowledged with its status if and only if that execution found sixteen before it, or the key had never been delivered before it, or the status is UNSUPPORTED. |
| `Commands.CopiesRunAgainExactly` | components/hacan/protocol_node_runtime.cpp:556-579 | From start-up and before the clock wraps: a copy is executed again after the last execution of its key if and only if it comes more than 2000 ms later, or that was the very first execution and more than sixteen have happened, or it found the table full and another has happened since. |
| `Commands.NodeRefinesTable` | components/hacan/protocol_node_runtime.cpp:246-261 | Whatever else happens in a run, records and handler calls change as the table's do, command by command. |
| `Commands.AcknowledgesWithReply` | components/hacan/protocol_node_runtime.cpp:593-605 | A command that asks for it gets an acknowledgement at the end of the control queue, from the node's address to the sender, with the command's transaction, endpoint and kind and the status of its execution or of the earlier copy, if there is room; otherwise nothing is queued. |
| `Transmissions.AcknowledgementIsRead` | components/hacan/protocol_node_runtime.cpp:593-605 | What the sender decodes then: priority 1, kind ACK, its own address as the destination, the node's as the source, and those bytes. |
| `Commands.NewCommandIsServed` | components/hacan/protocol_node_runtime.cpp:246-261 | A new command runs the one handler of its endpoint with its sender, endpoint, transaction and value, and is acknowledged with the handler's status; without a handler, with status 2. |
| `Commands.ClaimsDoNotMatter` | components/hacan/protocol_node_runtime.cpp:246-261 | A command is handled alike whatever the state of claims and announcements. |
| `Commands.ServedBeforeClaims` | components/hacan/protocol_node_runtime.cpp:246-261 | A handler runs before the claims are out if and only if a claim is still to be sent, the command is new and its endpoint has a handler. |
| `CommandFloods.CommandRunsTwice` | components/hacan/protocol_node_runtime.cpp:556-579 | A run of nineteen calls in eighteen milliseconds: seventeen commands of different keys and then the first again, byte for byte; the handler runs eighteen times, the last like the first. |
| `CommandFloods.CommandServedBeforeClaims` | components/hacan/protocol_node_runtime.cpp:246-261 | In the same run the first command is served although no claim has been sent. |
| `CommandTables.AtMostOnce` | components/hacan/protocol_node_runtime.cpp:556-579 | A copy inside the window is suppressed while the record is retained: it is not in slot 0, or no insertion since found the table full. |
| `CommandTables.SixteenAreRetained` | components/hacan/protocol_node_runtime.cpp:567-578 | While at most sixteen commands were executed since start-up every record is retained. |
| `CommandTables.RepeatRunsAgainExactly` | components/hacan/protocol_node_runtime.cpp:556-579 | Before the clock wraps, every copy before any other execution of its key runs again if and only if it comes more than 2000 ms after the last one, or the record was in slot 0 and an insertion in between found the table full. |
| `CommandTables.RepeatCarriesFirstStatus` | components/hacan/protocol_node_runtime.cpp:581-591 | Before the clock wraps, every copy inside the window of an execution whose record is retained is acknowledged with its status if and only if no slot in front of the new record held the key, or that status is UNSUPPORTED. |
| `CommandTables.FirstCommandAnswersCopies` | components/hacan/protocol_node_runtime.cpp:556-591 | Across clock wraps: the first command of a key is executed, and each copy inside the window, while the record is retained, is not, and gets its status. |
| `CommandTables.RepeatCarriesStatusIff` | components/hacan/protocol_node_runtime.cpp:581-591 | The same condition in terms of the commands alone, while the record is not lost by count: sixteen executions came before, or the key had not arrived before, or the status is UNSUPPORTED. |
| `CommandTables.UnusedByCount` | components/hacan/protocol_node_runtime.cpp:581-591 | No slot in front of the new record of a command holds its key if and only if sixteen have been executed before, or the key had not arrived before. |
| `CommandTables.RetainedByCount` | components/hacan/protocol_node_runtime.cpp:567-578 | From start-up a record is retained unless it was the first one and more than sixteen have been made, or it was made with the table full and another one since. |
| `CommandTables.RepeatRunsAgainByCount` | components/hacan/protocol_node_runtime.cpp:556-579 | When a copy runs again, in terms of the number of executions before and since. |
| `CommandTables.StaleRecordTakesStatus` | components/hacan/protocol_node_runtime.cpp:581-591 | A key reused after its window: the status goes to the stale record, and a copy one millisecond later is acknowledged as UNSUPPORTED. |
| `NodeInvariants.FramesAreConserved` | components/hacan/protocol_node_runtime.cpp:393-440 | In every run, frame by frame: accepted equals transmitted plus refused plus superseded plus queued; only a STATE is superseded, by one of its own key; no queue exceeds eight frames or holds two STATEs of one key. |
| `Outboxes.EnqueueKeepsInv` | components/hacan/protocol_node_runtime.cpp:393-425 | Queueing keeps class, capacity, unique keys and conservation. |
| `Outboxes.EnqueueAnswers` | components/hacan/protocol_node_runtime.cpp:393-425 | A frame is accepted exactly when it is encodable and its queue has room or holds a STATE of its key; it is then in its queue, and every frame it does not supersede keeps its place; refused, it changes nothing. |
| `Transmissions.StatesAreKeyed` | components/hacan/protocol_node_runtime.cpp:407-418 | A frame is coalesced under its source, destination and endpoint if it conveys a state, and never otherwise. |
| `Outboxes.DrainSendsMostUrgent` | components/hacan/protocol_node_runtime.cpp:427-440 | With a transmitter that takes everything a drain sends exactly one frame if and only if any is queued: the head of its class, with the smallest top three identifier bits of all queued frames. |
| `Outboxes.DrainPopsUpToFirstSuccess` | components/hacan/protocol_node_runtime.cpp:427-440 | With any transmitter a drain hands over, in class order, exactly one head of each nonempty class up to and including the first success; the refused ones are lost. |
| `Outboxes.DrainKeepsInv` | components/hacan/protocol_node_runtime.cpp:427-440 | Draining keeps the invariant for any transmitter. |
| `Outboxes.DrainNeverRepeats` | components/hacan/protocol_node_runtime.cpp:427-440 | The frames one drain hands over, up to the first success, are pairwise different. |
| `Fifo.ClassesAreFifo` | components/hacan/protocol_node_runtime.cpp:398-440 | In every run and for any transmitter, each class that does not coalesce: what was handed over, followed by what is queued, is what was accepted, in that order. |
| `Fifo.PlacesAreFifo` | components/hacan/protocol_node_runtime.cpp:398-440 | In every run and for any transmitter, for every class, the coalescing one included: STATEs leave in the order their places in the queue were opened, whatever superseded what; frames that cannot be superseded, such as REQUEST and RESPONSE, leave in the order they were accepted; and every accepted frame has opened a place or superseded another. |
| `Startup.StartupFollowsPlan` | components/hacan/protocol_node_runtime.cpp:52-98 | Before the clock wraps, for any registrations and then any ticks, with a transmitter that does not fail: what was said followed by what is left is always the same plan, two claims, the owned entities and the observed entities, each once in slot order; nothing but heartbeats is said besides; and a tick sends a claim if and only if one is left and its time has come, the start delay after the first tick for the first and another interval later for the second. |
| `Startup.WorkShrinks` | components/hacan/protocol_node_runtime.cpp:75-98 | After the second claim every tick that is not a heartbeat takes one announcement off the work left, until it is done. |
| `Startup.ClaimsKeepDelay` | components/hacan/protocol_node_runtime.cpp:52-73 | In every run before the clock wraps, whatever frames and calls come, and whether the node loads its address or is assigned one: no claim comes earlier than the start delay after the first tick. |
| `Startup.ClaimsWithinExactly` | components/hacan/protocol_node_runtime.cpp:52-73 | A node that has loaded an address has some run in which it claims it within a given time of its first tick if and only if its start delay is no longer than that. |
| `Startup.ClaimOfTick` | components/hacan/protocol_node_runtime.cpp:70-73 | The ticks that count as claiming queue the claim of the held address and then drain. |
| `Startup.HeartbeatsKeepDistance` | components/hacan/protocol_node_runtime.cpp:442-452 | Before the clock wraps, whatever calls and frames come in between: any two heartbeats of a node that keeps having an address are at least 30000 ms apart. |
| `Startup.BeatOfTick` | components/hacan/protocol_node_runtime.cpp:75-78 | The ticks that count as heartbeats hand over the heartbeat frame and nothing else, and of all ticks they alone move the next one. |
| `Startup.RegistrationsLeadThere` | components/hacan/protocol_node_runtime.cpp:36-45 | Loading an address and registering, in any order and number, leads to the state that start-up begins in. |
| `NodeTraffic.DueResponseIsOffered` | components/hacan/protocol_node_runtime.cpp:52-61 | A due answer is queued before anything else, from the node's address or from 0 to the requester, with the request's transaction and the node's UID; and the tick drains. |
| `NodeTraffic.DueRequestIsOffered` | components/hacan/protocol_node_runtime.cpp:100-120 | A request is queued from 0 to all with the next sequence number, a window of a second and a challenge from UID and sequence; and the node notes its own response to it, due after its response delay. |
| `NodeTraffic.DueClaimIsOffered` | components/hacan/protocol_node_runtime.cpp:498-510 | A due claim is queued with UID and nonce, from the address to all. |
| `NodeTraffic.DueHeartbeatIsSent` | components/hacan/protocol_node_runtime.cpp:442-452 | A due heartbeat goes past the queues, from the address to all, with the next sequence number. |
| `NodeTraffic.OwnedIsAnnounced` | components/hacan/protocol_node_runtime.cpp:79-88 | A tick with nothing more urgent claims the next owned entity at its endpoint. |
| `NodeTraffic.ObservedIsSought` | components/hacan/protocol_node_runtime.cpp:89-97 | When no owned entity is left, it asks for the next observed one. |
| `NodeTraffic.QuietTickDrains` | components/hacan/protocol_node_runtime.cpp:52-98 | When nothing is due, the tick only drains, and takes no sequence number. |
| `NodeTraffic.RivalIsContradicted` | components/hacan/protocol_node_runtime.cpp:138-147 | The lower UID contradicts a rival's claim with a notice from its address to itself, with its UID. |
| `NodeTraffic.ResolveIsClaimed` | components/hacan/protocol_node_runtime.cpp:199-210 | A resolve is answered with the claim of the entity at the endpoint it is owned at, and otherwise left alone. |
| `NodeTraffic.ResponseIsAssigned` | components/hacan/protocol_node_runtime.cpp:262-268 | A node assigns exactly when it is a primary with an address, the response is for it or goes from 0 to 0, and an address is free: the smallest one, to the reported UID, past the queues; it is taken exactly if the transmitter took the frame. |
| `NodeTraffic.PublishedStateIsQueued` | components/hacan/protocol_node_runtime.cpp:370-380 | An accepted state is queued as a broadcast with endpoint, value and quality as published and the next sequence number; a refused one queues nothing. |
| `NodeTraffic.EventTakesNumber` | components/hacan/protocol_node_runtime.cpp:382-391 | An event takes a sequence number whenever the node has an address, the endpoint and no flags. |
| `NodeInvariants.RunKeepsInv` | components/hacan/protocol_node_runtime.cpp:36-269 | In every run of public calls: a held address is unicast and reserved, registrations are valid and distinct, queues and directory keep their invariants, and every queued or transmitted frame decodes. |
| `NodeInvariants.StepKeepsInv` | components/hacan/protocol_node_runtime.cpp:36-269 | Every single public call keeps that invariant. |
| `NodeInvariants.CountersFitBytes` | components/hacan/protocol_node_runtime.cpp:113-119 | The claim counter never exceeds two and the attempt counter never exceeds four, so their bytes never wrap. |
| `NodeInvariants.DispatchTouches` | components/hacan/protocol_node_runtime.cpp:122-269 | What each kind of frame may change, field by field: a STATE reaches nothing but its listeners, an ENTITY_CLAIM nothing but the directory, and so on for all kinds. |
| `NodeFrames.StepAll` | components/hacan/protocol_node_runtime.cpp:122-269 | An outbox property that survives queueing an authored frame, popping a head and sending directly survives every public call: nothing else ever touches the queues. |
| `CodecClosure.ClosedUnderCodec` | components/hacan/protocol_node_runtime.cpp:498-554 | In every run each frame the node may build encodes, and so does every STATE and EVENT whose payload create accepts; every frame it ever handed over decodes, and each queued one decodes to its queue's class. |
| `CodecClosure.IdentifiersAreCreated` | components/hacan/protocol_can_identifier.cpp:13-22 | The checked construction of an identifier never refuses the fields of a node's own frame. |
| `FrameCodec.CodecIsBijection` | components/hacan/protocol_frame_codec.cpp:51-67 | Over all 22 kinds decoding and encoding are mutually inverse partial bijections. |
| `FrameCodec.EncodeDecoded` | components/hacan/protocol_frame_codec.cpp:60-67 | A decoded frame encodes to the very frame it came from. |
| `FrameCodec.DecodeEncoded` | components/hacan/protocol_frame_codec.cpp:51-58 | Encoding succeeds exactly on valid frames, and is undone by decoding. |
| `FrameCodec.EncodedClass` | components/hacan/protocol_frame_codec.cpp:60-67 | Every encodable frame belongs to one of the five queued classes and shows it in its top bits, so the default case of the queue switch is never reached. |
| `WireFormats.EncodesExactly` | components/hacan/protocol_frame_codec.cpp:60-67 | A frame is encoded if and only if the registry admits its priority and its two addresses for its kind, and its payload is a message of the kind. |
| `WireFormats.DecodesExactly` | components/hacan/protocol_frame_codec.cpp:51-58 | A raw frame is decoded if and only if it conveys a message of the wire format between the two addresses it names. |
| `WireFormats.ConveyedDecodes` | components/hacan/protocol_frame_codec.cpp:51-58 | What is conveyed is decoded with its kind, priority, addresses and bytes. |
| `WireFormats.RoutesAreRegistered` | components/hacan/protocol_wire_payload.h:111-135 | For each of the 22 kinds: some frame between two addresses decodes if and only if the registry says that the kind travels between them. |
| `WireFormats.PayloadsAreMessages` | components/hacan/protocol_wire_payload.h:136-189 | For each of the 22 kinds the validator accepts exactly the layouts of its messages, whose fields are typed by their ranges. |
| `WireFormats.MeaningIsUnique` | components/hacan/protocol_wire_payload.h:136-189 | A payload means one message only. |
| `WireFormats.RefusesInOrder` | components/hacan/protocol_frame_codec.cpp:6-58 | A raw frame that is refused is refused with the first of seven errors that applies. |
| `WireFormats.ValidatesInOrder` | components/hacan/protocol_wire_payload.h:191-202 | Which error a payload's validator gives an identifier: kind, priority, addressing, payload, in this order. |
| `WireFormats.RetriedEventIsRefused` | components/hacan/protocol_wire_payload.h:161-162 | An event is accepted only with flags below 4. |
| `WireFormats.ErrorIsReadElsewhere` | components/hacan/protocol_wire_payload.h:138-139 | A protocol error is accepted exactly if byte 2 is a kind code. |
| `CanIdentifiers.UnpackPacked` | components/hacan/protocol_can_identifier.cpp:23-42 | Packing the five fields and unpacking them loses nothing, unregistered kinds included. |
| `CanIdentifiers.PackUnpacked` | components/hacan/protocol_can_identifier.cpp:23-42 | Unpacking succeeds exactly below 2^29 and is undone by packing. |
| `CanIdentifiers.ArbitrationFollowsFields` | components/hacan/protocol_can_identifier.cpp:37-42 | Numeric order of identifiers is lexicographic order of priority, kind, destination, source and hop, so bus arbitration follows the fields. |
| `TypedValues.ValidIffEncodesValue` | components/hacan/protocol_typed_value.cpp:42-59 | A slot validates exactly when its little-endian word is a value of its type: small enough for the width, and for a binary32 no signaling NaN in the sense of section 6.2.1 of IEEE 754-2008. |
| `TypedValues.ErrorsOfValue` | components/hacan/protocol_typed_value.cpp:42-59 | Which error a slot gives, in terms of its word: unknown type, a boolean's low byte above 1, a word too large for the type, a signaling NaN, in this order. |
| `TypedValues.ValidateValue` | components/hacan/protocol_typed_value.cpp:42-59 | The loop over the unused bytes with its early returns gives the specified error. |
| `TypedValues.QuietBit` | components/hacan/protocol_typed_value.cpp:29-38 | The quiet-bit mask test is a bound on the significand. |
| `WirePayloads.CheckTypedValue` | components/hacan/protocol_wire_payload.h:83-92 | Copying the slot in a loop and validating it answers the slot rule for any offsets. |
| `Payloads.StateLanguage` | components/hacan/protocol_state.cpp:5-20 | create succeeds exactly when the wire validator accepts the encoding; each accepted slot is the encoding of exactly one argument list. |
| `Payloads.EventLanguage` | components/hacan/protocol_event.cpp:5-20 | The same for EVENT. |
| `Payloads.CommandLanguage` | components/hacan/protocol_command.cpp:5-20 | The same for COMMAND. |
| `Payloads.EntityClaimLanguage` | components/hacan/protocol_entities.cpp:22-36 | The same for ENTITY_CLAIM, entity word included. |
| `Payloads.EntityResolveLanguage` | components/hacan/protocol_entities.cpp:38-52 | The same for ENTITY_RESOLVE, entity word and window included. |
| `Payloads.HeartbeatLanguage` | components/hacan/protocol_lifecycle.cpp:5-22 | The same for HEARTBEAT. |
| `Payloads.WriteValuePayload` | components/hacan/protocol_state.cpp:6-20 | Writing the slot byte by byte into the frame gives the encoding. |
| `Payloads.WriteU32LittleEndian` | components/hacan/protocol_entities.cpp:12-18 | The four stores write the word's bytes at the offset and leave the rest of the array alone. |
| `Payloads.WriteEntityClaim` | components/hacan/protocol_entities.cpp:30-36 | The stores give the encoding of the claim. |
| `Payloads.WriteEntityResolve` | components/hacan/protocol_entities.cpp:46-52 | The stores give the encoding of the resolve. |
| `Runtime.NodeRuntime.constructor` | components/hacan/protocol_node_runtime.cpp:36-45 | The object starts as the booted node, its history empty. |
| `Runtime.NodeRuntime.EveryHistoryIsSafe` | components/hacan/protocol_node_runtime.cpp:36-269 | Whatever public calls came, in whatever order, the object's state satisfies the node invariant. |
| `Runtime.NodeRuntime.Receive` | components/hacan/protocol_node_runtime.cpp:47-50 | The arrays and fields end as the node function on values says, and the call is added to the history that determines the state. |
| `Runtime.NodeRuntime.Tick` | components/hacan/protocol_node_runtime.cpp:52-98 | The same for a tick. |
| `Runtime.NodeRuntime.Enqueue` | components/hacan/protocol_node_runtime.cpp:393-425 | The same for queueing, answer included. |
| `Runtime.NodeRuntime.DrainOne` | components/hacan/protocol_node_runtime.cpp:427-440 | The same for draining, answer included. |
| `Runtime.NodeRuntime.PublishState` | components/hacan/protocol_node_runtime.cpp:370-380 | The same for a state, answer included. |
| `Runtime.NodeRuntime.PublishEvent` | components/hacan/protocol_node_runtime.cpp:382-391 | The same for an event, answer included. |
| `Runtime.NodeRuntime.RegisterOwnedEntity` | components/hacan/protocol_node_runtime.cpp:271-289 | The same for an owned entity, answer included. |
| `Runtime.NodeRuntime.RegisterObservedEntity` | components/hacan/protocol_node_runtime.cpp:311-323 | The same for an observed entity, answer included. |
| `Runtime.NodeRuntime.RegisterEndpoint` | components/hacan/protocol_node_runtime.cpp:325-336 | The same for an endpoint handler, answer included. |
| `Runtime.NodeRuntime.RegisterStateListener` | components/hacan/protocol_node_runtime.cpp:338-352 | The same for a state listener, answer included. |
| `Runtime.NodeRuntime.RegisterEventListener` | components/hacan/protocol_node_runtime.cpp:354-368 | The same for an event listener, answer included. |
| `Runtime.NodeRuntime.HandleClaim` | components/hacan/protocol_node_runtime.cpp:128-153 | Reserving, the two comparison loops, the conflict notice or the withdrawal change the state as the specification says. |
| `Runtime.NodeRuntime.HandleAssign` | components/hacan/protocol_node_runtime.cpp:175-194 | Comparison, save, and the reset of claims and announcement indices. |
| `Runtime.NodeRuntime.ClaimOwned` | components/hacan/protocol_node_runtime.cpp:199-210 | The loop over the owned table queues a claim for every match. |
| `Runtime.NodeRuntime.HandleCommand` | components/hacan/protocol_node_runtime.cpp:246-261 | Duplicate check, handler call, status update and acknowledgement, in that order. |
| `Runtime.NodeRuntime.Assign` | components/hacan/protocol_node_runtime.cpp:655-671 | The free-address scan, the direct transmission, and the reservation only after success. |
| `Runtime.NodeRuntime.NextFreeAddress` | components/hacan/protocol_node_runtime.cpp:648-653 | The scan finds the smallest unreserved address, or none. |
| `Runtime.NodeRuntime.EntityFor` | components/hacan/protocol_node_runtime.cpp:621-635 | Own endpoints first, then the first directory slot with that node and endpoint. |
| `Runtime.NodeRuntime.NextUsed` | components/hacan/protocol_node_runtime.cpp:80-83 | The skipping loop stops at the first occupied slot, or at the end. |
| `Runtime.NodeRuntime.Resolve` | components/hacan/protocol_node_runtime.cpp:637-642 | The scan answers what the directory map holds. |
| `Runtime.NodeRuntime.IsOnline` | components/hacan/protocol_node_runtime.cpp:644-646 | An address is online when it is unicast and marked as seen. |
| `TransmitQueues.Queues.Enqueue` | components/hacan/protocol_node_runtime.cpp:393-425 | The five arrays with their counts change as the queue specification says, answer included. |
| `TransmitQueues.Queues.DrainOne` | components/hacan/protocol_node_runtime.cpp:427-440 | The class-by-class drain of the arrays is the specified drain. |
| `TransmitQueues.FrameQueue.Shift` | components/hacan/protocol_node_runtime.cpp:428-434 | The shifting loop removes the head and keeps the order of the rest. |
| `TransmitQueues.FrameQueue.FindState` | components/hacan/protocol_node_runtime.cpp:407-418 | The scan finds the first pending STATE of the key, or the end. |
| `Tables.Peers.LearnEntity` | components/hacan/protocol_node_runtime.cpp:454-476 | The two scans over the 32 slots do what the directory specification says. |
| `Tables.Peers.ExpireOffline` | components/hacan/protocol_node_runtime.cpp:478-489 | The nested loops over addresses and slots are the specified expiry. |
| `Tables.DuplicateTable.IsDuplicate` | components/hacan/protocol_node_runtime.cpp:556-579 | The scan answers the status of a live record, or else the record is made in the first empty slot, or in slot 0. |
| `Tables.DuplicateTable.SetDuplicateStatus` | components/hacan/protocol_node_runtime.cpp:581-591 | The scan updates the first record of the key, of any age. |
| `Tables.FindEndpoint` | components/hacan/protocol_node_runtime.cpp:621-635 | The scan finds the first slot with the endpoint, of the node if one is named. |
| `Tables.FindEntity` | components/hacan/protocol_node_runtime.cpp:637-642 | The scan finds the first slot that holds the entity. |
| `Tables.FindFree` | components/hacan/protocol_node_runtime.cpp:469-475 | The scan finds the first empty slot. |
| `Tables.Registrations.Tell` | components/hacan/protocol_node_runtime.cpp:219-223 | The loop calls every registered listener of the entity, in slot order. |
| `Tables.Registrations.EndpointHandler` | components/hacan/protocol_node_runtime.cpp:607-612 | The scan finds the first handler of the endpoint. |
| `Tables.Registrations.RegisterOwnedEntity` | components/hacan/protocol_node_runtime.cpp:271-289 | The scans decide as the registration specification says. |
| `Tables.Registrations.IsListed` | components/hacan/protocol_node_runtime.cpp:338-345 | The scan answers whether a listener is already registered. |

## Left out

- The ESPHome component and its platforms, logging, YAML and build files: glue around the core.
- Re-entrant handlers and listeners: a callback that publishes from inside a call is not modelled; `endpoint()` and `observed_entity()` are constant.
- A node without an events sink: the callbacks are traces, so whether anybody listens does not matter.
- `RequestPayload` and `AckPayload`: the runtime uses neither, and `RequestPayload` admits a GET_STATE on endpoint 0 that the validator rejects.
- Identifier fields outside their width: `create` accepts enumerators of any underlying value, the model only those of the field's width.
- Shifts, masks and the exclusive or of bytes are written as quotients, remainders and a recursive function on integers; the 32-bit and 8-bit wrap-arounds are explicit.
- Scheduler deadlines across the 2^32 ms wrap: the code compares absolute times there, so start-up, discovery and heartbeat results assume that the clock does not wrap meanwhile.
- Uniqueness.AddressesAreUnique: says nothing after a restart of the primary, because its reservations are volatile; other nodes may restart freely.
- Convergence.StatesConverge: assumes that nobody queues foreign STATE frames under the same key through the public `enqueue`.
- Startup.StartupFollowsPlan: only ticks follow the registrations; a call that queues frames or a frame that arrives would mingle its own frames with the plan, and may take the queue place of an announcement. `Startup.WorkShrinks` is about the same runs; `Startup.ClaimsKeepDelay` and `Startup.HeartbeatsKeepDistance` are about all.
- Applications that queue claims, conflict notices or assignments of their own through the public `enqueue`: the results about many nodes leave them out, because such a frame can name any holder; all other frames may be queued.
- ConflictResolution.LowestUidPrevails: says nothing after a restart or after a node takes an assignment, which may make it a holder again.
- Heartbeats.LiveSenderNeverExpires: the sender receives nothing, because a rival's claim may make it withdraw.
- The transmitter's answers within one call are a set of refused frames: no drain hands over one frame twice (`Outboxes.DrainNeverRepeats`).
- The arrays of the node are grouped in four component objects, and its deadlines, counters and indices in one record field; the original has them all as members of one class.
- Bridges and routing, ANNOUNCE, boot tokens, randomized resolve answers, the secondary role, and the configuration, diagnostic and time services are specified but not implemented.
- The statistical quality of the UID hashes: only the ranges of the delays matter here.
