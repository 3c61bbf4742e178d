# Verified model of the Spire SCADA system

A Dafny model of the parts of Spire that have to be right for operators to be able to trust what they see,
and proofs about them:

* **the intrusion-tolerant reliable channel** (`common/itrc.c`, `common/scada_packets.c`): a replica takes
  Prime's ordered stream, forwards new client updates to its SCADA master, collects threshold-signature
  shares and delivers finals strictly in order, and catches up by state transfer; a client hands on what
  verifies and is newer;
* **the SCADA master** (`scada_master/scada_master.c`, `scada_master/queue.c`): the grid search, field data,
  operator commands, and the byte form of its state;
* **the configuration parser and printers** (`config/cJSON.c`).

## How it is put together

The channel is first a state machine on values (`ItrcSpec`), one step for each event of the replica's loop:
a Prime delivery, a master's answer, a share, a state, a change of the external link. A state also records
what the replica put out and which ordinals it consumed. Invariants over every run are proved about that
machine (`TcInvariants`, `StInvariants`, `ReplicaInvariants`, `TransferInvariants`, `ReplayEquivalence`,
`Delivery`, `Finals`, `Admission`, `Waiting`). `ItrcReplica` is the same replica as the source writes it: a
class whose fields are the globals, changed in place, over linked queues with a sentinel, a tail pointer and
a size (`LinkedQueue`, `QueueOps`). `Handle` is proved to take exactly the specification's step, so every
theorem about runs holds of the class.

`Deployment` is the whole system: correct replicas with their masters, a network that may drop, repeat and
reorder, at most f Byzantine replicas that may send anything, and clients. Its theorems compare every
correct replica with one reference execution of Prime's log (`Reference`, `ReplicaTracking`, `Releasing`).

Threshold signatures are ideal: a combined signature remembers the partial signature used at each index and
verifies when at least f + 1 distinct indices hold genuine ones on this ordinal and payload. A genuine
partial signature is made only by its signer.

The SCADA master has a specification on values (`ScadaSpec`, `Grid`, `StateCodec`) and a class with one
array for each kind of status (`ScadaMaster`, with the queue in `Fifo` and the search's invariants in
`GridSearch`); `GridLaws` and `FieldTraffic` say what both mean. The parser and printers have functions on
text (`JsonStrings`, `JsonText`, `JsonMinify`), a grammar of their own (`JsonGrammar`) and the source's own
passes over buffers (`ReadString`, `JsonReader`, `JsonBuffer`, `JsonMeasured`, `MinifyInPlace`, `JsonList`).
A byte is a character below 256, and text does not include its NUL.

## What the theorems assume

* Ordinals and counters do not reach 2^32. `Consec32Exact` says exactly where the source's test on 32-bit
  fields is the unbounded one.
* No network message carries the receiving replica's own number.
* For `TransferNeverLost`, `HaltsExactly`, `DrainedAfterEvent`, `NothingHeldBack` and `DeliveryWaits` every
  message carries the event total of its batch; the last also takes batches to hold an event each, and
  packed states to answer requests for them. A queue slot keeps the total of the first share to arrive and
  the order ignores it, so a wrong one does harm: `WrongTotalSticks` is such a run, and `LostExactly` says
  when a transfer is lost. The end-to-end theorems need this of Prime's own stream only.
* Runs are taken between system resets (a reset keeps `progress`, and `ResetInv` covers the step itself);
  the deployment's log holds none.
* Every executed update is answered. The SCADA master leaves some operator commands unanswered, so this is a
  hypothesis on the log: `AnsweredExactly` says which updates are answered, `PairingExact` why all of them
  must be, and `AnswerMisplaced` what one silent command does.

Nothing is assumed about the grid. A master sends its status array even for field data naming no substation
and before it has ever processed the grid, so there a replica that ran from the start and one that joined by
transfer may answer differently. `ClientSafety` therefore promises an answer that the reference allows: its
own, or what that would be after processing. Where the log fixes the answer it is the reference's own, and
clients agree; `OneAnswerExactly` proves that these are exactly the entries other than such field data
before the first processing, `RefSettledExactly` says when what is shown is processed, `AnswersAlikeExactly`
gives the same condition for a single master, and `StartAgreesExactly` says for which grids the question
does not arise at all. `PoweredAtStartExactly` reduces that to the topology.

## Where the code and its own comments differ

* After a completed transfer the source asserts that no collection is under way (`common/itrc.c:903` and
  `common/itrc.c:1100`). A replay that completes one transfer and starts the next leaves the flag set, and a
  later event trips the assertion. The model keeps this: `HaltsExactly` gives the events, read off the state
  before them, and `StackedTransfersStop` is a run in the deployment's own size (f = 1, k = 1).
* `ITRC_Send_TC_Final` and the delivery loop lose the final that finds the external link broken; the model
  records such finals apart.
* A string literal without its closing quote is accepted by the parser (`UnclosedReads`), and a lone minus
  sign reads as 0 (`LoneMinusReads`).
* The minifier leaves the text on a literal or block comment that is not closed (`MinifyExactly`).

## Model

| member | source | states |
|---|---|---|
| Ordinals.Compare | common/itrc.c:1756-1767 | the result's sign says which ordinal is earlier, by batch and then event, ignoring the total |
| Ordinals.PairCompare | common/scada_packets.c:405-416 | sequence pairs are ordered by incarnation, then number; 0 only for equal pairs |
| Ordinals.ConsecIsAdjacent | common/itrc.c:1771-1779 | no ordinal lies between one and its successor, so skipping over one is never consecutive |
| Ordinals.Consec32Exact | common/itrc.c:1771-1779 | the test on wrapping 32-bit fields is the unbounded one exactly while neither counter is at its last value |
| LinkedQueue.OrderedQueue.Locate | common/itrc.c:1375-1430 | the search, with its tail shortcut, finds the slot of an ordinal or links a blank one where it belongs, leaving the rest in order |
| LinkedQueue.OrderedQueue.Unlink | common/itrc.c:1503-1511 | taking the front node off leaves exactly the remaining slots, linked, with the size exact |
| LinkedQueue.OrderedQueue.DropUpTo | common/itrc.c:1700-1729 | all slots up to and including an ordinal go, the tail pointer is right afterwards, and the slot at that ordinal is handed back |
| LinkedQueue.OrderedQueue.Clear | common/itrc.c:617-640 | a reset leaves an empty, well-formed queue |
| QueueOps.CombineShares | common/scada_packets.c:198-261 | one pass gathers the shares; a final comes out exactly when f + 1 replicas hold a share on this very ordinal and all of these are genuine for one payload |
| Finals.FinalExactly | common/scada_packets.c:198-261 | which final comes out: the common payload, signed by exactly the replicas with a share on the ordinal, and none otherwise |
| Finals.ShareExactly | common/itrc.c:1430-1468 | a new share is stored, finishes the slot exactly when the own share and f + 1 in all are there, and the slot is skipped exactly when they make no final |
| Finals.OtherShares | common/itrc.c:1418-1446 | finished slots and repeated senders change nothing; an empty slot finishes at once with nothing to deliver |
| Finals.InsertExactly | common/itrc.c:1357-1469 | a share is recorded in its own ordinal's slot and nowhere else, early ones in a new slot, old ones not at all |
| Finals.CreditExactly | common/itrc.c:1003-1013 | each final sent uses one unit of the link, one is lost only when none is left, and that ends the loop |
| Finals.ArrivalGoesOut | common/itrc.c:1069-1085 | the last honest share missing at the next ordinal sends the final out at once: the payload agreed on, signed by exactly the senders |
| Finals.AnswerGoesOut | common/itrc.c:986-1013 | the same when the own master's answer is what is missing |
| QueueOps.InsertTc | common/itrc.c:1357-1469 | on the linked queue, a share does what the specification says: old, repeated and late shares change nothing |
| QueueOps.ReadyDeliver | common/itrc.c:1473-1520 | takes finished slots while they are next in line, up to the first with something to deliver |
| QueueOps.CountMatches | common/itrc.c:1655-1671 | the loop over digests counts the distinct senders of an equal state |
| QueueOps.InsertSt | common/itrc.c:1575-1687 | on the linked queue, a state or signal does what the specification says, and completion is reported accordingly |
| Slots.EnsureSorted | common/itrc.c:1375-1430 | inserting keeps the queue strictly sorted and every other slot where it was |
| Slots.DropUpToShape | common/itrc.c:1700-1729 | what is dropped is the leading part up to the ordinal, what stays lies strictly beyond it |
| TcInvariants.ConstructFinalBacked | common/scada_packets.c:215-258 | a final is on the ordinal asked for and is made of stored shares on that ordinal only |
| TcInvariants.RecordShareInv | common/itrc.c:1430-1468 | a share keeps its slot's counts exact; done means own share received and skip or a verified final |
| TcInvariants.InsertTcInv | common/itrc.c:1357-1469 | insertion keeps the queue sorted, ahead of the applied ordinal, with own flags only up to the last Prime ordinal |
| TcInvariants.ReadyDeliverInv | common/itrc.c:1473-1520 | a pass consumes a gap-free chain, hands out only a verified final for the ordinal it reached, and otherwise stops only at an unready front |
| TcInvariants.ChainIncreases | common/itrc.c:1473-1520 | along a chain of consumed ordinals none is repeated and none comes after a later one |
| TcInvariants.DrainInv | common/itrc.c:1003-1013 | the delivery loop keeps all this, and unless the link fails it ends with no ready front |
| TcInvariants.DrainStopsAtGap | common/itrc.c:1003-1013 | an uninterrupted loop leaves no finished slot for the next ordinal anywhere in the queue |
| StInvariants.AgreementExact | common/itrc.c:1651-1675 | a slot is agreed exactly when some state was reported by f + 1 distinct senders |
| StInvariants.RecordStateInv | common/itrc.c:1638-1686 | an agreed result is never overwritten, and completion is reported on the step that first makes a slot agreed and signaled |
| StInvariants.StateExactly | common/itrc.c:1638-1687 | a first state from a peer is kept, early or not, a second one is ignored, and the own signal only sets the mark; f + 1 equal ones collect |
| StInvariants.InsertStExactly | common/itrc.c:1575-1636 | a state is recorded in its ordinal's slot exactly when it is not older than the last ordinal received and newer than what is applied |
| StInvariants.InsertStInv | common/itrc.c:1575-1687 | either nothing completes and at most the awaited slot is signaled, or exactly the awaited transfer has just completed |
| StInvariants.CompleteHasState | common/itrc.c:1706-1710 | a completed transfer always finds its agreed state, so the source's non-null assertion holds |
| ReplicaInvariants.ApplyInv | common/itrc.c:1689-1748 | completion leaves the applied ordinal at the transfer's and only later ordinals in both queues |
| ReplicaInvariants.TransferPartInv | common/itrc.c:1266-1304 | a transfer naming this replica keeps the invariant, needed or not |
| ReplicaInvariants.ProcessPrimeInv | common/itrc.c:1171-1342 | processing an ordinal keeps the invariant and never stops the replica |
| ReplicaInvariants.FinishInv | common/itrc.c:900-926 | the assertion after a transfer fails exactly when a collection is already under way |
| ReplicaInvariants.ResetInv | common/itrc.c:609-673 | a system reset restores the invariant |
| ReplicaInvariants.StepInv | common/itrc.c:817-1126 | every event of the loop keeps the invariant |
| ReplicaInvariants.RunInv | common/itrc.c:817-1126 | so it holds after every run |
| ReplicaInvariants.GapFreeDelivery | common/itrc.c:1473-1520 | in every run the consumed ordinals are consecutive except for forward jumps of transfers, none twice, never ahead of Prime |
| ReplicaInvariants.TcQueueInRuns | common/itrc.c:1357-1469 | in every run the TC queue is strictly sorted and ahead of the applied ordinal, counts are exact, and finals are built from f + 1 stored shares on one ordinal |
| ReplicaInvariants.AgreementInRuns | common/itrc.c:1651-1675 | in every run a slot is agreed exactly when f + 1 peers reported one state, which is the one it holds |
| Delivery.FinalsMatchLedger | common/itrc.c:1003-1013 | in every run finals go out in strictly increasing order; every delivered ordinal gives exactly one final, sent or lost to a broken link, and nothing else does |
| Delivery.DrainedAfterEvent | common/itrc.c:1003-1013 | in every run, unless the link fails during it, an event that delivers (a share, an own answer, an empty slot) leaves no finished slot next in line, and any other event brings none about |
| Delivery.NothingHeldBack | common/itrc.c:1473-1520 | in a run that lost no final, no finished slot is ever next in line |
| Waiting.DeliveryWaits | common/itrc.c:1236-1262 | in every run that lost no final, a control-center replica that has taken up more than it consumed waits at the next ordinal for its master's answer or for shares of others, and for nothing else |
| Waiting.AdmitAccounted | common/itrc.c:1196-1342 | every ordinal taken up gets an empty slot or a place in the queue of questions, and what had one keeps it |
| Admission.DeliveryExactly | common/itrc.c:887-899 | what Prime delivers is processed exactly when it is later than everything received |
| Admission.AsksExactly | common/itrc.c:1196-1342 | the next ordinal is put to the master exactly when it carries a new valid update or a transfer for another replica, which is asked for with the progress reached |
| Admission.UnneededExactly | common/itrc.c:1287-1303 | a transfer not needed clears the states up to it and nothing else |
| Admission.ResetRemembers | common/itrc.c:609-673 | after a reset everything is empty, but duplicates stay duplicates and no second transfer is asked for |
| Admission.ValidExactly | common/itrc.c:1853-1905 | which client messages count |
| Admission.FirstOrdinalExactly | common/itrc.c:881-885 | the first ordinal asks for a transfer exactly when it is not the first of the stream |
| TransferInvariants.GapBlocks | common/itrc.c:1266-1286 | when a transfer is signaled across a gap, nothing the replica holds leads delivery up to it |
| TransferInvariants.TransferNeverLost | common/itrc.c:1188-1306 | in every run the replica collects exactly while one slot, alone, signaled, not agreed and at the received ordinal, waits beyond the applied one |
| ReplayEquivalence.ReplayIsDelivery | common/itrc.c:906-925 | replaying a buffer equals delivering its messages one by one; a new collection keeps the rest buffered in order |
| ReplayEquivalence.CompletionReplaysBuffer | common/itrc.c:1089-1125 | completing a transfer with a buffer equals completing it without and receiving the messages afterwards |
| ReplayEquivalence.BufferThenReplay | common/itrc.c:1188-1194 | the completing state may come before or after any stretch of the stream, with the same outcome |
| ReplayEquivalence.RunReplaysBuffer | common/itrc.c:1089-1125 | the same for every reachable collecting replica |
| Limits.HaltsExactly | common/itrc.c:902-904 | the exact events that stop a replica, read off the state before them |
| Limits.CollectsExactly | common/itrc.c:1266-1286 | a message leaves a state to be collected exactly when one is collected already or it orders, across a gap, a transfer not yet agreed on |
| Limits.CompletesExactly | common/itrc.c:1651-1687 | a state completes the transfer exactly when it is the last report missing for the one awaited |
| Limits.StackedTransfersStop | common/itrc.c:1099-1101 | a run after which the assertion fails on the next state, whoever sends it and whatever it holds |
| Limits.LostExactly | common/itrc.c:1272-1286 | a signaled transfer is kept exactly when its ordinal is still beyond the applied one |
| Limits.StuckForGood | common/itrc.c:1186-1194 | a lost transfer blocks the replica until a reset, whatever arrives |
| Limits.WrongTotalSticks | common/itrc.c:1405-1415 | one share with a wrong event total brings this about |
| ItrcReplica.Replica.DeliverAll | common/itrc.c:1003-1013 | the loop on the globals does what the specification's delivery does |
| ItrcReplica.Replica.ApplyTransfer | common/itrc.c:1689-1748 | both queues, the progress array, the flags and the applied ordinal end up as specified, given an agreed state |
| ItrcReplica.Replica.HandleTransfer | common/itrc.c:1266-1304 | the branch for a transfer naming this replica, in place, with the agreed state always there when it completes |
| ItrcReplica.Replica.ProcessPrime | common/itrc.c:1171-1342 | in place, an ordinal is buffered, dropped or taken up exactly as specified |
| ItrcReplica.Replica.ReplayPending | common/itrc.c:906-925 | the replay loop stops when the buffer is empty or a collection starts, with the specified result |
| ItrcReplica.Replica.ResetAll | common/itrc.c:609-673 | a reset clears everything but the progress array and the first-ordinal flag |
| ItrcReplica.Replica.OnMaster | common/itrc.c:928-1014 | an answer is paired with the front ordinal, signed and stored, as specified |
| ItrcReplica.Replica.OnState | common/itrc.c:1086-1125 | an arriving state is stored, and a completed transfer applied and caught up, as specified |
| ItrcReplica.Replica.Handle | common/itrc.c:817-1126 | one turn of the event loop takes exactly the specification's step and keeps its invariant |
| ItrcReplica.RunReplica | common/itrc.c:817-1126 | the class, over any events, reaches the specification's run |
| ItrcClient.ClientSide.OnFinal | common/itrc.c:262-308 | a final is handed on exactly when it verifies, carries a client message and is newer than the last; otherwise nothing changes |
| Deployment.HandedOnExactly | common/itrc.c:262-308 | whatever arrives, a final is handed on exactly when it is the newest acceptable one so far |
| Reference.ConsecIsNext | common/itrc.c:1196-1208 | in Prime's gap-free stream the only consecutive entry is the next one |
| Reference.ExecutedIncreases | common/itrc.c:1216-1229 | executed updates of one client carry increasing sequence pairs |
| Reference.TruePayloadUnique | common/itrc.c:942-992 | the reference answers at most one payload at each ordinal |
| Reference.RefSettledExactly | scada_master/scada_master.c:536-559 | what the reference shows operators is processed exactly from the first executed update naming a substation on, or from the start where the grid is powered so |
| Reference.OneAnswerExactly | scada_master/scada_master.c:538-544 | an executed update has the reference's answer as the only allowed one exactly when it does not show a status array that was never processed |
| ReplicaTracking.RepliesTrue | common/itrc.c:935-953 | a correct replica's questions each get an answer the reference allows, in order |
| ReplicaTracking.NearAnswer | scada_master/scada_master.c:517-675 | a master near the reference gives an allowed answer, and always gives one |
| ReplicaTracking.AgreedIsTrue | common/itrc.c:1651-1675 | of f + 1 reporters one is correct, so an agreed state is the reference's |
| ReplicaTracking.ApplySynced | common/itrc.c:1689-1748 | installing an agreed state brings progress and master to where the reference stands at that entry, with the status array processed |
| ReplicaTracking.OnMasterTracks | common/itrc.c:928-1002 | what a correct replica signs is an answer the reference allows at that ordinal |
| Deployment.AcceptedIsTrue | common/scada_packets.c:243-255 | whatever verifies was released by a correct replica, and is an answer the reference allows |
| Deployment.ClientSafety | common/itrc.c:262-308 | in every run with at most f Byzantine replicas a client hands on strictly increasing ordinals, each with an answer the reference allows, its own wherever the log fixes one |
| Deployment.ClientsAgree | common/itrc.c:262-308 | any two clients agree on every ordinal whose answer the log fixes, at any two times of a run |
| Deployment.JoinEqualsFromStart | common/itrc.c:1689-1748 | a replica that joined by transfer has the progress, switches, transformers and PNNL data of one that ran from the start, on any grid, and its status array once an update has run process() |
| Deployment.ExactlyOnce | common/itrc.c:1320-1332 | for each client the forwarded sequence pairs strictly increase, across repeats, reordering and transfers |
| Deployment.EverythingAsked | common/itrc.c:1306-1342 | a correct replica waiting for no state has put to its master exactly what the log prescribes since its last installed state: every executed update, every transfer for another replica, nothing else |
| Releasing.EveryAnswerReleased | common/itrc.c:928-1014 | in every run each answer a correct replica took from its master is out, signed, under the ordinal of its question |
| Answering.FindSwitchExact | scada_master/scada_master.c:608-627 | the nested search finds the first switch with an identifier, and finds one whenever there is one |
| Answering.AnsweredExactly | scada_master/scada_master.c:572-675 | a valid update is answered exactly when it is field data, a benchmark, or a command naming a device that can act |
| Answering.PairingExact | common/itrc.c:942-953 | a master gives as many answers as questions exactly when it answered each one |
| Answering.AnswerMisplaced | scada_master/scada_master.c:629-633 | after one unanswered command the next answer is signed under the command's ordinal |
| Grid.WriteAllAt | scada_master/scada_master.c:504-512 | a status entry holds what was written to it last, or its old value |
| Grid.StatForgetsPast | scada_master/scada_master.c:504-512 | after processing, the whole status array follows from switches and transformers alone |
| Grid.StatShowsDevices | scada_master/scada_master.c:504-512 | with distinct identifiers every entry shows its own device's status |
| GridLaws.PoweredExactly | scada_master/scada_master.c:456-494 | a substation has power exactly when a route leads to it from the first, over lines with both switches closed and substations with working transformers |
| GridLaws.PowerGrows | scada_master/scada_master.c:456-494 | closing switches and repairing transformers never takes power away |
| GridLaws.ShownExactly | scada_master/scada_master.c:496-512 | what operators see of every device, in terms of switches, transformers and routes |
| GridLaws.SharedExactly | scada_master/scada_master.c:504-512 | which device is shown where several share an identifier |
| GridSearch.SearchExact | scada_master/scada_master.c:470-494 | when everything enqueued has been expanded the marks are exactly the reachable substations and energized lines |
| ScadaMaster.Master.Search | scada_master/scada_master.c:456-494 | the search ends with exact marks; each reachable substation enters the queue once and no other does |
| ScadaMaster.Master.Process | scada_master/scada_master.c:456-514 | line, substation and status arrays end as the grid prescribes; tripped lines show 2 |
| ScadaMaster.Master.ReadJhu | scada_master/scada_master.c:536-559 | unknown values are ignored, an unknown substation changes nothing, everything else is recomputed |
| ScadaMaster.Master.OnRtu | scada_master/scada_master.c:517-569 | in place, field data of every scenario is taken over and answered as specified |
| ScadaMaster.Master.OnHmi | scada_master/scada_master.c:572-675 | in place, a command is answered for the device it names, or not at all, as specified |
| FieldTraffic.MergeExactly | scada_master/scada_master.c:544-551 | each word of a report goes to the switch at its place, if it is 0, 1 or 2, and no other switch changes |
| FieldTraffic.ReportExactly | scada_master/scada_master.c:517-557 | what a substation's report changes, and what operators get for it |
| FieldTraffic.OtherFieldData | scada_master/scada_master.c:558-568 | the PNNL and EMS payloads replace the data they are for |
| FieldTraffic.OtherUpdates | scada_master/scada_master.c:211-218 | a benchmark comes back with its own numbers and no times; nothing else is answered or changed |
| FieldTraffic.FeedbackExactly | scada_master/scada_master.c:572-675 | what a command sends: to the first device named, or the breaker or generator numbered, the opposite of its status, on, off, or the new target |
| FieldTraffic.CommandKeeps | scada_master/scada_master.c:572-675 | a command changes nothing in the master but the target of the generator it names |
| FieldTraffic.CommandTakesEffect | scada_master/scada_master.c:517-675 | once the field has carried out and reported a command, the master holds the opposite of the status before, at the device named |
| ScadaMaster.Master.Reset | scada_master/scada_master.c:226-241 | a system reset closes and lights everything, blanks PNNL data and leaves EMS data |
| ScadaMaster.Master.OnUpdate | scada_master/scada_master.c:175-218 | each kind of update goes to its handler, with the specified answer and effect |
| ScadaMaster.Master.Handle | scada_master/scada_master.c:175-245 | one turn of the loop takes exactly the specified step; only a state to install can fail |
| ScadaMaster.Master.PackState | scada_master/scada_master.c:677-742 | the buffer holds exactly the packed state and is never overrun |
| ScadaMaster.Master.ApplyState | scada_master/scada_master.c:744-788 | foreign and over-long states are dropped; otherwise the state is restored and processed exactly when the bytes are well formed |
| ScadaMaster.TransferState | scada_master/scada_master.c:677-788 | what one master packs another applies without failing, ending equivalent to the sender once processed |
| Fifo.Queue.Enqueue | scada_master/queue.c:55-64 | the pointer queue appends at its end |
| Fifo.Queue.Dequeue | scada_master/queue.c:66-78 | the oldest value leaves, the rest stays in order; nothing comes out of an empty queue |
| Fifo.Queue.Delete | scada_master/queue.c:84-89 | deleting empties the queue |
| StateCodec.RoundTrip | scada_master/scada_master.c:691-786 | unpacking restores every transformer and switch and the PNNL bytes after the padding, whatever was there; the cursor ends at the size |
| StateCodec.PackedSize | scada_master/scada_master.c:691-724 | n substations take at most 19n + 68 bytes |
| StateCodec.LayoutExactly | scada_master/scada_master.c:691-724 | where each number, status and PNNL byte stands |
| ScadaSpec.StepEquiv | scada_master/scada_master.c:517-675 | masters that differ in EMS data and PNNL padding only give the same answers and stay so |
| ScadaSpec.InstallCopies | scada_master/scada_master.c:744-788 | installing a packed state gives the sender's state, processed |
| ScadaSpec.InstallDrops | scada_master/scada_master.c:744-760 | a state for another replica, or a longer one than a message holds, changes nothing |
| ScadaSpec.StartExactly | scada_master/scada_master.c:226-241 | a reset master shows everything closed and powered and keeps its EMS data, a fresh one has none |
| ScadaSpec.OnUpdateNear | scada_master/scada_master.c:517-675 | masters that differ in a processed status array stay so; the answer is the other's, before or after processing, and an update that processes makes them alike |
| ScadaSpec.AnswersAlikeExactly | scada_master/scada_master.c:538-544 | all masters near one answer an update as it does exactly when the update does not show its status array unprocessed |
| ScadaSpec.StartAgreesExactly | scada_master/scada_master.c:538-544 | starting and joining give the same answers to all the channel forwards exactly when the untouched status array is what processing computes, or field data cannot name a missing substation |
| ScadaSpec.PoweredAtStartExactly | scada_master/scada_master.c:427-441 | with distinct identifiers that is when every substation is reachable with everything closed |
| JsonStrings.Utf8RoundTrip | config/cJSON.c:586-627 | a UTF-8 reader gets exactly the encoded code point back |
| JsonStrings.DigitExact | config/cJSON.c:369-452 | the sixteen digits in both cases, valued by their place, and no other |
| JsonStrings.SimpleEscapeExact | config/cJSON.c:519-540 | the eight characters that may follow a backslash, with their bytes, and no other |
| JsonStrings.DecodeExact | config/cJSON.c:509-634 | the decoder accepts exactly the rows of plain, escaped and coded pieces and gives their meaning, pairs included, digits and escapes by table |
| JsonStrings.BadUnitsRefused | config/cJSON.c:543-584 | lone surrogates and the NUL are refused |
| JsonStrings.DecodeFits | config/cJSON.c:484-498 | decoding never writes more than the first pass counted |
| JsonStrings.UnclosedReads | config/cJSON.c:484-498 | a literal without its closing quote reads as it would with the quote |
| JsonStrings.ReadString | config/cJSON.c:467-641 | the two passes compute the specified result within len + 1 bytes |
| JsonStrings.PutUtf8 | config/cJSON.c:586-627 | the bytes written backwards are the standard's encoding |
| JsonStrings.EscapeExactly | config/cJSON.c:739-786 | which characters are printed as themselves, which with a short escape and which as a code |
| JsonStrings.QuoteReads | config/cJSON.c:644-786 | parsing a printed string gives it back, whatever follows |
| JsonStrings.StringNeeds | config/cJSON.c:673-722 | the measured length is the escaped text's, and without the flag nothing needs escaping |
| JsonStrings.WriteQuoted | config/cJSON.c:683-786 | both printing paths write the quoted text and its NUL into the measured space |
| JsonText.NumReads | config/cJSON.c:147-214 | a printed 32-bit integer reads back as itself |
| JsonText.LoneMinusReads | config/cJSON.c:147-214 | a minus sign without digits reads as zero |
| JsonText.ValueReads | config/cJSON.c:886-931 | any printed value reads back as the tree, leaving exactly what follows it |
| JsonText.RoundTrip | config/cJSON.c:854-868 | parsing either print of any tree gives the tree back, order and duplicate keys kept |
| JsonText.PrintInjective | config/cJSON.c:860-868 | different trees print differently |
| JsonText.LayoutExample | config/cJSON.c:1394-1489 | an example of both layouts, character by character |
| JsonGrammar.StringExactly | config/cJSON.c:467-641 | the literals accepted, the one missing its closing quote included |
| JsonGrammar.NumberExactly | config/cJSON.c:147-214 | the integers accepted, as far as they go, the lone sign and a leading zero included |
| JsonGrammar.ParseExactly | config/cJSON.c:886-931 | the parser accepts exactly the texts of the grammar, white space at every place it allows, with exactly their trees and leaving exactly the rest |
| JsonGrammar.FailsExactly | config/cJSON.c:886-931 | when the parser gives up and at which position: exactly where the grammar breaks off |
| JsonGrammar.DocumentExactly | config/cJSON.c:814-857 | the same for a document with white space at its front |
| JsonReader.ReadValue | config/cJSON.c:886-931 | the source's parser computes the specified result, errors and their positions included |
| JsonReader.ReadItems | config/cJSON.c:1037-1077 | the element loop collects the children in order and stops as specified |
| JsonReader.ReadMembers | config/cJSON.c:1263-1338 | the member loop collects keys and values in order and stops as specified |
| JsonMinify.MinifyPrint | config/cJSON.c:2166-2228 | minifying the formatted print of any tree gives its unformatted print |
| JsonMinify.QuoteCopied | config/cJSON.c:2205-2218 | nothing inside a printed string literal changes |
| JsonMinify.MinifyExactly | config/cJSON.c:2166-2228 | the cursor stays inside the text exactly when every literal and block comment is closed, and then exactly what one reading keeps is left: literals whole, comments and white space not at all |
| JsonMinify.MinifyInPlace | config/cJSON.c:2166-2228 | the two-cursor loop leaves just that in the same array, and otherwise tells that the text would be left |
| PowerOfTwo.Pow2gtExact | config/cJSON.c:217-235 | the bit smearing gives the least power of two not below its argument |
| JsonBuffer.PrintBuffer.Ensure | config/cJSON.c:245-278 | there is room afterwards, what was written stays, and growth is to no more than the least power of two that suffices |
| JsonBuffer.PrintBuffer.Update | config/cJSON.c:281-291 | the offset moves to the end of the text |
| JsonBuffer.PrintBuffer.PrintValue | config/cJSON.c:934-1010 | a value's text lands at the offset, terminated, with everything before it kept |
| JsonBuffer.PrintBuffer.PrintArray | config/cJSON.c:1119-1163 | the composed elements are the array's text |
| JsonBuffer.PrintBuffer.PrintObject | config/cJSON.c:1394-1489 | the composed members are the object's text |
| JsonBuffer.PrintBuffered | config/cJSON.c:870-882 | from any initial size of at least one the buffered printer gives the specified text |
| JsonMeasured.PrintMeasured | config/cJSON.c:934-1010 | the measuring printer gives the specified text |
| JsonMeasured.ArrayMeasured | config/cJSON.c:1164-1240 | the space added up for an array is enough for its text |
| JsonMeasured.ObjectMeasured | config/cJSON.c:1490-1612 | the space added up for an object is enough for its text |
| JsonMeasured.BothPrinters | config/cJSON.c:860-882 | the two printers give one text, which parses back to the tree |
| JsonList.ChildList.Append | config/cJSON.c:1656-1699 | appending links the item at the end, both ways |
| JsonList.ChildList.Detach | config/cJSON.c:1744-1774 | the indexed item comes out pointing nowhere and the rest closes up |
| JsonList.ChildList.Insert | config/cJSON.c:1804-1828 | the item goes before the indexed one, or to the end |
| JsonList.ChildList.Replace | config/cJSON.c:1830-1858 | the item takes the indexed one's place, which is cut off |

## Left out

- Sockets, Spines, IPC, select loops, reconnect timers, threads and files: each received message is a step; a broken internal link is messages that do not arrive, a broken external link is a lack of credit.
- The RSA signatures, digests and threshold cryptography of `common/openssl_rsa.c` and `common/tc_wrapper.c`: replaced by ideal ones; equal digests stand for equal states.
- Prime: taken as an ordered stream that may be delivered in any order and repeatedly.
- ITRC_Prime_Inject: only the number of requests for a state transfer is kept.
- The update history and the progress printing of a replica, which nothing reads back.
- Messages whose client index is outside the progress array: an operator's index is in range by type, and field data is validated as in the source.
- Liveness: nothing is said about what must eventually arrive.
- Deployment.ClientsAgree: says nothing at an ordinal whose update shows a status array that was never processed; there `OneAnswerExactly` has two different allowed answers.
- EMS data in the transfer theorems: the source does not transfer it.
- The topology file and its parsing in `init()`: a well-formed topology is a parameter, and statuses are addressed by index instead of by pointer.
- ItrcReplica.Replica.Handle: the queue of ordinals and the buffer of pending messages belong to a library that is not part of this model; they are sequence fields.
- The lists of children inside the parser: trees are values there, and the linked list has its own class.
- Floating-point numbers in `config/cJSON.c`, and integers outside 32 bits: parsing one is reported as not modelled.
- Allocation failure, hooks, references and case-insensitive lookup in `config/cJSON.c`.
- JsonBuffer.PrintBuffered: texts that come near 2^30 bytes, where the source's int arithmetic ends.
- UTF-8 bytes and hexadecimal digits are computed with division and remainder where the source masks and shifts; only the rounding to a power of two is modelled on bits.
- The human-machine interfaces, the DNP3, Modbus and proxy drivers, and the benchmarks.
