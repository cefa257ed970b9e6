# udx-fastpath: verified model of the data-path control logic

This project models, in Dafny, the parts of the user plane function and its DPDK/CNDP data path
where counting, ownership and ordering matter, and proves what they guarantee:

- the forwarding scheduler, which maps (port, queue) pairs to streams and streams to lcores, alone
  or divided over several processes, and the check for shared receive queues
  (`Arith`, `FwdPlan`, `FwdProcesses`, `FwdScheduler`);
- the life cycle of ports under commands and driver failures, with destroy events during any driver
  call and between a test of a status and the write after it (`PortLifecycle`);
- the linked-list registries of flow templates, tables, indirect actions and flow rules, with batch
  destruction, roll-back and the sorted listing (`RegistrySpec`, `Registry`, `FlowRules`);
- the multicast address pool and its agreement with the driver (`McastPool`);
- the arrays of port ids under hot-plug, on which the scheduler relies (`Common`, `Distinctness`,
  `PortIds`);
- the parsers of port lists and item lists (`DecimalText`, `PortList`, `ItemList`);
- the retrying transmit and the CNDP run-to-completion pass (`Transmit`, `RunToCompletion`);
- GTP-U uplink decapsulation (3GPP TS 29.281, with the PDU session container of
  section 5.5.2 of 3GPP TS 38.415) (`GtpUplink`).

`dafny verify dfyconfig.toml` checks everything.

Code that works in place is modelled in place: arrays of lcores, streams, port ids and addresses,
lists of nodes linked through `next` and `tmp`, a packet buffer with an offset. Each such method is
proved against a function of the state before it, and the guarantees are lemmas about those
functions. Calls into the driver, the allocator and the packet handlers are answers given from
outside: parameters where a result depends on them, arbitrary values elsewhere.

Some expected guarantees do not hold of the code as it is. Each of them comes with the condition
under which it does hold, proved in both directions:

- Every (port, queue) pair is polled exactly when their number fits the 16-bit stream count
  (`ExactCover`); otherwise nobody polls the last queue of the last port (`LastPairLost`).
- The number of allocated streams is a separate 16-bit product and can wrap although the streams in
  use fit (`AllocationCanWrap`). Every stream that an lcore runs exists exactly when the count in use
  is at most the count allocated (`AllocationCoversIff`).
- The error message advises as many lcores as receive queues against split shared queues. That cures
  every split exactly when there are at least as many send queues as receive queues
  (`AdviceWorksIff`). In general a queue is split exactly when two ports of one switch domain and one
  block of ports have it on different lcores (`SplitIff`).
- Processes never share a queue exactly when there are at least as many queues as processes
  (`ProcessesExclusiveIff`). They leave none out exactly when their number divides the number of
  queues or exceeds it (`ProcessesCoverIff`); otherwise nobody polls the last queue of any port.
  Inside a process each queue is polled by one stream exactly when there is no other process, because
  the number of streams does not shrink with the range of the process (`PolledOnceIff`).
- `set_fwd_ports_list` checks ids for validity only, and `setup_attached_port` checks nothing. A run
  keeps the arrays in order exactly when each list is refused or names different known ports and each
  attached port is unknown (`StepKeepsIff`, `RunKeepsIff`).
- A port that loses its device is not always recorded as closed. It is marked as started exactly when
  that is written after the destroy event: when its own stop is refused, a write made without a test,
  and in a start when the event falls between a test of its status and the write that follows
  (`StopOne`, `StartOne`, `PortManager.Run`). With a device, every port marked as started is ready.
- A start that gives up at a port marks what was not done for the next start exactly when the driver
  refused it something; otherwise the port stays in handling, and no start takes it up again
  (`AfterFailure`).
- Pool and driver hold the same multicast addresses at every point exactly when no refused removal
  fails to be undone for lack of memory (`McastPool.RunAgreesIff`); the driver always holds at least
  those of the pool. Adding a new address has no defined effect exactly when it needs memory, there is
  none and the driver refuses (`McastPort.Add`).
- The preparation of tunnel actions for a new flow rule is released except, exactly, when the record of
  the rule cannot be built (`CreateFlow`).
- A queued flow creation that the driver refuses destroys the rule of an id that is not set yet. It
  leaves the rules alone exactly when there is no rule 0 or the driver keeps it
  (`RefusedQueueCreateKeepsIff`). Updating a rule has no defined effect exactly when the rule was not
  made from a table (`UpdateFlow`).
- Port lists are documented as ids and ranges. All of these are read as documented
  (`WellFormedListsParse`), but other texts are accepted too, and `ScanIff` gives exactly which: a
  missing number counts as port 0 unless the text ends there, a range without an end is dropped,
  signs and any white space before a number are taken, and numbers are cut to 32 bits
  (`EmptyItemIsPortZero`, `OpenRangeIsDropped`).
- Item lists longer than 128 characters are cut without notice: a list is read back exactly when there
  is room, the values differ where they must, and its text fits or only the digit of a final 0 is cut
  off (`RoundTripIff`).
- The GTP-U parser always evaluates the fourth optional byte and assumes two fixed lengths. A matching
  rule decapsulates a packet exactly when one of the E, S and PN flags is set and, with no extension
  headers, E is set or that byte is 0, or the extension headers start with a PDU session container
  and take 4 bytes for an uplink one or 8 for a downlink one (`DecapsulatesIff`).
- A zero result of a batch destroy means that no named entry is left (`ZeroMeansGone`). A non-zero one
  means that some entry is left, whatever the driver answers, exactly when no entry with a handle is
  named twice (`ResultTellsIff`).

What the driver answers to each call is a parameter of the commands on ports, of the transmit and of
the registries. A negative code refuses a start or a multicast list, any code but 0 refuses the other
calls, and a refused start, stop or reset leaves the device as it was; a refused configuration may leave
anything behind. A device that is lost does not come back during the same command.

## Model

| member | source | states |
|---|---|---|
| FwdPlan.TopologyIsPermutation | lib/core/dpdk/config.c:4505-4530 | each port topology is injective and onto on the forwarding ports |
| FwdPlan.PairedIsInvolution | lib/core/dpdk/config.c:4512-4524 | with the paired topology, the partner of a port's partner is the port |
| FwdPlan.StreamsSendRight | lib/core/dpdk/config.c:4505-4530 | every stream sends on the queue it polls: in the loop topology to its own port, in the chained one to the next, in the paired one to the other of ports number 2k and 2k+1, the last of an odd number to itself; the peer address is that of the send port |
| FwdPlan.ChainedIsOneCycle | lib/core/dpdk/config.c:4525-4526 | the chained topology is a single cycle through all the ports, of length exactly their number |
| FwdPlan.LcoresTile | lib/core/dpdk/config.c:4467-4503 | the streams of the lcores are consecutive intervals from 0 to the stream count, none empty, with sizes that differ by at most one and never decrease |
| FwdPlan.LcoresUsed | lib/core/dpdk/config.c:4582-4589 | all configured lcores are used, or each of the used ones runs one stream |
| FwdPlan.TilingOwner | lib/core/dpdk/config.c:4487-4502 | every stream is run by exactly one lcore |
| FwdPlan.ExactCover | lib/core/dpdk/config.c:4570-4632 | in one process over different ports no pair is polled twice, only pairs below the common queue count are, and all of them exactly when their number fits 16 bits |
| FwdPlan.LastPairLost | lib/core/dpdk/config.c:4584-4585 | when the stream count wraps, no stream polls the last queue of the last port |
| FwdPlan.NoSharedTxQueue | lib/core/dpdk/config.c:4610-4631 | in one process no two streams send on the same queue of the same port |
| FwdPlan.ExclusivePolling | lib/core/dpdk/config.c:4592-4631 | every pair is polled by an lcore, and by no other one |
| FwdProcesses.ProcessPollsItsCycle | lib/core/dpdk/config.c:4606-4631 | a process polls, on each forwarding port, exactly the queues of its own range |
| FwdProcesses.ProcessesExclusiveIff | lib/core/dpdk/config.c:4599-4631 | different processes never poll the same queue of a port if and only if there are at least as many queues as processes |
| FwdProcesses.ProcessesCoverIff | lib/core/dpdk/config.c:4596-4631 | the processes poll no queue beyond the common count, and all below it if and only if their number divides that count or exceeds it |
| FwdProcesses.LastQueueUnpolled | lib/core/dpdk/config.c:4596-4597 | otherwise no process polls the last queue of any forwarding port |
| FwdProcesses.PolledOnceIff | lib/core/dpdk/config.c:4584-4631 | no two streams of a process poll the same pair if and only if there is only one process |
| FwdScheduler.Scheduler.SetupLcores | lib/core/dpdk/config.c:4467-4503 | the lcore array becomes the balanced split of the streams, other slots are untouched |
| FwdScheduler.Scheduler.FillLcores | lib/core/dpdk/config.c:4487-4502 | a run of lcores with equal load gets the intervals of the split, in place |
| FwdScheduler.Scheduler.InitStreams | lib/core/dpdk/dpdk.cpp:1653-1731 | refused, with nothing changed, exactly when a device has too few queues; else as many streams as ports times the larger queue count, in 16 bits, new ones only when that count changes |
| FwdScheduler.Scheduler.RssSetup | lib/core/dpdk/config.c:4570-4632 | whenever the allocated streams cover those in use, the arrays hold the planned streams and lcores |
| FwdScheduler.Scheduler.RoundRobin | lib/core/dpdk/config.c:4606-4631 | the round-robin fills stream `s` with port `s mod ports` and the queue of round `s / ports` |
| FwdScheduler.Scheduler.SimpleSetup | lib/core/dpdk/config.c:4532-4562 | the arrays hold one stream per port, on queue 0, and the split over lcores |
| FwdScheduler.Scheduler.ConfigSetup | lib/core/dpdk/config.c:4819-4830 | whichever set-up is chosen, the arrays hold the plan, and every stream polls a forwarding port and sends where the topology says |
| FwdScheduler.AllocationCoversIff | lib/core/dpdk/dpdk.cpp:1691-1698 | every stream that an lcore is given is among the allocated ones if and only if the count in use is at most the count allocated |
| FwdScheduler.AllocationCovers | lib/core/dpdk/dpdk.cpp:1691-1698 | which holds when the allocated count does not wrap and the forwarding ports are no more than the known ones; there is then a stream for every port and every receive or send queue |
| FwdScheduler.AllocationCanWrap | lib/core/dpdk/dpdk.cpp:1691-1698 | a configuration whose streams fit 16 bits but exceed what is allocated |
| FwdScheduler.Scheduler.OnOtherLcores | lib/core/dpdk/config.c:4368-4411 | true exactly when a later lcore runs a stream on the same shared queue |
| FwdScheduler.Scheduler.SharedRxqCheck | lib/core/dpdk/config.c:4413-4461 | with sharing on, true exactly when no two lcores read the same shared queue; on success each stream records an lcore that runs it |
| FwdScheduler.Scheduler.Prepare | lib/core/dpdk/dpdk.cpp:2464-2468 | set-up and check together decide that rule for the plan; on ports configured to share they fail exactly when two ports have a queue split, and pass with the advised lcore count when there are enough send queues |
| FwdScheduler.SplitIff | lib/core/dpdk/config.c:4368-4461 | on such ports a queue is split if and only if two different ports of one switch domain and one block of ports have it polled by different lcores |
| FwdScheduler.ConfigureShares | lib/core/dpdk/dpdk.cpp:3675-3683 | the share group and queue id of each receive queue, in place |
| FwdScheduler.GroupsAreBlocks | lib/core/dpdk/dpdk.cpp:3675-3683 | two ports are in one group if and only if they lie in one block of `rxq_share` consecutive ids, and no group is 0 |
| FwdScheduler.Scheduler.ConfigurePorts | lib/core/dpdk/dpdk.cpp:3773-3816 | the devices before the first that the driver fails to describe get their sharing, the others keep theirs; with all of them done, the ports are configured as the advice supposes |
| FwdScheduler.OneQueuePerLcore | lib/core/dpdk/config.c:4405-4408 | with as many lcores as receive queues, lcore k polls queue k of every port, and nothing else |
| FwdScheduler.AdvisedLcoresSuffice | lib/core/dpdk/config.c:4405-4461 | so the check passes for every port count and every share grouping |
| FwdScheduler.AdviceWorksIff | lib/core/dpdk/config.c:4405-4408 | the advice cures every split if and only if there are at least as many send queues as receive queues |
| PortLifecycle.PortManager.Events | lib/core/dpdk/dpdk.cpp:3542-3569 | destroy events close any of the ports and change nothing else |
| PortLifecycle.PortManager.Configure | lib/core/dpdk/dpdk.cpp:2887-2936 | it succeeds exactly when nothing is due or the driver does all of it; then the device is configured and the flag is clear, else the record is that of the failure |
| PortLifecycle.PortManager.SetupQueues | lib/core/dpdk/dpdk.cpp:2937-3001 | it succeeds exactly when nothing is due or the driver sets up every queue; then all of them are up, else they are marked for another try or the port stays in handling |
| PortLifecycle.PortManager.SetupHairpin | lib/core/dpdk/dpdk.cpp:2633-2679 | a refused hairpin queue, and nothing else, puts the port back to stopped with its queues marked |
| PortLifecycle.PortManager.StartOne | lib/core/dpdk/dpdk.cpp:2872-3036 | a port that is not stopped is untouched; a stopped one gets the record and the device state that the answers of the driver determine; the round aborts exactly when something due cannot be done; a lost port is overwritten only if the driver started it |
| PortLifecycle.PortManager.Launch | lib/core/dpdk/dpdk.cpp:3012-3028 | the device is started, and the port marked so, exactly when the driver answers no negative code |
| PortLifecycle.PortManager.AfterStartIsOutcome | lib/core/dpdk/dpdk.cpp:2872-3036 | a stopped port ends as started if and only if everything due can be done and the driver starts the device |
| PortLifecycle.PortManager.AfterFailure | lib/core/dpdk/dpdk.cpp:2887-3001 | a failed start leaves the port stopped with a mark if and only if the driver refused something, else in handling without one |
| PortLifecycle.PortManager.MarkStarted | lib/core/dpdk/dpdk.cpp:3025-3028 | the write after the test marks the port as started, and it is overwritten if and only if it was lost by then |
| PortLifecycle.PortManager.BackToStopped | lib/core/dpdk/dpdk.cpp:2909-2917 | after a failure a port that keeps its device is stopped and marked for what has to be done again; a lost one is never marked as started |
| PortLifecycle.PortManager.StartPort | lib/core/dpdk/dpdk.cpp:2853-3085 | the same for one port or all; with a zero result every selected stopped port had its round; a failure comes from the first port for which something due cannot be done, with the later ones spared, or from binding hairpin queues |
| PortLifecycle.PortManager.StopPort | lib/core/dpdk/dpdk.cpp:3089-3154 | only started ports that do not forward change, and only in status; one with a device ends as stopped exactly when the driver stops it, and as started exactly when it refuses; a lost one is overwritten only if its own stop was refused |
| PortLifecycle.PortManager.StopOne | lib/core/dpdk/dpdk.cpp:3104-3148 | a lost port ends as started, its closed status overwritten, if and only if its stop is refused |
| PortLifecycle.PortManager.ResetPort | lib/core/dpdk/dpdk.cpp:3225-3265 | exactly when all selected ports are stopped, those that do not forward and that the driver resets are blank and marked for configuration; every other port is untouched or lost |
| PortLifecycle.PortManager.ClosePort | lib/core/dpdk/dpdk.cpp:3185-3223 | exactly the selected ports that do not forward and are not closed go away, besides those with a destroy event |
| PortLifecycle.PortManager.OnDestroy | lib/core/dpdk/dpdk.cpp:3566-3569 | the destroy event closes the port and drops its device |
| PortLifecycle.PortManager.OnNew | lib/core/dpdk/dpdk.cpp:3556-3559 | the new-device event puts the port in handling, waiting for its set-up |
| PortLifecycle.PortManager.AttachPort | lib/core/dpdk/dpdk.cpp:3267-3323 | in either mode the ports to set up are stopped and marked for configuration, and every other port that keeps its device is unchanged but for its new-device event |
| PortLifecycle.PortManager.Run | lib/core/dpdk/dpdk.cpp:2853-3323 | over every run, with destroy events at any point, a port with a device that is marked as started is configured, has all its queues set up since its last reset or attach, and was started; one without a device is marked as started exactly when that was written after its loss |
| RegistrySpec.InsertKeeps | lib/core/dpdk/config.c:1589-1601 | sorted insertion of a free id keeps the list strictly descending and adds nothing else |
| RegistrySpec.AutoIdIsFree | lib/core/dpdk/config.c:1571-1583 | an id chosen by the registry never collides and is below the reserved one |
| RegistrySpec.AllocStatusIs | lib/core/dpdk/config.c:1571-1598 | refused for memory without memory or without an id to choose, refused as existing exactly when the given id is taken |
| RegistrySpec.CreateAdds | lib/core/dpdk/config.c:2229-2253 | a create adds the one entry with the id asked for, or one above the highest, and the handle of the driver, or nothing |
| RegistrySpec.AcceptedBatchTakes | lib/core/dpdk/config.c:2256-2297 | an accepted batch takes exactly the entries whose id, or user id, is among the names |
| RegistrySpec.NullHandlesGo | lib/core/dpdk/config.c:2281-2291 | an entry without a handle survives no flush and no batch that names it |
| RegistrySpec.SurvivorsAre | lib/core/dpdk/config.c:2256-2297 | a sweep leaves exactly the entries that are not named or are refused at every attempt, in order |
| RegistrySpec.ZeroMeansGone | lib/core/dpdk/config.c:2256-2297 | a batch that returns zero leaves none of the entries it names |
| RegistrySpec.NoComplaintNoSurvivor | lib/core/dpdk/config.c:2269-2292 | an entry with no refused attempt does not survive being named |
| RegistrySpec.ComplaintWithoutSurvivor | lib/core/dpdk/config.c:2269-2292 | for every entry with a handle that is named twice, answers that make the batch complain and leave nothing |
| RegistrySpec.ResultTellsIff | lib/core/dpdk/config.c:2256-2297 | zero exactly when no named entry is left, for all answers of the driver, if and only if no entry with a handle is named twice |
| RegistrySpec.RunKeeps | lib/core/dpdk/config.c:1565-1646 | every run of creates, batch destroys and flushes keeps a registry strictly descending and below the reserved id |
| Registry.List.Unlink | lib/core/dpdk/config.c:2288-2291 | taking a node out relinks the list around it |
| Registry.List.Link | lib/core/dpdk/config.c:1599-1601 | putting a node in keeps the order of the others |
| Registry.List.Alloc | lib/core/dpdk/config.c:1565-1604 | a free id gets a node at its place with a null handle; a taken id or missing memory leaves the list alone |
| Registry.List.Create | lib/core/dpdk/config.c:2229-2253 | a create refused by the driver restores exactly the nodes that were there before |
| Registry.List.Destroy | lib/core/dpdk/config.c:2256-2297 | the list becomes the survivors of the batch, and the result is zero exactly when no attempt was refused |
| Registry.List.TryEntry | lib/core/dpdk/config.c:2269-2292 | the inner loop: an entry goes exactly when some attempt on it succeeds |
| Registry.List.Flush | lib/core/dpdk/config.c:2300-2331 | a flush leaves exactly the refused entries, and returns zero exactly when it leaves none |
| Registry.List.Run | lib/core/dpdk/config.c:1565-2331 | over every run the linked list is well formed and holds the specified entries, strictly descending below the reserved id |
| FlowRules.RunKeeps | lib/core/dpdk/config.c:2595-3560 | every run of rule creation, direct or queued, update, destruction and flush keeps the rules strictly descending, within 32 bits and with handles |
| FlowRules.CreationAdds | lib/core/dpdk/config.c:3421-3484 | a creation adds one rule at the front with the given group, priority, user id and handle and the next id, or nothing |
| FlowRules.QueuedCreationAdds | lib/core/dpdk/config.c:2595-2689 | so does an accepted queued creation, from a table and without a user id |
| FlowRules.UpdateChanges | lib/core/dpdk/config.c:2773-2853 | an update changes the attributes and the user id of the one rule with that id, and nothing else |
| FlowRules.Run | lib/core/dpdk/config.c:2595-3560 | the linked list follows that specification over every run, up to an update without defined effect |
| FlowRules.CreateFlow | lib/core/dpdk/config.c:3421-3484 | a new rule goes to the front with the next id, or nothing changes; a tunnel preparation stays unreleased exactly when the record of the rule cannot be built |
| FlowRules.QueueCreateFlow | lib/core/dpdk/config.c:2595-2689 | a queued rule goes to the front with the next id; a refused one takes rule 0 away if the driver lets it |
| FlowRules.RefusedQueueCreateKeepsIff | lib/core/dpdk/config.c:2673-2678 | a refused queued creation leaves the rules as they were if and only if there is no rule 0 or the driver refuses to destroy it |
| FlowRules.UpdateFlow | lib/core/dpdk/config.c:2773-2853 | an update replaces one rule of a table in place with the same id and handle; a null table is read exactly when the rule has none |
| FlowRules.FlushFlows | lib/core/dpdk/config.c:3533-3560 | the rules are emptied whatever the driver says |
| FlowRules.ListFlows | lib/core/dpdk/config.c:3775-3814 | the printed chain holds exactly the rules of the wanted groups, once each, in ascending order of group, priority and id; the registry is untouched |
| FlowRules.GreaterIsRank | lib/core/dpdk/config.c:3800-3808 | the comparison is that of group, priority and id read as one number |
| FlowRules.SortedAround | lib/core/dpdk/config.c:3799-3813 | the insertion point found by the inner loop keeps the chain sorted |
| McastPool.RunKeeps | lib/core/dpdk/config.c:6344-6504 | over every run, whatever fails, the addresses are different and the driver has all of them |
| McastPool.RunAgreesIff | lib/core/dpdk/config.c:6344-6504 | they are at every point exactly those that the driver accepted last if and only if no refused removal is lost |
| McastPool.ApplyAgreesIff | lib/core/dpdk/config.c:6435-6504 | a call ends the agreement if and only if it is a refused removal that needs memory to be undone and gets none |
| McastPool.ContentsAfter | lib/core/dpdk/config.c:6435-6504 | an accepted add brings the address in, an accepted removal takes that address out, an accepted flush takes all; other calls leave the set alone, but for a lost removal |
| McastPool.RunHolds | lib/core/dpdk/config.c:6344-6504 | over every run an address is in the pool if and only if the last call with an effect on it added it |
| McastPool.NoRoomIff | lib/core/dpdk/config.c:6344-6383 | memory is needed exactly at the multiples of 32 |
| McastPool.WithoutKeeps | lib/core/dpdk/config.c:6386-6400 | removing an address removes nothing else, and putting it back restores the set |
| McastPool.McastPort.Append | lib/core/dpdk/config.c:6344-6383 | the address is added at the end unless the array has to grow and cannot; the capacity covers the count in steps of 32 |
| McastPool.McastPort.RemoveAt | lib/core/dpdk/config.c:6386-6400 | the gap is closed in place, and the array is freed with its last address |
| McastPool.McastPort.Add | lib/core/dpdk/config.c:6435-6460 | a known or refused address changes nothing, otherwise pool and driver both get it if there is memory; the roll-back runs out of the array exactly when memory and driver fail together |
| McastPool.McastPort.Remove | lib/core/dpdk/config.c:6462-6488 | an accepted removal takes the address from both; a refused one puts it back at the end, if there is memory |
| McastPool.McastPort.Flush | lib/core/dpdk/config.c:6490-6504 | an accepted flush empties both, a refused one changes nothing |
| McastPool.Run | lib/core/dpdk/config.c:6344-6504 | the array follows the specification over any run, up to a call without defined effect, and holds the addresses last added |
| Distinctness.KeepKeeps | lib/core/dpdk/dpdk.cpp:3156-3166 | compaction keeps exactly the wanted ids, and keeps them different |
| Distinctness.KeepInOrder | lib/core/dpdk/dpdk.cpp:3156-3166 | and in their order |
| PortIds.StepKeepsIff | lib/core/dpdk/dpdk.cpp:3156-3317 | a step keeps the ids different, known and counted in order if and only if a list is refused or names different known ports and an attached port is unknown |
| PortIds.RunKeepsIff | include/core/dpdk/dpdk.h:545-551 | a run keeps forwarding <= configured <= known, different and known ids, at every point if and only if each step is sound where it is made |
| PortIds.UnknownFits | lib/core/dpdk/dpdk.cpp:3315-3317 | by pigeonhole there is always room for a port that is not known |
| PortIds.ForwardingAfter | lib/core/dpdk/config.c:4975-5133 | which ports forward after each step: the list as given, that many from the front of the configured ones, the attached port last, those whose device is left |
| PortIds.PortTable.constructor | lib/core/dpdk/dpdk.cpp:3996-4003 | the probed devices are recorded in order |
| PortIds.PortTable.SetDefault | lib/core/dpdk/dpdk.cpp:714-733 | all the known ports become forwarding ports |
| PortIds.PortTable.SetList | lib/core/dpdk/config.c:4975-5000 | all or nothing; the invariant is kept if and only if the list is refused or names different known ports |
| PortIds.PortTable.SetNumber | lib/core/dpdk/config.c:5123-5133 | a number above the configured ports is ignored |
| PortIds.PortTable.Attach | lib/core/dpdk/dpdk.cpp:3315-3317 | the port is appended to both arrays; the invariant is kept if and only if it was not known |
| Distinctness.Compact | lib/core/dpdk/dpdk.cpp:3156-3166 | in-place compaction computes the wanted ids in order |
| PortIds.PortTable.RemoveInvalid | lib/core/dpdk/dpdk.cpp:3168-3172 | removal keeps the arrays different, contained and in documented count order |
| PortIds.PortTable.Run | include/core/dpdk/dpdk.h:545-551 | the arrays follow the specification over every run, which ends early only before a step that does not fit the arrays or with one that is not sound |
| PortIds.PortTable.ForwardingIsExact | lib/core/dpdk/config.c:4570-4632 | on such arrays, when the pairs fit 16 bits, every configured pair is polled by one stream and by exactly one lcore |
| PortList.ScanKeeps | lib/core/dpdk/config.c:5028-5079 | whatever the text, the ids are different and below the limit |
| PortList.ToIntIs | lib/core/dpdk/config.c:5051-5054 | a number is kept when it fits an `int`, else cut modulo 2 to the power of 32 |
| PortList.StoreRange | lib/core/dpdk/config.c:5063-5071 | a range is added without repetition; by pigeonhole the capacity test never loses an id |
| PortList.ParsePortList | lib/core/dpdk/config.c:5028-5079 | the stored ids are those read from the text, 0 when it is refused |
| PortList.ScanIff | lib/core/dpdk/config.c:5028-5079 | a text is accepted with certain ids if and only if it is made of items and an end of the exact grammar and these are their ids, each at its first appearance |
| PortList.EmptyItemIsPortZero | lib/core/dpdk/config.c:5051-5056 | a lone comma is accepted as port 0 |
| PortList.OpenRangeIsDropped | lib/core/dpdk/config.c:5049-5058 | a range without an end is accepted and names nothing |
| PortList.WellFormedListsParse | lib/core/dpdk/config.c:5002-5079 | every documented list yields exactly the ids and ranges it names, in order of first appearance |
| PortList.ParseFwdPortlist | lib/core/dpdk/config.c:5081-5103 | the attached ids become the forwarding ports, all or none; the arrays stay in order if and only if the recorded ids are known |
| ItemList.ParseItemList | lib/core/dpdk/util.c:549-612 | the stored values are the result of reading the first 128 characters, 0 values when refused |
| ItemList.ReadAccepts | lib/core/dpdk/util.c:566-592 | a text is accepted if and only if it has only digits and commas and a digit before every comma; commas count the items |
| ItemList.ReadFields | lib/core/dpdk/util.c:566-592 | each field of an accepted text is its decimal value modulo 2 to the power of 32, an empty last one 0 |
| ItemList.AllDifferent | lib/core/dpdk/util.c:601-611 | the uniqueness test is true exactly when the values are pairwise different |
| ItemList.RoundTrip | lib/core/dpdk/util.c:549-612 | printed values are read back when there is room and, if asked for, they differ; otherwise the list is refused |
| ItemList.RoundTripIff | lib/core/dpdk/util.c:549-612 | exactly when printed values are read back, whatever their number, the length of their text and the uniqueness flag |
| Transmit.FwdStream.TransmitBurst | include/core/dpdk/dpdk.h:873-901 | the first call is offered the whole burst and each further one all that is left, as long as something is left and retries remain; as much is sent, in order, as these calls have room for, the rest is freed and the counters account for all |
| Transmit.AllSentIff | include/core/dpdk/dpdk.h:880-890 | nothing is left after a call if and only if it had room for what was left before |
| RunToCompletion.DisposedOnce | lib/core/cndp/cndp.cpp:401-467 | each packet of a burst is freed or handed to one tx buffer, exactly once |
| RunToCompletion.GoingInOrder | lib/core/cndp/cndp.cpp:401-467 | packets for the same place stay in order of arrival |
| RunToCompletion.VerdictTable | lib/core/cndp/cndp.cpp:401-467 | which packets are for the kernel, which are dropped, and which lport the others go to |
| RunToCompletion.Worker.Dispose | lib/core/cndp/cndp.cpp:401-467 | one packet goes where its verdict says |
| RunToCompletion.Worker.Step | lib/core/cndp/cndp.cpp:384-482 | the burst is distributed in order of arrival and every listed tx buffer is empty at the end |
| RunToCompletion.Worker.FlushAll | lib/core/cndp/cndp.cpp:468-479 | flushing loses and reorders nothing and empties the listed buffers |
| GtpUplink.ParseGtp | app/upf_gtp.cpp:234-289 | at most one extension header is followed, and its length and place are found |
| GtpUplink.OuterIsGtp | lib/unet/common/common.cpp:110-151 | a GTP-U frame is recognised with its true IPv4 header length |
| GtpUplink.HeaderLengthIff | app/upf_gtp.cpp:234-289 | the parsed length of a header is its true length if and only if the parser supports the header |
| GtpUplink.KeyIs | app/upf_gtp.cpp:153-166 | the key read from the bytes of a packet is made of the TEID, the inner source address and the QFI that were written into them |
| GtpUplink.Be32Injective | app/upf_gtp.cpp:153-159 | different TEIDs and addresses make different keys |
| GtpUplink.PeerIs | app/upf_gtp.cpp:139 | the lports come in pairs, and a packet goes to the other one |
| GtpUplink.DecapsulatesIs | app/upf_gtp.cpp:175-180 | a rule decapsulates exactly when it forwards, neither drops nor buffers, and removes the outer header |
| GtpUplink.OtherPackets | app/upf_gtp.cpp:32-205 | packets for other ports are left as they are, and dropped unless they are plain UDP |
| GtpUplink.UplinkOutcome | app/upf_gtp.cpp:138-205 | a frame with a supported header is dropped without a rule for its TEID, inner source address and QFI; else it goes to the other lport of its pair, with a forward-and-remove rule as destination, source, type and the inner packet, byte for byte |
| GtpUplink.DecapsulatesIff | app/upf_gtp.cpp:138-289 | for every frame with any flags, optional bytes and chain of extension headers, a matching rule decapsulates it if and only if the header is supported |
| GtpUplink.Mbuf.Decapsulate | app/upf_gtp.cpp:180-202 | the packet is shortened and its new first bytes are overwritten in place |
| GtpUplink.Mbuf.Run | app/upf_gtp.cpp:32-232 | the in-place processing has the outcome of the specification, for every packet in a readable buffer |

## Left out

- Master/worker forwarding, the DPDK copy of run-to-completion, downlink encapsulation, the PFCP case and the BUFF and DROP actions: unfinished in the source. Plain UDP packets get the verdict `Downlink` and nothing more is said about them.
- `dcb_fwd_config_setup` and `icmp_echo_config_setup`: not reached from `fwd_config_setup`.
- Printing, statistics, option parsing, JSON configuration, netlink, sockets and the TAP device.
- FwdScheduler.Scheduler.InitStreams: does not model the socket choice.
- FwdScheduler.Scheduler.RssSetup: the `retry_enabled` flag copied to each stream is not in the model. Configurations that write beyond the allocated streams are excluded.
- FwdProcesses.ProcessesExclusiveIff: like the other statements about several processes, asks that `proc_id * nb_q` fits an `int`, as the source computes it, and that the streams fit their 16-bit count.
- FwdScheduler.ConfigureShares: only the sharing fields of the queue configuration.
- PortLifecycle.PortManager.Run: new-device events come from probing alone, not during other commands. Secondary processes are not modelled.
- PortLifecycle.PortManager.StartOne: nothing is said about the flags of a port that is lost, or about the device after a refused configuration.
- Registry.List.Create: the look-up of the templates of a new table, which comes before the allocation and changes nothing, and the check of the port id.
- FlowRules.CreateFlow: age actions and what a tunnel adds to the pattern. Queued destruction of rules, which stops half-way without memory, and the flush of indirect actions do not keep to the discipline of the others.
- FlowRules.UpdateFlow: tables are taken to outlive the rules made from them.
- McastPool.McastPort.Add: nothing is said about memory after an overrun.
- PortIds.PortTable.Attach: recording a known port when an array is full, which writes beyond it, is excluded.
- PortIds.PortTable.SetList: a list longer than the array is excluded. Limits set by `--nb-ports` after `--portlist` are checked against another count and are not modelled.
- Transmit.FwdStream.TransmitBurst: counters are unbounded, and the burst-size histogram is not modelled.
- RunToCompletion.Worker.Flush: a flush is taken to send at least one waiting packet and to keep what it does not send; `txbuff` is not part of this repository. What is written to the TAP device is the packet, without its prepended bytes.
- GtpUplink.Mbuf.Run: headers are read beyond the end of a short packet, as the program does, so 128 readable bytes are required. A missing application record is not modelled.
- `strtol` is modelled in base 10 with a 64-bit `long`, and its result is cut to an `int`.
