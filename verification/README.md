# connector: a Dafny model of the eBPF virtual switch

connector is a virtual switch whose control plane (Go) and packet programs (eBPF C) share
memory-mapped port slots without a lock. This project models the parts where that is hard to
get right and proves what they promise:

- **The slot protocol.** `SlotMachine` is one port slot with everything that runs against it,
  one atomic load, store or compare-and-swap per step: Attach, SetPortUp and Detach, the holder
  of the control lock (Reserve, Release, Provision), packet programs and Stats readers.
  `SlotInvariant` and `SlotObservers` prove the inductive invariant step by step, `SlotTraces` finds
  the steps of a run that decide (who published, which gate was passed, which reset counts),
  `SlotReplies`, `SlotTheorems` and `SlotOutcomes` state what holds in every run, `SlotProgress`
  shows that calls which nothing disturbs succeed from every reachable state, and `SlotRaces` gives
  runs that refute stronger claims. No step touches two slots, so a run of the switch seen from one slot is a run
  of this machine.
- **The control-plane loops.** `SlotTable` runs the scans over all slots, the release rounds
  and provisioning while other processes change slots between any two accesses.
- **Packet transformations.** `Geneve`, `Locators`, `Tunnel` and `Encapsulation` are the GENEVE
  wire format and the encapsulation down to bytes; `Checksum` and `Nat` are the management NAT with its
  checksums; `Services` is the table of virtual services; `Floating` and `Mtu` are the identity
  addresses and the MTU checks.
- **From request to wire.** `Delivery` joins the two: what a frame looks like on the wire, in terms
  of the request its sandbox was attached with, in every run of the slot protocol.
- **The TAPFD handoff.** `TapFd`, `TapFdErrors` and `TapFdRecv` are the text formats and the
  accounting of received descriptors.

`dafny verify dfyconfig.toml` checks the whole project.

## Hypotheses

The guards of `SlotMachine.Enabled` are the obligations the code puts on its callers:
operations on one attachment do not overlap (pkg/vswitch/types.go:11-16); a Reserved slot is not
reopened while an attachment operation is in flight on it (pkg/vswitch/attach.go:185-187,
pkg/vswitch/port_up.go:73-74), which has to cover the whole of TryUnreserve, from its first load;
the control lock has one exclusive holder (pkg/vswitch/flock.go:15-18); and a load after the
publication load sees what was stored before it (bpf/switch_kern.c:33-46), so steps are
sequentially consistent. System calls, map operations and device creation succeed or fail
arbitrarily. In `SlotTable` the changes other processes make are an arbitrary finite list of
lock-free changes; `SlotTheorems.OthersAreLockFree` shows that all steps outside the control
lock are such changes.

## Where a stronger claim fails

- A management reply can reach an attachment of another generation: the generation is compared
  before the publication gate and not loaded again, and the address it is delivered to is loaded
  after the gate (bpf/switch_kern.c:796-806). The other attachment may have come before the gate,
  `SlotRaces.LateReplyReachesNewAttachment`, or after it,
  `SlotRaces.OvertakenReplyReachesNewAttachment`, for any two attachments in succession.
  `SlotReplies.ReplyAttachmentExact` has the exact condition in terms of claims: no generation is
  stored between the check and the gate, and the attachment does not end between the state check
  and the load of the address. `SlotReplies.ReplyGenerationAgrees` says the same of the
  generations, and `SlotReplies.ReplyGenerationExact` shows it exact where attachments ask for
  distinct non-zero generations. docs/vswitch.md:96 says a stale generation never matches, and
  gives the address as a bitwise combination; the code adds to the base, and the model follows
  the code.
- A packet can pass its gate on a slot that is already taken over, because an Attach in flight still
  stores up; what it loads then is the mark of a Reserved slot and not the published address:
  `SlotRaces.TakenGateLeadsNowhere`. `SlotTheorems.ForwardedPacketSawOneConfig` therefore asks that
  the slot is not Reserved at the gate, and that nothing is revoked, released or taken over after it.
- A force reserve does not leave every slot it took over down: an Attach in flight may store up after
  it. `SlotRaces.ForcedSlotStaysUp` is the run, `SlotOutcomes.ForceLeavesDownExactly` the exact
  condition.
- Two equal counter reads do not tie the identity Stats returns to its counters, because Attach
  publishes its generation before it resets the counters: `SlotRaces.StatsMixesAttachments`.
  `SlotTheorems.StatsReadExactly` has the exact condition: no claim is won between the reset of the
  counters read and the load of the generation. `SlotTheorems.StatsReadIsOneAttachment` has one
  that memory shows at the end of the read.
- A failed reverse-map insert is not repaired by provisioning again:
  `SlotTable.Table.RetryAfterFailedInsert`; `SlotTable.ReindexedSound` and
  `SlotTable.ReindexedEntries` are exact about what each outcome leaves behind.
- Configuration validation counts management extracts, a slot holds three routes, and further
  routes are dropped silently: `Services.FourthRouteIsLost`, with the exact condition in
  `Services.ExtractedExact`.
- The reply to a request sent straight to a service target carries the virtual address:
  `Nat.DirectReplyIsRelabelled`, with the exact condition in `Nat.ReplySourceExact`.
- An error line is one token per value only as far as the sanitizer knows white space:
  `TapFdErrors.VerticalTabSpoils`, with the exact condition in `TapFdErrors.ErrorTripExact`.
- bpf/common.h:93-104 says service keys are in network byte order; the data plane and the control
  plane both use host order, and so does the model.

## Model

| member | source | states |
|---|---|---|
| `SlotMachine.ValidatedWellFormed` | pkg/vswitch/attach.go:40-69 | every request that passes validation yields a configuration the data plane accepts: option length aligned and within 64 bytes with the locator, critical 0 or 1, VNI within the locator's width |
| `SlotMachine.ValidateExact` | pkg/vswitch/port_up.go:42-60 | exactly which requests pass, and that the configuration of one that does is what it asks for: its address, gateway and MAC or zero, VNI, and options bytes that parse to exactly its options |
| `SlotInvariant.OpSolo` | pkg/vswitch/attach.go:105-210 | each step of Attach, SetPortUp and Detach keeps the one-slot invariant: what is written so far, that down precedes any change, that up is published last |
| `SlotInvariant.ControlSolo` | pkg/internal/bpfmap/cas.go:46-71 | each step of a control-lock holder keeps the same invariant, whatever attachment operation it interrupts |
| `SlotInvariant.OpEvolves` | pkg/vswitch/port_up.go:67-97 | what any attachment step may do to the memory others are reading: no published cell changes while the port stays up and unrevoked |
| `SlotInvariant.ControlEvolves` | pkg/vswitch/stop.go:49-62 | the same guarantee for takeover and reopening |
| `SlotObservers.PacketStep` | bpf/switch_kern.c:286-309 | a packet program's own load keeps what it has seen consistent with one published configuration |
| `SlotObservers.ReaderStep` | pkg/vswitch/status.go:433-476 | a Stats reader's own load keeps the relation between its loads and the owners they came from |
| `SlotObservers.ResetExact` | pkg/internal/bpfmap/stats.go:44-57 | installing the next counter generation keeps the counters equal to the logged packets of their generation |
| `SlotObservers.CountExact` | bpf/stats.h:24-74 | a locked update keeps them equal, and ignores a packet of another generation |
| `SlotObservers.StepInv` | pkg/vswitch/attach.go:105-467 | every enabled step of every process keeps the whole invariant |
| `SlotObservers.RunInv` | pkg/vswitch/attach.go:105-467 | the invariant holds in every state of every run |
| `SlotTraces.UpSincePublication` | pkg/vswitch/port_up.go:94-97 | a port that is up has been up ever since the last store of some Attach or SetPortUp, which published exactly its configuration and generation |
| `SlotTraces.GateOf` | bpf/switch_kern.c:291-294 | a packet program past its gate passed it in one step of the run, and works from the configuration and generation in force at that step |
| `SlotTheorems.PublishedAsAsked` | pkg/vswitch/port_up.go:77-97 | a call publishes the configuration that the request it was started with asks for |
| `SlotTheorems.ForwardedPacketSawOneConfig` | bpf/switch_kern.c:286-309 | a forwarded packet passed its gate while the port was up since one publishing call, with the configuration that call was asked for and the generation the owner at the gate claimed with; if the slot was not Reserved at the gate and nothing was revoked, released or taken over between the gate and the last load, it used exactly the address, generation, gateway, VNI, MAC and options of that configuration |
| `SlotTheorems.ForwardedLoadsInRange` | bpf/switch_kern.c:487-517 | whatever happens to the slot meanwhile, an encapsulated frame is forwarded only with generation, option length, map value and critical flag in range and in agreement |
| `SlotTheorems.DefensiveChecksNeverFire` | bpf/switch_kern.c:487-517 | on a slot not Reserved at the gate and not revoked, released or taken over since, the encapsulator's own option and generation rejections never fire |
| `SlotReplies.StepGen` | pkg/vswitch/attach.go:195-197 | every step keeps the generation cell tied to the claim that stored it: an attached slot that no Attach is working on holds the generation its owner asked for |
| `SlotReplies.RunGen` | pkg/vswitch/attach.go:195-197 | so it does in every state of every run |
| `SlotReplies.ReplyAttachmentExact` | bpf/switch_kern.c:792-806 | the address a reply is delivered to is the one in the slot at one load after the gate; it belongs to the attachment whose generation the reply checked exactly if no generation is stored between check and gate and that attachment is neither released nor taken over between the state check and the load |
| `SlotReplies.ReplyGenerationAgrees` | bpf/switch_kern.c:792-806 | under that condition the slot at the load is attached under the generation the reply names; if only no claim is won after the gate, it has at least no other generation |
| `SlotReplies.ReplyGenerationExact` | bpf/switch_kern.c:792-806 | where attachments ask for distinct non-zero generations, both conditions are exact for the generation at the load |
| `SlotRaces.LateReplyReachesNewAttachment` | bpf/switch_kern.c:796-806 | otherwise, for any two attachments in succession some run delivers a reply for the first one's generation to the second one, with nothing revoked since its check |
| `SlotRaces.OvertakenReplyReachesNewAttachment` | bpf/switch_kern.c:798-806 | and some run delivers to the second one a reply that passed check and gate on the first one |
| `SlotRaces.TakenGateLeadsNowhere` | bpf/switch_kern.c:798-806 | for any attachment some run delivers a reply to the address that marks a Reserved slot, with nothing revoked or taken over after its gate |
| `SlotOutcomes.ForwardedToDevice` | bpf/switch_kern.c:796-797 | a reply or returned packet is forwarded only if it found a device before its gate |
| `SlotTheorems.UpSlotWellFormed` | pkg/vswitch/attach.go:139-210 | in every reachable state an Allocated, up slot has hint equal to map length, aligned, within 64 bytes, critical 0 or 1, VNI and generation in range |
| `SlotTheorems.FreeIsDown` | pkg/internal/bpfmap/cas.go:18-71 | in every reachable state a Free slot is down and unowned, and no slot has two owners |
| `SlotTraces.StepEnds` | pkg/internal/bpfmap/cas.go:16-55 | a slot leaves Allocated only by a release, which leaves it Free, or a takeover, which leaves it Reserved, and enters it only by a winning claim |
| `SlotTraces.StaysAttached` | pkg/internal/bpfmap/cas.go:33-55 | an attached slot is still with its attachment exactly if there was neither a release nor a takeover meanwhile |
| `SlotTheorems.ClaimsAreSeparated` | pkg/internal/bpfmap/cas.go:16-31 | between two winning claims on a slot there is a step that releases it to Free or takes it over to Reserved |
| `SlotTheorems.FailedAttachLeaves` | pkg/vswitch/attach.go:121-190 | an Attach that fails after its claim leaves the slot Free, down and with zero hint, or leaves a takeover Reserved |
| `SlotOutcomes.AttachSucceeds` | pkg/vswitch/attach.go:123-210 | an Attach that succeeds leaves the port up, or down if asked so, under its generation, with its whole configuration in place unless it was taken over; it had found the device of a tap port and, after preparing, the slot its own |
| `SlotOutcomes.PortUpSucceeds` | pkg/vswitch/port_up.go:67-97 | a SetPortUp that succeeds leaves the port up with the whole new configuration unless it was taken over, and generation and counters as they were; it had found the slot its own at each of its four checks |
| `SlotOutcomes.RevokesOwnSlot` | pkg/vswitch/attach.go:430-445 | a Detach takes the port down only after it found the slot its own again |
| `SlotOutcomes.FailsExactly` | pkg/vswitch/attach.go:123-190 | a call gives up exactly where a system call fails, it finds the slot taken over, a tap port has no device, or SetPortUp finds the port up or has a bad request |
| `SlotProgress.AttachCompletes` | pkg/vswitch/attach.go:72-210 | an undisturbed Attach of any valid request on any reachable Free slot succeeds, with new counters at zero and confirmed |
| `SlotProgress.PortUpCompletes` | pkg/vswitch/port_up.go:25-98 | an undisturbed SetPortUp of any valid request on any reachable attached port that is down succeeds, and it stays the same attachment |
| `SlotRaces.DetachRuns` | pkg/vswitch/attach.go:378-468 | an undisturbed Detach of any reachable attached port leaves it Free, down and with zero hint |
| `SlotOutcomes.ControlLeaves` | pkg/vswitch/attach.go:326-353 | what each finished action of the control-lock holder leaves: takeover and reserve a Reserved slot, or a plain reserve one found in use; reopening a Free slot that is down |
| `SlotOutcomes.ForceLeavesDownExactly` | pkg/vswitch/attach.go:335-342 | a force reserve that took over an attachment leaves the port down exactly if no call in flight stored up after it had cleared the flag |
| `SlotRaces.ForcedSlotStaysUp` | pkg/vswitch/attach.go:335-342 | otherwise, for any attachment some run leaves the slot Reserved and up with nothing left to run |
| `SlotProgress.ForceCompletes` | pkg/vswitch/attach.go:326-343 | an undisturbed force reserve leaves any slot Reserved, and an attached one down with zero hint |
| `SlotProgress.ReserveCompletes` | pkg/vswitch/attach.go:345-353 | an undisturbed reserve takes any Free slot |
| `SlotProgress.ReopenCompletes` | pkg/internal/bpfmap/cas.go:57-71 | an undisturbed reopening leaves a Reserved slot Free and down |
| `SlotProgress.PacketCompletes` | bpf/switch_kern.c:286-309 | a packet that meets a port that is up and stays so passes every check and is forwarded with the whole published configuration |
| `SlotTheorems.FailedPortUpLeavesDown` | pkg/vswitch/port_up.go:24-98 | a failing SetPortUp leaves the port down, or untouched if it was already up |
| `SlotTheorems.DetachLeaves` | pkg/vswitch/attach.go:378-468 | a Detach changes nothing before it revokes; when it returns it has failed without any change, or left the slot Free, down and with zero hint, or left a takeover Reserved |
| `SlotTheorems.ReaderOrigin` | pkg/vswitch/status.go:433-476 | what a Stats reader returns was in memory in earlier states of the run, with the owners it is attributed to |
| `SlotTheorems.StatsReadChecked` | pkg/vswitch/status.go:436-466 | a read that passes found the port up and the counters confirmed before its first load and after its last, one counter generation at both counter reads, and then its address still in the slot |
| `SlotProgress.StatsCompletes` | pkg/vswitch/status.go:433-476 | an undisturbed read of a port that is up with confirmed counters passes and returns address, generation and counters as they are |
| `SlotTheorems.StatsReadIsOneAttachment` | pkg/vswitch/status.go:433-476 | a read that passes its checks with its counter generation still current returns address, generation and counters of one attachment |
| `SlotTraces.ClaimsCount` | pkg/internal/bpfmap/cas.go:16-31 | the owner of a slot is the same in two states exactly if no claim was won between them |
| `SlotTraces.ResetOf` | pkg/internal/bpfmap/stats.go:44-57 | every counter generation above zero was installed by one reset, by the owner the counters belong to |
| `SlotTheorems.StatsReadExactly` | pkg/vswitch/status.go:433-476 | a read that passes its checks describes one attachment exactly if no claim was won between the reset that installed its counters and its load of the generation |
| `SlotRaces.StatsMixesAttachments` | pkg/vswitch/attach.go:195-210 | otherwise, for any two attachments in succession some run returns the second one's identity with the first one's counters |
| `SlotTheorems.CountersAreExact` | bpf/stats.h:13-74 | in every state the counters equal the packets and bytes of exactly those packets that captured the current generation and finished |
| `SlotTheorems.CountedExactly` | bpf/stats.h:24-74 | a packet adds one packet and its length to its own counter exactly if the counters were not reset between its capture and its update, and had been reset at all |
| `SlotObservers.CountsApart` | bpf/stats.h:38-74 | packets of one kind leave the counters of the others alone |
| `SlotTraces.StepResets` | pkg/internal/bpfmap/stats.go:44-57 | a reset raises the counter generation by one, zeroes the counters and makes the current owner theirs; no other step changes generation or owner |
| `SlotTraces.GenerationsGrow` | pkg/internal/bpfmap/stats.go:44-57 | counter generations never go back, two states have the same one exactly if there was no reset between them, and then one counter owner |
| `SlotTheorems.LatePacketNotCounted` | bpf/stats.h:11-35 | a packet that captured an earlier generation changes no counter after a reset |
| `SlotTheorems.OthersAreLockFree` | pkg/internal/bpfmap/cas.go:46-71 | only the control-lock holder enters or leaves Reserved or changes a device index |
| `SlotTable.Table.Interfere` | pkg/internal/bpfmap/cas.go:16-90 | any number of changes by other processes happens between two accesses, each a lock-free one |
| `SlotTable.Table.Cas` | pkg/internal/bpfmap/cas.go:16-71 | a compare-and-swap wins on the value the slot has right then, and loses on a just-loaded value only if a change intervened |
| `SlotTable.Table.FindFreeSlot` | pkg/internal/bpfmap/slots.go:92-101 | the slot returned was Free right before the claim and only it changed; failure means every slot was non-Free at some moment of the scan |
| `SlotTable.Table.CountAllocatedSlots` | pkg/vswitch/stop.go:15-23 | the count is the number of attachments among values the slots had during the scan; a positive one was witnessed by an Allocated slot, a zero one by every slot being unallocated at some moment |
| `SlotTable.Table.ReserveIfFree` | pkg/vswitch/stop.go:30-32 | one slot is not Free afterwards, or the swap was lost to a change by another process |
| `SlotTable.Table.ReserveFreeSlots` | pkg/vswitch/stop.go:25-46 | it terminates and takes over no attachment; success means that at return each slot is Reserved or was held by an attachment meanwhile, refusal that an attachment was seen; Reserved slots stay Reserved |
| `SlotTable.Table.ReserveAllSlots` | pkg/vswitch/stop.go:48-62 | it terminates under any finite interference with every slot Reserved |
| `SlotTable.Table.CollectPortInterfaces` | pkg/vswitch/stop.go:64-90 | exactly the recorded devices are listed, each slot once and in slot order |
| `SlotTable.Table.ForgetDevice` | pkg/vswitch/stop.go:105-114 | dropping entry and record keeps the reverse index sound and every other slot's entry |
| `SlotTable.Table.DeletePortInterfaces` | pkg/vswitch/stop.go:92-123 | exactly the devices listed before the first that cannot be deleted are gone, with their entries; soundness and completeness survive any failure |
| `SlotTable.Table.ValidateAllReleased` | pkg/vswitch/stop.go:125-136 | the non-atomic scan succeeds exactly if at its return all slots are Reserved without device at once |
| `SlotTable.Table.StopReleased` | pkg/vswitch/stop.go:229-270 | at the moment of unpinning all slots are released, although others ran since the scan; a released switch is never refused |
| `SlotTable.Table.DeleteAllDevices` | pkg/vswitch/stop.go:193-203 | a release round succeeds exactly if every device can be deleted, and then the reverse index is empty |
| `SlotTable.Table.ReleaseForce` | pkg/vswitch/stop.go:187-203 | a forced release establishes the state StopReleased waits for, exactly if every device can be deleted; a failure comes before any attachment is taken over and after every Free slot is reserved, unless an attachment was seen |
| `SlotTable.Table.ReleaseSafe` | pkg/vswitch/stop.go:204-219 | it takes over no attachment; success means every slot was seen unallocated, all devices are gone, and at return each slot is Reserved or was held by an attachment meanwhile; a refusal means an attachment was seen, and then nothing was deleted, or some device cannot be deleted |
| `SlotTable.ReindexedSound` | pkg/vswitch/provision.go:335-370 | after a device change the reverse index is sound exactly if no entry of the replaced device survived both removals |
| `SlotTable.ReindexedEntries` | pkg/vswitch/provision.go:335-370 | the slot ends indexed exactly if an entry was inserted, or was there and was not removed by a mode switch; other devices keep theirs |
| `SlotTable.ReindexedKeepsOthers` | pkg/vswitch/provision.go:148-160 | whatever the index holds, an entry that names another slot is never removed |
| `SlotTable.ReindexedComplete` | pkg/vswitch/provision.go:335-370 | with a working insert and a device of its own kind no slot loses its entry |
| `SlotTable.Table.RecordDevice` | pkg/vswitch/provision.go:333-370 | the ordered stores and map operations of one slot, which remove an entry only if it still names the slot, compute the specified index |
| `SlotTable.Table.ProvisionSlot` | pkg/vswitch/provision.go:306-385 | exact outcome of provisioning one slot for every combination of failures; a failure leaves it Reserved |
| `SlotTable.Table.Unreserve` | pkg/vswitch/provision.go:372-385 | under the control lock the first attempt to reopen wins |
| `SlotTable.Table.ProvisionTurn` | pkg/vswitch/provision.go:290-399 | one turn skips, opens or leaves Reserved one slot and touches no other |
| `SlotTable.Table.ProvisionNext` | pkg/vswitch/provision.go:306-399 | one turn extends what holds of the slots visited so far and leaves the slot other than Reserved; a failing turn leaves it Reserved, because its device could not be made |
| `SlotTable.Table.ProvisionPorts` | pkg/vswitch/provision.go:290-399 | with working map operations the index stays sound and complete, untouched slots keep their device, opened ones have the device made for them; the number returned is the number opened, in slot order, and with a port filter no other slot is; success leaves no slot Reserved, or with a port filter that slot, or has opened the count asked for; failure has a Reserved slot whose device could not be made |
| `SlotTable.Table.RetryAfterFailedInsert` | pkg/vswitch/provision.go:351-358 | after a failed insert a successful retry opens the slot without an entry |
| `Geneve.StoreOption` | pkg/vswitch/geneve.go:248-252 | one option is written at its offset in wire format and nothing else changes |
| `Geneve.FillOptions` | pkg/vswitch/geneve.go:234-257 | the loop stores all options in order and the rest stays zero, or names the first fault |
| `Geneve.MarshalGeneveOptions` | pkg/vswitch/geneve.go:230-268 | success means the list is acceptable and the value is its encoding; an error is the first fault in order |
| `Geneve.FaultRefuses` | pkg/vswitch/geneve.go:236-266 | every reported fault makes the list unacceptable, so acceptance and refusal are exact |
| `Geneve.ParseInvertsEncode` | pkg/vswitch/geneve.go:244-252 | the generic option parser of section 3.5 of RFC 8926 inverts the encoding |
| `Geneve.MarshalledWellFormed` | pkg/vswitch/geneve.go:259-267 | every marshalled value passes the data plane's checks and holds exactly the encoding |
| `Geneve.EmittedAreaFits` | bpf/switch_kern.c:646-652 | the emitted area is at most 64 bytes, aligned, within the length fields of header and options |
| `Geneve.EmittedAreaParses` | bpf/switch_kern.c:660-689 | any receiver that walks the area sees the locator, if any, and then the caller's options in order |
| `Geneve.LocatorIsUnique` | pkg/vswitch/geneve.go:236-243 | in the emitted area exactly one option has the class and type of the locator, critical bit aside: the first, which carries the slot |
| `Geneve.AcceptableExact` | pkg/vswitch/geneve.go:230-268 | the marshaller accepts exactly the lists that fit behind the locator, are read back the same by a receiver, and hold nothing that looks like the locator |
| `Geneve.CBitExact` | bpf/switch_kern.c:649-653 | the C bit is set exactly if some emitted option is critical |
| `Locators.WireVniIs` | pkg/vswitch/geneve.go:294-299 | the shifted slot and the VNI never overlap, so their bitwise or is a sum |
| `Locators.LocateInverts` | bpf/switch_kern.c:461-482 | every configured slot and VNI is found again from wire port, VNI and option |
| `Locators.LocateExact` | bpf/switch_kern.c:981-1027 | whatever the receiver accepts is what the sender writes for that slot: same port, VNI, option bytes and C bit |
| `Locators.LocatorsNeverCollide` | pkg/vswitch/geneve.go:282-299 | two slots never look alike on the wire |
| `Locators.PortRangeIsNecessary` | pkg/vswitch/config.go:333-336 | in every refused port range the last slot would be lost |
| `Tunnel.SentFields` | bpf/switch_kern.c:597-689 | the fields of a sent packet stand at their offsets |
| `Tunnel.SentLayout` | bpf/switch_kern.c:597-643 | every byte of the outer Ethernet, IPv4 and UDP headers but the lengths: addresses, version, no options, no fragments, time to live 64, UDP, checksum, from the transit address to the gateway |
| `Tunnel.SentInner` | bpf/switch_kern.c:602-659 | the GENEVE header and the inner Ethernet header, to the transit MAC or to everyone, from the port, and the payload, at their offsets |
| `Tunnel.SentParses` | bpf/switch_kern.c:949-1000 | a sent packet is one the return path would parse, with the area it announces |
| `Tunnel.PortMacsDiffer` | bpf/switch_kern.c:109-131 | derived port addresses differ from slot to slot and from the switch; a fixed one is used as it is |
| `Tunnel.RoundTrip` | bpf/switch_kern.c:949-1098 | encapsulation, any reflection without opaque options, and decapsulation deliver the same payload and ethertype to the same slot, for IPv4 and IPv6, all locators, both modes |
| `Tunnel.MirrorReflects` | bpf/switch_kern.c:981-1019 | such a reflection exists |
| `Tunnel.SentCanReturn` | bpf/switch_kern.c:949-1098 | so every sent packet has a reflection, its mirror image |
| `Tunnel.DeliveredIsAuthentic` | bpf/switch_kern.c:1026-1047 | whatever is delivered came from the slot's gateway over the slot's port, VNI and locator, with nothing else in the option area |
| `Tunnel.ParsedIsGeneve` | bpf/switch_kern.c:949-972 | only IPv4 without options, UDP and GENEVE version 0 are parsed at all |
| `Tunnel.DecapLocates` | bpf/switch_kern.c:1026-1047 | a delivery is the stripped packet of the slot it was located to |
| `Tunnel.StrippedFrame` | bpf/switch_kern.c:1049-1098 | what is stripped is the inner frame, under its own type, addressed from the switch to the port; nothing is delivered exactly if no payload is left |
| `Tunnel.OuterHeaderVerifies` | bpf/switch_kern.c:623-635 | the emitted outer IPv4 header verifies at any receiver |
| `Tunnel.LengthsAreTrue` | bpf/switch_kern.c:627-643 | a packet that fits the 16-bit fields announces its true IP and UDP lengths |
| `Tunnel.SentLength` | bpf/switch_kern.c:558-568 | the packet is longer than the payload by exactly the encapsulation |
| `Encapsulation.AdjustRoom` | bpf/switch_kern.c:570-571 | a gap opens behind the Ethernet header, everything else is kept |
| `Encapsulation.FillChecksum` | bpf/switch_kern.c:632-635 | summing and storing in machine order writes the checksum in network order |
| `Encapsulation.CopyOptions` | bpf/switch_kern.c:677-689 | the bounded word loop copies exactly the opaque options |
| `Encapsulation.Encap` | bpf/switch_kern.c:453-689 | exactly the encapsulable frames are sent, which includes that the slot has a transit device, and the bytes written in place are the packet of `Tunnel.RoundTrip`; other frames pass untouched |
| `Delivery.FramesTaken` | bpf/switch_kern.c:453-530 | for a slot that carries a request, exactly the frames with a whole IPv4 or IPv6 header are taken, if there is a transit device and a gateway was asked for |
| `Delivery.RequestReachesWire` | bpf/switch_kern.c:453-689 | a frame for a slot that carries a request goes to the requested gateway, its option area parses to the locator and the requested options, the C bit says whether one is critical, and port, VNI and locator lead back to the slot and the requested VNI |
| `Delivery.ForwardedAsRequested` | bpf/switch_kern.c:286-689 | so does, in every run, every frame forwarded with what its packet program loaded, for the request of the call that published, if the slot was not Reserved at the gate and undisturbed up to the last load |
| `Checksum.Fold` | bpf/switch_kern.c:134-139 | two folding rounds give the complement of the ones' complement value for every 32-bit sum |
| `Checksum.Add` | bpf/switch_kern.c:141-145 | addition with end-around carry preserves the ones' complement value |
| `Checksum.IpChecksum` | bpf/switch_kern.c:147-159 | the result is the complement of the ones' complement sum of the words covered |
| `Checksum.OnesOfSwapped` | bpf/switch_kern.c:150-157 | summing words in the other byte order swaps the sum (section 2 (B) of RFC 1071) |
| `Checksum.VerifiesExactly` | bpf/switch_kern.c:134-139 | what a receiver checks after folding, all ones, holds exactly of the sums that are non-zero multiples of 0xffff |
| `Checksum.FilledChecksumVerifies` | bpf/switch_kern.c:632-635 | a header whose blank checksum word is filled in verifies |
| `Checksum.ReplaceVerifies` | bpf/switch_kern.c:381-400 | a right checksum stays right under the incremental update of section 3 of RFC 1624 |
| `Checksum.ReplaceIsOrderFree` | bpf/switch_kern.c:381-400 | that update does not depend on the byte order fields are loaded in |
| `Nat.AddressSetVerifies` | bpf/switch_kern.c:377-384 | rewriting an address keeps the header checksum right |
| `Nat.AddressKeepsGood` | bpf/switch_kern.c:377-400 | an address rewrite keeps IPv4 and TCP checksums right, UDP right or absent |
| `Nat.PortVerifies` | bpf/switch_kern.c:423-435 | so does a port rewrite, even if the checksum passes through zero |
| `Nat.ServiceKeepsGood` | bpf/switch_kern.c:402-436 | so does a whole service translation |
| `Nat.Packet.PatchL4` | bpf/switch_kern.c:386-400 | the transport checksum is patched exactly where the packet has one |
| `Nat.Packet.RewriteAddress` | bpf/switch_kern.c:377-400 | one address of the flow changes, a good packet stays good, the rest of the packet is kept |
| `Nat.Packet.RewriteService` | bpf/switch_kern.c:402-436 | address and port change, a good packet stays good, the rest is kept |
| `Nat.Packet.StoreService` | bpf/switch_kern.c:406-435 | the stores and patches of a service translation, in order |
| `Nat.Packet.TranslateRequest` | bpf/switch_kern.c:339-436 | a request leaves with the floating source and the service target, every checksum kept right |
| `Nat.Packet.TranslateReply` | bpf/switch_kern.c:809-893 | a reply arrives with the inner destination and the virtual source, every checksum kept right |
| `Nat.RequestGoesToTarget` | bpf/switch_kern.c:339-436 | a TCP or UDP request to a service leaves for the target of the last service with that address and port, any other keeps its destination, all leave from the floating address |
| `Nat.ReplyComesFromService` | bpf/switch_kern.c:809-893 | a TCP or UDP reply from a target arrives from the service's virtual address and port, any other keeps its source, all arrive at the inner address |
| `Nat.ReplyReturns` | bpf/switch_kern.c:778-893 | the reply to a translated request is identified as the same slot and generation and reaches the inner address from the virtual address and port |
| `Nat.ReplySourceExact` | bpf/switch_kern.c:815-893 | for any request the reply seems to come from where it was sent, except exactly when it went straight to a service target |
| `Nat.DirectReplyIsRelabelled` | bpf/switch_kern.c:815-837 | one such request, under an accepted configuration whose route extracts it |
| `Services.FindRoute` | pkg/vswitch/config.go:373-388 | the nested search finds a route exactly if one holds the address |
| `Services.ValidateServices` | pkg/vswitch/config.go:355-399 | acceptance is exactly: an extract exists, every virtual address is routed, targets are distinct; a refusal names the first service at fault |
| `Services.InstallOne` | pkg/vswitch/mgmt_service.go:76-91 | one service is installed for one protocol in both tables, and refused only if the final keys do not fit |
| `Services.WriteServices` | pkg/vswitch/mgmt_service.go:67-94 | both tables are filled for both protocols, and it succeeds exactly if the distinct keys of either table fit its 1024 entries |
| `Services.FwdExact` | pkg/vswitch/mgmt_service.go:79-84 | the forward table holds exactly the configured keys, the last service with a key winning |
| `Services.RevExact` | pkg/vswitch/mgmt_service.go:86-90 | every service is found back from its target |
| `Services.RevKeys` | pkg/vswitch/mgmt_service.go:86-90 | the reverse table holds nothing but targets, for both protocols |
| `Services.DistinctTargetsExact` | pkg/vswitch/config.go:389-397 | distinct targets are exactly what it takes for every service to be found back and none listed twice |
| `Services.RevInvertsFwd` | pkg/vswitch/config.go:355-357 | the reverse table inverts the forward one on every installed key, even where a virtual address repeats |
| `Services.WriteCidrs` | pkg/vswitch/provision.go:23-44 | a slot's classifiers are the first three routes in configuration order |
| `Services.MatchMgmt` | bpf/switch_kern.c:215-247 | the first matching classifier is found exactly if one matches |
| `Services.MatchIsContains` | bpf/switch_kern.c:221-221 | on aligned routes the masked comparison is containment |
| `Services.ExtractedExact` | pkg/vswitch/provision.go:28-40 | a slot extracts an address exactly if one of the first three routes holds it |
| `Services.AcceptedVipsExtracted` | pkg/vswitch/config.go:299-304 | with at most three routes in all every accepted service is extracted |
| `Services.FourthRouteIsLost` | pkg/vswitch/config.go:299-301 | an accepted configuration whose service is never extracted |
| `Floating.IdentityInWindow` | pkg/vswitch/slot.go:75-77 | in a validated window no identity wraps and all stay inside |
| `Floating.IdentifyInverts` | bpf/switch_kern.c:778-790 | decoding inverts encoding |
| `Floating.IdentifiedIsExact` | bpf/switch_kern.c:778-790 | an accepted address is the one its identity was given |
| `Floating.WindowIsFull` | pkg/vswitch/config.go:291-298 | the identities fill the window, so the encoding is a bijection |
| `Floating.WindowIsNecessary` | pkg/vswitch/config.go:291-298 | in every refused window the last identity is lost |
| `Floating.ReturnNetsCover` | pkg/vswitch/lifecycle.go:192-215 | one or two aligned adjacent blocks cover the window, one exactly if the base is aligned |
| `Mtu.AutoAdmitsEveryAttach` | pkg/vswitch/lifecycle.go:52-62 | an automatic transit MTU admits every option list the marshaller accepts |
| `Mtu.AutoIsTight` | pkg/vswitch/lifecycle.go:52-57 | under every locator no smaller MTU admits them all |
| `Mtu.StartAdmitsOptionFree` | pkg/vswitch/lifecycle.go:41-80 | a successful start admits every attach without opaque options |
| `Mtu.StartExact` | pkg/vswitch/lifecycle.go:58-80 | an explicit or existing MTU is accepted, and kept, exactly if the largest option-free frame fits; a refusal names its length |
| `Mtu.AttachFitsExactly` | pkg/vswitch/attach.go:285-293 | the attach check passes exactly if the largest frame leaves within the transit MTU, Ethernet header included |
| `Mtu.EveryPacketFits` | pkg/vswitch/attach.go:285-293 | so every frame within the port MTU leaves as an IP packet within the transit MTU |
| `TapFd.FieldsOfJoined` | pkg/tapfd/payload.go:96-96 | splitting at white space undoes joining words by spaces |
| `TapFd.Marshal` | pkg/tapfd/payload.go:56-82 | success exactly for complete records that fit, with the specified line |
| `TapFd.EncodedText` | pkg/tapfd/payload.go:68-76 | the line, with the count of netns descriptors left out where it is zero |
| `TapFd.ParsePayload` | pkg/tapfd/payload.go:84-130 | the token loop computes the record, or the first error |
| `TapFd.ParsedExactly` | pkg/tapfd/payload.go:95-128 | a payload is read exactly if every token is a pair, with a number in range where its key wants one; each field is then the last value of its key |
| `TapFd.UnknownKeyIgnored` | pkg/tapfd/payload.go:125-127 | a token with an unknown key changes no result, wherever it stands |
| `TapFd.RoundTrip` | pkg/tapfd/payload.go:56-130 | parsing inverts marshalling for clean texts |
| `TapFd.ParsedIsClean` | pkg/tapfd/payload.go:96-112 | whatever is parsed has texts without white space and NUL |
| `TapFd.StripInvertsBuild` | pkg/tapfd/request.go:37-70 | stripping undoes the OK prefix |
| `TapFd.StripExact` | pkg/tapfd/request.go:57-70 | the prefix is taken off where it is, and only the prefix by itself is an error |
| `TapFd.RecordGetsPrefix` | pkg/tapfd/request.go:37-52 | a record gets the OK prefix exactly if there is room for it |
| `TapFd.MetadataIsBare` | pkg/tapfd/request.go:57-64 | bare metadata is never mistaken for a prefixed response |
| `TapFd.HandoffExact` | pkg/tapfd/request.go:57-70 | with or without the prefix a marshalled record is read back exactly if its texts are free of white space and NUL |
| `TapFd.SanitizeToken` | pkg/tapfd/request.go:219-233 | the loop trims and then replaces six characters |
| `TapFd.ParseErrorResponse` | pkg/tapfd/request.go:181-208 | the token loop computes code and message, or says malformed or not an error |
| `TapFdErrors.ErrorReadExactly` | pkg/tapfd/request.go:192-207 | the pairs are read exactly if each has a key; code and message are their last values, and a missing code is an internal error |
| `TapFdErrors.UnknownErrorKeyIgnored` | pkg/tapfd/request.go:197-202 | a token with another key changes nothing |
| `TapFdErrors.SuccessIsNoError` | pkg/tapfd/request.go:183-186 | neither a record nor an OK response is taken for an error |
| `TapFdErrors.SanitizeExact` | pkg/tapfd/request.go:219-233 | the sanitizer keeps exactly the trimmed texts without the six characters, and makes such a text, or none, of any other |
| `TapFdErrors.PlainErrorTrips` | pkg/tapfd/request.go:166-208 | a code and a message that are words without equals sign and NUL come back as sent |
| `TapFdErrors.ErrorTripExact` | pkg/tapfd/request.go:166-208 | an error line is read back exactly if both sanitized values are words, and is malformed otherwise |
| `TapFdErrors.VerticalTabSpoils` | pkg/tapfd/request.go:222-231 | a message for which it is malformed |
| `TapFdRecv.Receiver.Collect` | pkg/tapfd/recv.go:83-100 | all descriptors are collected, or those in hand are closed when a message does not parse |
| `TapFdRecv.Receiver.Wrap` | pkg/tapfd/recv.go:149-162 | if any descriptor cannot be wrapped, all are closed, each once |
| `TapFdRecv.Receiver.Decide` | pkg/tapfd/recv.go:114-147 | the counts are accepted exactly if they match |
| `TapFdRecv.Receiver.RecvFdsWithNetns` | pkg/tapfd/recv.go:58-171 | acceptable messages hand over every descriptor, split into tap and netns; all others close every parsed descriptor once; a message without descriptors is reported as the provider error it carries |
| `TapFdRecv.Receiver.RecvFds` | pkg/tapfd/recv.go:38-56 | only the netns descriptor is closed on success, every one on failure |
| `TapFdRecv.Receiver.RecvFd` | pkg/tapfd/recv.go:16-36 | what is handed over and what is closed are together, with multiplicity, what was in hand |

## Left out

- The reordering argument for the inline-assembly publication token; steps are sequentially consistent.
- Device creation, network namespaces, netlink, mmap and flock calls; each is an arbitrary success or failure.
- The switch start and its rollback, DHCP, the daemon, the command line, JSON output, metadata and status listings.
- The ECMP source-port hash; the UDP source port is a parameter.
- ARP replies and MAC derivation beyond the bytes the tunnel writes.
- The request line builder and parser, the text form of GENEVE options, and the marking of all slots Reserved at start.
- Slots of switches without the publication flag, for which the up test is constant.
- UTF-8 decoding: TAPFD text is modelled as code points, with the byte length counted; byte strings that are not UTF-8 are not covered.
- Management extract device numbers: a slot's classifiers are modelled as routes only.
- ReserveFreeSlots: does not claim that every slot ends Reserved, because slots found Allocated are skipped and may be released right after.
- ReleaseSafe: does not claim that no attachment remains, for the same reason.
- Unreserve: the store of the flags before the compare-and-swap is a step of SlotMachine, not of this loop.
- RecvFdsWithNetns: descriptors of a message whose text is empty or whose control data does not parse at all are outside the accounting, because the code never gets hold of their numbers.
- ProvisionPorts: assumes that map operations work; what each failure leaves behind is in ProvisionSlot.
