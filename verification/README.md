# pbridge, verified

pbridge joins guests to an uplink that accepts one mac address only. A control plane learns
which guest mac owns which ip, and keeps kernel tables in step with that; a datapath, written
once as eBPF programs and once as nf_tables rules, rewrites every frame with those tables.

The project models four parts and what holds across them; `EndToEnd` joins control plane and
datapath, with the frames of a run meeting the tables installed by then.

1. **The control plane.** `State` is the capped entry store and `StoreOrder` the queue it
   refines, `Backend` the two offload backends, `Topology`, `Mirror` and `Subnet` the host's links and addresses, `Core` the state
   machine of learn, netlink, tick and teardown events. The methods of the classes
   `State.Entries`, `EbpfBackend.EbpfBackend`, `NftBackend.NftBackend` and `Syncer.Core` change
   their fields in place, as the program does, and are proved against these machines.
   `CoreInvariant`, `CoreRuns`, `CoreTopology`, `SessionWorld`, `ZeroKeys` and `Aging` state what
   every run keeps; `Prefixes` says what a prefix covers, octet by octet.
2. **Two datapaths.** `Datapath` says what happens to a frame. `EbpfDatapath` holds the eBPF
   programs, storing into the packet step by step; `NftMachine` is the nf_tables register
   machine and `NftRules` the rule lists. `InboundEquivalence`, `NftOutbound`, `NftOutChain`,
   `OutboundEquivalence`, `NdEquivalence`, `NdCoverage`, `NftLearning`, `NftMarks` and
   `GuardEquivalence` compare them.
3. **Checksums.** `Checksum` is one's-complement arithmetic (section 3 of RFC 1624), `Packet`
   the full ICMPv6 recomputation (section 2.3 of RFC 4443, section 8.1 of RFC 8200).
4. **Netlink.** `Tlv`, `SetDump` and `NetlinkDump` encode and parse attributes, set elements and
   whole dumps; `NftFlush` reads the marks out of them, and `WireReading` gives instances byte
   for byte.

Several properties hold only under a condition. Each is stated as an if-and-only-if, and
`FrameWitnesses` and `RunWitnesses` give a frame or a run at which it fails.

Conventions. The v4 and v6 tables are one table keyed by `Ip`. Integers are unbounded except
where width matters (the 32-bit checksum sum, the 16-bit attribute length, netlink lengths).
Native byte order is little-endian. A loop over a hash map takes the order as a parameter, so
each statement holds for every order. Times are parameters, in milliseconds. A failed
`bpf_skb_load_bytes` leaves zeros in its buffer; an nft payload load out of range breaks the
rule; nft's `dup` does not end a rule.

Where code and comments differ, the code is modelled:

- src/state.rs:203-205 expects a second eviction; `State.AtMostOneVictim` shows there is none.
- src/core.rs:702-703 calls a proxy deletion safe beside a host address; it is exactly when no
  proxied address is also a host's /32 or /128 (`CoreTopology.HostAddressesKeptIff`).
- src/core.rs:331 compares addresses without prefix lengths; `CoreTopology.MirrorExactIff` and
  `CoreTopology.RouteSourcesExactIff` say when mirror and route sources are exact all the same.
- src/core.rs:404-488 reads the snapshot before it moves the guest port into --bridge, so that
  the next event still has work to do (`CoreTopology.NetlinkIsIdempotent`).
- The nft rules are meant to copy to userspace what the eBPF program reports, and to mark alive
  what it marks; they do, except for four kinds of frames each
  (`NftLearning.EnginesLearnAlikeFwd`, `NftMarks.EnginesMarkAlikeFwd`).
- src/core.rs:535-537 expects no echo of a frame learned before it is sent again; there is none
  exactly when the binding is installed (`EndToEnd.NoEchoIff`).

## Model

| member | source | states |
|---|---|---|
| State.Entries.constructor | src/state.rs:41-43 | a new store is empty and keeps its caps |
| State.Entries.EvictOldest | src/state.rs:92-107 | the scan removes the unique oldest entry of the family and, if given, of the mac, whatever the iteration order |
| State.Entries.MakeRoom | src/state.rs:121-132 | one cap check evicts exactly when its scope is full, and never grows the store |
| State.Entries.Learn | src/state.rs:109-137 | the new store and the changed list are those of `Learned`, which `StoreOrder` ties to an admission queue, and creation ages stay distinct |
| State.Entries.Remove | src/state.rs:140-142 | only that address goes, and the answer says whether it was there |
| State.VictimIsUnique | src/state.rs:92-107 | in a store with distinct ages the victim is determined and strictly older than all others of its scope |
| State.GuestIsolation | src/state.rs:109-137 | a mac at its cap pays for a new address with exactly its own oldest entry of that family, and no other entry moves |
| State.AtMostOneVictim | src/state.rs:121-132 | in every reachable store one learn evicts at most one entry |
| State.ChangedIsTheDiff | src/state.rs:109-137 | an address is reported if and only if its binding differs before and after, once each |
| State.RunsStayReached | src/state.rs:62-137 | over every run ages stay distinct and each family count stays within max(1, global cap) |
| State.CountAfter | src/state.rs:80-137 | a move adds one to a mac's count; any other operation leaves it under the cap or no larger |
| State.AdmissionCount | src/state.rs:121-132 | a fresh admission at or above the cap never raises any mac's count |
| State.PerMacBound | src/state.rs:80-137 | over every run a mac holds at most max(1, cap) plus the number of addresses moved to it |
| StoreOrder.RunIsQueue | src/state.rs:92-142 | over every run the entries are those of a queue without ages: a new address drops the first binding of its mac's full scope, then of the full family, and goes to the end; a known one is rebound in its place; the ages are in the queue's order |
| StoreOrder.AgesAreAdmissions | src/state.rs:109-137 | over every run one entry is older than another iff the operation that last admitted it came first: a learn of a present address moves nothing |
| StoreOrder.VictimWasAdmittedFirst | src/state.rs:92-107 | so the victim of a scope is the member admitted first |
| StoreOrder.EntriesAreLastLearned | src/state.rs:109-137 | over every run an entry has the mac and the time of the last learn of its address |
| StoreOrder.LearnedIsThere | src/state.rs:109-137 | a learn leaves the address in the store, with that mac and time |
| EbpfBackend.EbpfBackend.Init | src/backend/ebpf.rs:99-153 | a session starts with empty entry maps and the given host addresses |
| EbpfBackend.EbpfBackend.Teardown | src/backend/ebpf.rs:155-162 | nothing survives a teardown |
| EbpfBackend.EbpfBackend.SetHostIps | src/backend/ebpf.rs:175-208 | removing strays and inserting the wanted leaves exactly the wanted set, or an error when not loaded |
| EbpfBackend.EbpfBackend.WriteEntry | src/backend/ebpf.rs:210-236 | the entry is mapped and marked, or nothing changes when not loaded |
| EbpfBackend.EbpfBackend.WithdrawEntry | src/backend/ebpf.rs:238-264 | entry and mark go together |
| EbpfBackend.EbpfBackend.RefreshSeen | src/backend/ebpf.rs:266-282 | only the mark of that address changes |
| EbpfBackend.EbpfBackend.Flush | src/backend/ebpf.rs:284-320 | reports each marked address once, unmarks them and drops the unmarked |
| NftBackend.NftBackend.Transact | src/backend/nft/mod.rs:263-338 | a batch commits as a whole or leaves the kernel sets untouched |
| NftBackend.NftBackend.FlashEntry | src/backend/nft/mod.rs:263-300 | map, valid and seen elements appear in one transaction |
| NftBackend.NftBackend.UnflashEntry | src/backend/nft/mod.rs:316-338 | map and valid elements go together; an expired mark does not make it fail |
| NftBackend.NftBackend.WriteEntry | src/backend/nft/mod.rs:435-445 | a rebinding removes the stale elements first, and the shadow follows |
| NftBackend.NftBackend.WithdrawEntry | src/backend/nft/mod.rs:447-452 | shadow and kernel lose the entry; an unknown address is a success |
| NftBackend.NftBackend.RefreshSeen | src/backend/nft/mod.rs:302-314 | deleting and re-adding the element renews its timeout; an error exactly for a known address while the session is down |
| NftBackend.NftBackend.Rebuild | src/backend/nft/mod.rs:116-147 | element by element, the kernel ends with exactly the shadow, freshly seen |
| NftBackend.NftBackend.Init | src/backend/nft/mod.rs:346-370 | the surviving shadow is flashed again |
| NftBackend.NftBackend.Teardown | src/backend/nft/mod.rs:372-381 | the kernel is emptied and the shadow kept |
| NftBackend.NftBackend.SetHostmac | src/backend/nft/mod.rs:383-389 | a rebuild under the new HOSTMAC |
| NftBackend.NftBackend.AddHosts | src/backend/nft/mod.rs:399-433 | shadow and kernel gain exactly these addresses, or with the session down one enters the shadow and the call fails |
| NftBackend.NftBackend.DelHosts | src/backend/nft/mod.rs:399-433 | the same for deletions |
| NftBackend.NftBackend.SetHostIps | src/backend/nft/mod.rs:399-433 | applying only the difference leaves exactly the wanted host set; with the session down it fails iff there is a difference, and the shadow records one |
| NftBackend.NftBackend.Flush | src/backend/nft/mod.rs:461-478 | two whole dumps or an error; when the kernel lists its unexpired marks, the report is exactly `NftAlive` |
| NftFlush.CutKeys | src/backend/nft/mod.rs:464-476 | each key is cut to an address of its family, and a key too short is skipped |
| NftFlush.CutGivesMarks | src/backend/nft/mod.rs:464-476 | from keys that begin with the marks' octets, padded or not, the marks come back in order |
| NftFlush.FlushReportsTheAlive | src/backend/nft/mod.rs:461-478 | end to end, from the datagrams of both dumps to the addresses whose mark has not expired |
| Backend.NftWriteKeeps | src/backend/nft/mod.rs:435-445 | on synchronized sets a write succeeds and keeps valid equal to the pairs of ip2mac |
| Backend.NftWithdrawKeeps | src/backend/nft/mod.rs:447-452 | so does a withdrawal |
| Backend.BackendsRefineOneMap | src/backend/nft/mod.rs:399-452 | after any operations both engines hold the same ip2mac and host tables, and (ip, mac) is in nft's set iff eBPF's lookup gives that mac |
| Backend.InitAgrees | src/backend/nft/mod.rs:346-370 | a first session starts them in agreement |
| Backend.FlushReportsTheMarked | src/backend/ebpf.rs:210-320 | a flush reports exactly what was marked, written or refreshed since the previous one and not withdrawn |
| Mirror.LeaveRestores | src/core.rs:1010-1046 | leaving a bridge brings back its knobs and its own global addresses and touches no other bridge |
| Mirror.ApplyClears | src/core.rs:981-1007 | the first mirror onto a bridge finds it bare and the way back saved |
| Mirror.ReconcileKeeps | src/core.rs:1050-1082 | after reconcile_mirror the target bridge has exactly the wanted addresses and every other bridge is as its owner left it |
| Mirror.FilledAddrs | src/core.rs:1061-1082 | what filling adds is noprefixroute, without a metric and global unless IPv6 link-local; what it keeps is unchanged and what is stale goes |
| Mirror.RestoredAddrs | src/core.rs:1010-1034 | what restoring puts back are the saved addresses as plain global ones, and both knobs |
| Subnet.SelectSrc | src/core.rs:1102-1124 | the result is the most precise covering prefix, smallest address on a tie, and none iff none covers |
| Subnet.BestIsUnique | src/core.rs:1102-1124 | that result does not depend on the order of the host's addresses |
| Prefixes.ContainsIff | src/core.rs:1134-1152 | a prefix covers an address iff the families agree, it is no longer than the octets, the first plen/8 octets agree and so do the top plen%8 bits of the next |
| Prefixes.BetterIff | src/core.rs:1102-1132 | of two prefixes of a family the longer is better, and of equally long ones that with the lexicographically smaller octets |
| Prefixes.LinkLocalIff | src/types.rs:87-96 | link-local is 169.254.0.0/16 and fe80::/10 |
| Prefixes.LearnableIff | src/types.rs:78-85 | all but 224.0.0.0/4, 127.0.0.0/8, ff00::/8, the unspecified and broadcast addresses and ::1 can be learned |
| Syncer.Core.constructor | src/core.rs:85-103 | the process starts in an initial state, in which the invariants of all runs hold |
| Syncer.Core.WriteHostRoute | src/core.rs:899-916 | a route to the current bridge with the selected source, only for routable addresses in fwd mode |
| Syncer.Core.PickSrc | src/core.rs:1102-1124 | the loop over the snapshot's addresses finds the unique best source |
| Syncer.Core.WithdrawHostRoute | src/core.rs:918-925 | record and kernel route go together |
| Syncer.Core.WithdrawAllHostRoutes | src/core.rs:927-936 | every recorded route is gone, and no other |
| Syncer.Core.ProxyAddr | src/core.rs:644-662 | an eligible guest address is tagged onto up0 once |
| Syncer.Core.UnproxyAddr | src/core.rs:698-707 | its /32 or /128 is deleted again |
| Syncer.Core.UnproxyAll | src/core.rs:709-714 | all of them, one by one |
| Syncer.Core.Reconcile | src/core.rs:569-596 | state and success are those of `Core.Reconcile`, early return on a backend error included |
| Syncer.Core.ReconcileSeq | src/core.rs:556-565 | the loop stops at the first error |
| Syncer.Core.ReconcileAll | src/core.rs:716-721 | every entry is reconciled, in the order the map gives them |
| Syncer.Core.CleanMirrorFrom | src/core.rs:1036-1046 | address by address, exactly the mirrored ones go |
| Syncer.Core.RestoreBridgeCfg | src/core.rs:1010-1034 | knobs and saved addresses return, if the saved record is this bridge's |
| Syncer.Core.ApplyBridgeCfg | src/core.rs:981-1007 | own addresses go, the global ones are saved |
| Syncer.Core.ReconcileMirror | src/core.rs:1050-1082 | the whole reconcile as one step of the mirror machine |
| Syncer.Core.DoLearn | src/core.rs:556-565 | a learn is one step of the state machine |
| Syncer.Core.TeardownSession | src/core.rs:490-513 | so is a teardown |
| Syncer.Core.InitSession | src/core.rs:404-488 | the second recompute decides, and the entries are walked in some order of the map; `SessionWorld` says what that tells the backend of the world |
| Syncer.Core.ApplyDiff | src/core.rs:327-379 | backend, routes, mirror and entries are updated in the source's order |
| Syncer.Core.OnNetlinkChange | src/core.rs:302-379 | a netlink event is one legal step of the state machine |
| Syncer.Core.Probe | src/core.rs:863-895 | exactly the guests inside the grace period are refreshed |
| Syncer.Core.AgeOut | src/core.rs:741-746 | dead entries are removed and withdrawn one by one |
| Syncer.Core.ProbeTick | src/core.rs:730-739 | the probe half of a tick: a legal step that refreshes marks and removes nothing |
| Syncer.Core.Flush | src/core.rs:740-742 | the flush reports the living, and exactly the other entries are listed dead |
| Syncer.Core.FlushTick | src/core.rs:740-748 | the flush half of a tick is one legal step |
| Syncer.Core.OnTick | src/core.rs:723-748 | a tick is one legal step of the state machine |
| Syncer.Core.Handle | src/core.rs:133-179 | each input takes the one legal step it asks for, with its own address, mac, index and time |
| Syncer.Core.Serve | src/core.rs:133-179 | for every sequence of inputs the object ends where the legal run of their events, one for one, ends; its kernel table, record, routes and proxies follow its entries, and if others respect the mirrored bridge there is one mirror, on the current bridge, every other bridge as its owner left it |
| CoreInvariant.ReconcileSettles | src/core.rs:569-596 | on a live session reconcile makes kernel, record, route and proxy of that address right and disturbs no other |
| CoreInvariant.ReconcileSeqOffline | src/core.rs:569-596 | with the session down a reconcile reaches nothing in the kernel |
| CoreInvariant.LearnKeepsInv | src/core.rs:556-565 | the invariant survives a learn, victims included |
| CoreInvariant.TeardownKeepsInv | src/core.rs:490-513 | and a teardown |
| CoreInvariant.InitKeepsInv | src/core.rs:404-488 | and a (re-)init with nft's surviving shadow |
| CoreInvariant.DiffKeepsInv | src/core.rs:327-379 | and a diff of an active session |
| CoreInvariant.TickKeepsInv | src/core.rs:723-748 | and a tick |
| CoreInvariant.RunKeepsInv | src/core.rs:302-748 | and so every run |
| CoreInvariant.KernelFollowsEntries | src/core.rs:302-748 | after any run: while the session is up, the kernel's ip2mac and `installed` are exactly the entries that are not the host's, host routes exactly their routable part on the current bridge, proxies installed; while it is down nothing is left but nft's shadow, inside the entries |
| CoreInvariant.InvFollows | src/core.rs:569-748 | the same of any state that keeps the invariant |
| SessionWorld.SessionToldTheWorld | src/core.rs:184-379 | after any run, a netlink event that leaves a session up has told the backend HOSTMAC (the bridge's mac in direct mode, up0's if it has none or in fwd mode), BRMAC (the bridge's, in fwd mode only) and exactly the host's global or link-local addresses, untagged ones of up0 in fwd mode and the bridge's in direct mode |
| SessionWorld.SessionUpIff | src/core.rs:302-325 | an event leaves a session up iff up0 is there and there was one or HOSTMAC is known |
| SessionWorld.StartedLinks | src/core.rs:404-488 | a started session has its veth in fwd mode, and --bridge holds the guest-facing port if that bridge exists |
| SessionWorld.TornDownLinks | src/core.rs:490-513 | a teardown removes the veth and, from up0, exactly the /32 and /128 of the proxied guests |
| SessionWorld.ProxiedIff | src/core.rs:617-662 | reconciling a wanted address proxies it iff the workaround covers its family, it is link-local or agrees bit for bit with a prefix of the host, it is no gateway and up0 is current; then up0 carries it tagged, noprefixroute, with its full length |
| SessionWorld.UnproxiedIff | src/core.rs:698-707 | withdrawing an address takes away its proxy and exactly that key of up0 |
| SessionWorld.RunsProxySelected | src/core.rs:617-662 | in every run only addresses of covered families are proxied |
| SessionWorld.EligibleAreProxied | src/core.rs:327-379 | after any run, an event that finds HOSTMAC, an address of the host, the bridge or the veth other than the session was told leaves every installed, covered and on-link address proxied |
| SessionWorld.RoutesIff | src/core.rs:899-916 | after any run a session has routes for exactly the installed addresses that are not link-local, in fwd mode with a table and a bridge |
| SessionWorld.SkippedWithinGrace | src/core.rs:863-880 | in every run a proxied guest last learned at u is skipped by a probe at t iff t is less than min(5, max(1, timeout/2)) seconds later |
| CoreRuns.TableHoldsNoZeroKeys | src/core.rs:556-565 | no run puts an unlearnable address, the all-zero ones included, into the kernel's table |
| ZeroKeys.TablesHoldNoZeroKeys | src/core.rs:302-748 | nor, as long as no interface ever shows the all-zero address, is one in the host set: proxies, mirror and saved addresses included |
| CoreTopology.MirrorRoundTrip | src/core.rs:981-1083 | over every run in which others leave the mirrored bridge's addresses and knobs alone and put no noprefixroute address on another bridge: at most the current bridge carries mirrored addresses, it carries nothing else covers exactly up0's addresses and has addr_gen_mode 1 and accept_ra 0, and every other bridge has its knobs and own global addresses |
| CoreTopology.MirrorExactIff | src/core.rs:327-372 | prefix lengths included, the mirror is exact after a diff iff addresses or bridge changed or it was exact before |
| CoreTopology.NetlinkIsIdempotent | src/core.rs:302-379 | whatever the first event did, a repeated event with nothing changed outside writes nothing, iff the first did not both start a session and move the guest port into its bridge |
| CoreTopology.RunsSettle | src/core.rs:302-379 | after every run in which nobody gives the host a proxied guest's address, no proxy shadows a host address, and the same if-and-only-if holds there |
| CoreTopology.RouteSourcesExactIff | src/core.rs:327-379 | after a diff every route has the source the snapshot selects iff mac, addresses or bridge changed or the sources were right already |
| CoreTopology.HostAddressesKeptIff | src/core.rs:698-707 | an event keeps the host's visible addresses iff no proxied address is one of them with its host prefix length |
| Aging.IdleBounds | src/backend/ebpf.rs:284-320 | in every eBPF run an installed entry that a flush ages out was last marked between the last two flushes: idle at least p when flushes are at least p apart, less than 2p when exactly p; one it keeps was marked since the last flush |
| Aging.KeepaliveIsSafe | src/core.rs:723-748 | in every run of the syncer, a proxied guest that is marked alive between each probe tick that does not refresh it and the next flush keeps its entry and proxy, the tick without HOSTMAC included; on nft that flush must come less than a timeout after the probe |
| Aging.SkipMeansRecentControl | src/core.rs:863-880 | in every run, a guest skipped at a tick at least a period after an earlier one was learned from a control frame in between |
| Aging.FlushAgesOut | src/core.rs:740-746 | through a flush tick, every backend call and early return included, an entry stays iff the flush reports its address |
| Aging.SurvivesIff | src/backend/nft/mod.rs:461-478 | on nft a guest whose mark is not renewed survives a flush iff it comes before the mark expires |
| Aging.QuietRunsNeverRenew | src/backend/nft/mod.rs:302-314 | told by events: without a mark or refresh of the guest, a rebuild, a rebinding, an eviction or a flush that finds it dead, its mark keeps its expiry |
| Aging.NftNeedsTwoSeconds | src/core.rs:114-121 | in every nft run a guest skipped at a probe and not heard again survives the flush iff it comes less than a timeout later; so below two seconds each such guest is lost, and from two on an on-time flush keeps it |
| Checksum.FoldStep | src/packet.rs:152-154 | one carry step keeps the folded value |
| Checksum.WordSumStore | src/packet.rs:135-151 | overwriting words moves the sum by exactly their difference |
| Checksum.ReplacedBalances | bpf/pbridge.bpf.c:106-117 | the incremental update keeps field plus covered words, up to multiples of 65535 |
| Packet.AddWords | src/packet.rs:135-151 | the loop computes the word sum, odd tail included, without overflowing 32 bits |
| Packet.FoldCarries | src/packet.rs:152-154 | the fold loop terminates with the one's-complement value |
| Packet.MessageSum | src/packet.rs:133-154 | pseudo-header and message are summed as one covered range |
| Packet.FixIcmpv6Csum | src/packet.rs:116-161 | in place: true iff a whole ICMPv6 packet, then the packet of `Fixed`, else untouched |
| Packet.FixedTouchesField | src/packet.rs:155-160 | only bytes 42 and 43 change, and the stored checksum is never zero |
| Packet.FixedVerifies | src/packet.rs:116-161 | a receiver accepts the repaired message, odd lengths included |
| Packet.FixedIdempotent | src/packet.rs:116-161 | repairing twice changes nothing more |
| Packet.ChecksumIsUnique | src/packet.rs:116-161 | two valid packets that differ in the field only carry the same checksum, up to the two zeros |
| EbpfDatapath.NdRewrite | bpf/pbridge.bpf.c:106-117 | option and checksum in place, only for a foreign mac in an option of the wanted type |
| EbpfDatapath.Programs.OutV4 | bpf/pbridge.bpf.c:137-164 | frame, learn event and mark of an IPv4 frame |
| EbpfDatapath.Programs.OutNd | bpf/pbridge.bpf.c:179-208 | the same for neighbour discovery |
| EbpfDatapath.Programs.OutV6 | bpf/pbridge.bpf.c:174-220 | the same for any IPv6 frame |
| EbpfDatapath.Programs.OutCommon | bpf/pbridge.bpf.c:120-223 | the outbound program drops what claims to be the host's and otherwise sends `OutFrame`, learns and marks; verdict and bytes are the `Outbound` of the comparison with nft |
| EbpfDatapath.Programs.InCommon | bpf/pbridge.bpf.c:225-291 | on every frame and every table the inbound program computes the inbound rows for the address in its buffer, cleared when the frame is too short; so `Inbound` itself unless the lookup is misled |
| Datapath.PeekedIff | bpf/pbridge.bpf.c:225-291 | the cleared buffer changes verdict, bytes or clones iff the all-zero address is a host's and hides a group frame, or a guest's and takes or renames a frame to HOSTMAC |
| EbpfDatapath.Programs.EgressGuard | bpf/pbridge.bpf.c:303-386 | the guard computes `Guarded`, edits made, cloned and undone in place |
| EbpfDatapath.Programs.DiscoverArp | bpf/pbridge.bpf.c:331-347 | a request of an unknown sender is cloned without its sender address, which is then put back |
| EbpfDatapath.Programs.GuardV6 | bpf/pbridge.bpf.c:348-383 | exactly the solicitations that `DiscoversNs` describes are cloned; all else is left alone |
| EbpfDatapath.Programs.DiscoverNs | bpf/pbridge.bpf.c:348-383 | its solicitation part: four checksum updates around one clone |
| DatapathProperties.NoSourceLeak | bpf/pbridge.bpf.c:120-223 | every IPv4, ARP or IPv6 frame leaves with HOSTMAC as source, as ARP sender and in its neighbour-discovery option |
| DatapathProperties.PatchVerifies | bpf/pbridge.bpf.c:106-117 | a covered in-place edit with its incremental update keeps a valid packet valid |
| DatapathProperties.RewriteIsPatch | bpf/pbridge.bpf.c:106-117 | nd_rewrite is such an edit of the packet above the Ethernet header |
| DatapathProperties.ArpDiscovery | bpf/pbridge.bpf.c:331-347 | the ARP clone has sender 0.0.0.0 and the wire frame is the normalized original |
| DatapathProperties.NsDiscoveryRestores | bpf/pbridge.bpf.c:348-383 | after the undo the wire frame is the normalized original, byte for byte unless its checksum was 0xffff |
| DatapathProperties.NsCloneIsAnonymous | bpf/pbridge.bpf.c:348-383 | the clone has source ::, option type 200, and otherwise the original's bytes outside source mac and checksum |
| DatapathProperties.OnlyHostSolicitationsCloned | bpf/pbridge.bpf.c:303-386 | every frame behind the guard has source HOSTMAC, and address probes and learned guests are never cloned |
| DatapathProperties.ClonesIff | bpf/pbridge.bpf.c:303-386 | on the bytes: the guard clones, once and to the guests' port, exactly broadcast ARP requests and multicast solicitations with a source option whose sender is set and no guest's |
| NdCoverage.NsCloneValidIff | bpf/pbridge.bpf.c:348-383 | the clone of a valid solicitation is valid iff its payload reaches the neutralized type byte |
| NdCoverage.PatchVerifiesIff | bpf/pbridge.bpf.c:106-117 | an edit that may run past the payload keeps a valid packet valid iff the uncovered words weigh the same |
| NdCoverage.NdPathsAgreeIff | src/core.rs:534-552 | for every valid NS, NA or RS with a foreign first option, in-place rewrite and userspace reinjection put the same frame on the wire iff the option's uncovered words weigh the same |
| NdCoverage.CoveredIsBalanced | src/packet.rs:143-151 | in particular whenever the option lies inside the payload |
| NdCoverage.NdPathsAgree | src/core.rs:534-552 | with the option inside the payload both paths send the same frame, and it verifies |
| NdCoverage.NdEnginesAgreeFwd | src/backend/nft/mod.rs:503-545 | through the whole fwd chain: nft drops the frame, copies it once and userspace's frame is eBPF's, iff the option's uncovered words weigh the same |
| NdCoverage.NdEnginesAgreeDirect | src/backend/nft/mod.rs:632-646 | the same through the direct chain |
| NftMachine.RunAppend | src/backend/nft/wire.rs:198-320 | rules compose: running a concatenation is running its parts |
| NftRules.InDemuxIpEffect | src/backend/nft/mod.rs:677-689 | the IP demux rule hands over exactly the frames for a known guest, its mac in place |
| NftRules.InDemuxArpEffect | src/backend/nft/mod.rs:691-701 | the ARP demux rule does so for ARP, target mac included |
| NftRules.InHostIpEffect | src/backend/nft/mod.rs:652-675 | the host rule accepts exactly HOSTMAC frames for a host address |
| InboundEquivalence.FwdEquivalenceIff | src/backend/nft/mod.rs:703-733 | in fwd mode the rule list gives the verdict, bytes and copies of the inbound program iff the frame is not a group frame to HOSTMAC for a guest |
| InboundEquivalence.FwdEquivalence | src/backend/nft/mod.rs:703-733 | with HOSTMAC unicast and the packet type consistent they agree on every frame and every table |
| InboundEquivalence.DirectEquivalence | src/backend/nft/mod.rs:735-744 | in direct mode they agree on every frame and every table |
| NftOutbound.NftFwdNeverLeaks | src/backend/nft/mod.rs:618-630 | whatever the frame, the fwd chain drops it or sends it to up0 with source HOSTMAC |
| NftOutbound.NftDirectNeverLeaks | src/backend/nft/mod.rs:632-646 | the direct chain likewise |
| NftOutChain.FwdEffect | src/backend/nft/mod.rs:618-630 | for every frame and table, verdict and bytes of the whole fwd chain, what it copies to userspace and what it marks as seen |
| NftOutChain.DirectEffect | src/backend/nft/mod.rs:632-646 | the same for the direct chain |
| OutboundEquivalence.FwdSendsAlikeIff | src/backend/nft/mod.rs:618-630 | for every frame, verdict, clones and every byte out of the fwd chain are the eBPF program's iff the frame is held back, or it is not discovery that nft hands to userspace, not of another ethertype, not on ports 68/67 over IPv6 with other bytes where nft writes, and not DHCP cut off before its flags with a checksum |
| OutboundEquivalence.DirectSendsAlikeIff | src/backend/nft/mod.rs:632-646 | the same in direct mode, where frames with HOSTMAC as source must come from the host |
| OutboundEquivalence.RequestLeaves | bpf/pbridge.bpf.c:137-153 | a DHCP request over IPv4 leaves with the BOOTP broadcast bit set and the other flags clear, no UDP checksum, source HOSTMAC, every other byte unchanged |
| OutboundEquivalence.NftRequestLeaves | src/backend/nft/mod.rs:547-563 | nft's chains send the same |
| NftLearning.CopiesTeachIff | src/packet.rs:74-111 | what userspace learns from nft's copies is what the eBPF program reports, iff the frame is none of: UDP 68 to 67 too short for nft's rule, ARP for another protocol, those ports over IPv6, neighbour discovery from a known source without a foreign option |
| NftLearning.EnginesLearnAlikeFwd | src/backend/nft/mod.rs:618-630 | the same of the machine's log in fwd mode, for every frame; what the drop rules stop teaches neither engine |
| NftLearning.EnginesLearnAlikeDirect | src/backend/nft/mod.rs:632-646 | the same in direct mode |
| NftMarks.MarksAgreeIff | bpf/pbridge.bpf.c:120-223 | both engines mark the same learnable addresses alive iff the frame is none of: known DHCP too short for nft's rule, known traffic on those ports over IPv6, an advertisement whose target nft does not mark, a solicitation nft neither takes up nor knows |
| NftMarks.EnginesMarkAlikeFwd | src/backend/nft/mod.rs:618-630 | the same of the machine's marks in fwd mode, for every frame |
| NftMarks.EnginesMarkAlikeDirect | src/backend/nft/mod.rs:632-646 | the same in direct mode |
| GuardEquivalence.UnblankedRestores | src/backend/nft/mod.rs:784-807 | nft's undo from register 3 gives the original back, a zero checksum as 0xffff |
| GuardEquivalence.SameClone | src/backend/nft/mod.rs:784-807 | nft's solicitation clone is eBPF's, up to the two zeros |
| GuardEquivalence.GuardsAgreeIff | src/backend/nft/mod.rs:758-816 | the guard rules and the eBPF guard send the same clones and wire frame iff the frame is not a solicitation cut off inside its first option |
| FrameWitnesses.GroupFrameIsDemuxedTwice | src/backend/nft/mod.rs:703-733 | a broadcast IPv4 frame to HOSTMAC for a guest: the engines differ |
| FrameWitnesses.KnownAdvertisementIsNotCopied | src/backend/nft/mod.rs:503-545 | a 78-byte advertisement without option from a known source: eBPF reports the target, nft copies nothing |
| FrameWitnesses.ShortDhcpLearnsApart | src/backend/nft/mod.rs:618-630 | a 42-byte frame with DHCP ports: only nft's copy teaches |
| FrameWitnesses.OddArpLearnsApart | src/packet.rs:74-111 | ARP for another protocol: only eBPF learns |
| FrameWitnesses.Dhcp6LearnsApart | src/backend/nft/mod.rs:618-630 | the DHCP ports over IPv6: only eBPF learns |
| FrameWitnesses.AdvertisementMarksApart | src/backend/nft/mod.rs:503-545 | an advertisement of another address than its source: each engine marks a different one |
| FrameWitnesses.OtherTypeLeavesApart | bpf/pbridge.bpf.c:220-223 | an LLDP frame: only nft puts HOSTMAC into it |
| FrameWitnesses.Dhcp6LeavesApart | src/backend/nft/mod.rs:547-563 | the DHCP ports over IPv6: nft writes flags into the payload |
| FrameWitnesses.ShortDhcpLeavesApart | bpf/pbridge.bpf.c:137-153 | DHCP cut off behind its UDP header: only eBPF clears the checksum |
| FrameWitnesses.ShortFrameMisleads | bpf/pbridge.bpf.c:225-291 | a bare ARP header with 0.0.0.0 among the host addresses is kept from the guests |
| FrameWitnesses.CutSolicitationIsClonedOnce | src/backend/nft/mod.rs:758-816 | an 80-byte solicitation: only nft clones it |
| FrameWitnesses.OptionBehindPayload | bpf/pbridge.bpf.c:106-117 | a valid solicitation with its option behind the payload: the paths send different frames |
| FrameWitnesses.ShortPayloadCloneIsInvalid | bpf/pbridge.bpf.c:348-383 | with its payload of 24 its clone does not verify |
| RunWitnesses.HostAddressIsLost | src/core.rs:698-707 | init, up0 is given x/32, a guest is learned on x: the next event deletes x/32 |
| RunWitnesses.PrefixChangeIsMissed | src/core.rs:327-372 | up0's /31 becomes a /32: the next event leaves the /31 on the bridge and the old source on the guest's route |
| RunWitnesses.StartIsNotQuiet | src/core.rs:404-488 | a first event with --bridge: the repeated event still changes something |
| RunWitnesses.HostAddressIsEchoed | src/core.rs:534-552 | a guest solicits from the host's own address: what is sent again for it is cloned to the guests |
| EndToEnd.TablesInStep | src/backend/nft/mod.rs:263-300 | in every state that keeps the invariant nft's (ip, mac) pairs are those of its table, as the comparisons of the engines assume |
| EndToEnd.RunsAreNotMisled | bpf/pbridge.bpf.c:225-291 | after every run without an all-zero interface address the eBPF inbound outcome is `Inbound` for every frame, however short |
| EndToEnd.ArpMarks | bpf/pbridge.bpf.c:165-173 | an ARP frame in the guest's name marks it, on either engine and in either mode |
| EndToEnd.AdvertisementMarksIff | src/backend/nft/mod.rs:503-545 | an advertisement marks its target always on eBPF, on nft iff the target is its source and the frame is taken up or the source known |
| EndToEnd.AnsweringGuestIsKept | src/core.rs:723-748 | over every run with the guests' frames in it, on either engine: a proxied guest that answers each probe before the next flush, by ARP in its name or an advertisement from the address it advertises, keeps entry and proxy |
| EndToEnd.LearnInstallsIff | src/core.rs:556-596 | a learn leaves the address in the kernel's table iff it is learnable and neither it nor the mac is the host's |
| EndToEnd.NoEchoIff | src/core.rs:531-552 | after every run, neighbour discovery learned from and then sent again is not cloned to the guests iff it is no multicast solicitation or its binding is installed |
| EndToEnd.NftNoEchoIff | src/backend/nft/mod.rs:758-816 | the same of nft's own guard rules |
| Tlv.EncodeAttr | src/backend/nft/wire.rs:159-169 | the padding loop yields the aligned record |
| Tlv.Concat | src/backend/nft/wire.rs:190-196 | appending part by part is concatenation |
| Tlv.ParseAttrs | src/backend/nft/wire.rs:584-597 | the index loop reads records until one is too short or overruns |
| Tlv.RoundTrip | src/backend/nft/wire.rs:159-196 | every list of attributes with payloads up to 65531 bytes comes back in order, types without flag bits |
| Tlv.RoundTripIff | src/backend/nft/wire.rs:159-169 | the bound is exact: a larger payload never comes back |
| Tlv.TruncationIsPrefix | src/backend/nft/wire.rs:584-597 | from a buffer cut anywhere exactly the attributes that end inside it are read, undamaged |
| SetDump.ParseSetelemKeys | src/backend/nft/wire.rs:599-619 | the nested loops collect everything under the key path, in order |
| SetDump.BodyKeys | src/backend/nft/wire.rs:599-619 | the keys of any element list come back, whatever else elements and message carry |
| SetDump.SetelemRoundTrip | src/backend/nft/mod.rs:896-919 | reading what setelem_msg writes gives exactly the key, whatever data and timeout |
| WireReading.SetelemReadsBack | src/backend/nft/mod.rs:896-919 | key, data and timeout each read back under their own path |
| WireReading.Be64IsBigEndian | src/backend/nft/wire.rs:177-179 | the timeout is written most significant octet first |
| WireReading.Seen4OnTheWire | src/backend/nft/mod.rs:896-919 | the 56 bytes for 10.0.0.5 in seen4 with sixty seconds, one by one |
| NetlinkDump.BuildMessage | src/backend/nft/wire.rs:330-346 | header, body and padding of a message |
| NetlinkDump.ScanDatagram | src/backend/nft/wire.rs:546-567 | one datagram yields the keys of its messages and how the dump goes on |
| NetlinkDump.DumpSetElems | src/backend/nft/wire.rs:527-570 | the receive loop over all datagrams |
| NetlinkDump.DumpIsComplete | src/backend/nft/wire.rs:539-570 | a dump closed by NLMSG_DONE gives every message body, however the messages are spread over datagrams |
| NetlinkDump.NoPartialDump | src/backend/nft/wire.rs:542-545 | a socket that fails before NLMSG_DONE yields an error, never the keys so far |
| NetlinkDump.DumpReturnsTheKeys | src/backend/nft/wire.rs:527-570 | end to end the dump returns exactly the keys of the reported elements, in order |
| WireReading.DumpReadsSeen4 | src/backend/nft/wire.rs:527-570 | a literal datagram with that element and NLMSG_DONE dumps to the one key |
| WireReading.ErrorIsReported | src/backend/nft/wire.rs:555-561 | a literal error message ends the dump with its code |
| WireReading.AckEnds | src/backend/nft/wire.rs:555-561 | code zero ends it with what was found |
| WireReading.RuntCrashes | src/backend/nft/wire.rs:562-564 | a message without room for its nfgenmsg ends the program |
| WireReading.BadLengthIsSkipped | src/backend/nft/wire.rs:549-551 | a length below the header or beyond the datagram ends the datagram, not the dump |

## Left out

- The rtnetlink requests, sockets, AF_PACKET sending, reader threads, tokio loop, signals, logging and command line: only their effect on the kernel state is modelled, and calls other than the backend's succeed.
- The ip rules of the vmroute table, veth bring-up and sysctls of fwd0 and fwd1, gratuitous ARP and unsolicited NA: they carry no state of the invariants.
- The local-route retry of proxy_addr: it depends on kernel timing.
- Error returns in the middle of an event, other than those of the backend: the invariants are meant for successful kernel calls.
- Syncer.Core.Reconcile: calls the backend through its value operations, because Dafny traits are not used; each backend class is proved against the same operations.
- Syncer.Core.Probe: the probe frames themselves are not built; only the refreshed marks are.
- Syncer.Core.Handle: one input at a time; the select loop's fairness and channel capacities are not modelled.
- Kernel map capacities, checksum-offload states, VLAN tags, IPv4 options and IPv6 extension headers: outside the fixed offsets the code uses.
- NdCoverage.NdPathsAgreeIff: assumes a payload of at least four bytes, the least that holds a checksum field.
- Packet.FixedVerifies: assumes the same; with less the function writes a field the sum does not cover.
- Aging.IdleBounds: speaks of installed entries; an entry the host owns has no mark and is aged out however recently it was heard.
- Aging.KeepaliveIsSafe: assumes that no netlink change, eviction or rebinding takes the proxy away in the meantime; those are not aging.
- CoreTopology.RunsSettle: assumes of the outside that it gives the host no proxied guest's address; without that `RunWitnesses.HostAddressIsLost` applies.
- SetDump.SetelemRoundTrip: assumes the element fits one attribute of 65531 bytes; pbridge's keys have at most 24.
- NetlinkDump.DumpReturnsTheKeys: assumes whole messages of at most 65536 attribute bytes per datagram, as the receive buffer does.
- The fixed ARP and NS builders, arp-keepalive and the expression encoders of wire.rs: only easy shape facts.
- Counters: the creation sequence and the aging tick do not wrap around.
