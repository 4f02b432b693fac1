# Sharded store, API server, liveness rules and retrieval index

This project models four systems of the repository and proves what they promise.

**IronKV, the sharded key-value store.** `KeyRanges`, `HostProtocol.dfy` (delivery and host protocol) and
`ShardedStore*` model any number of hosts that own key ranges, serve Get and Set, hand ranges over with Shard and
Delegate, and redirect. A key is claimed by the host whose map says so, by a Delegate its sender still holds, or by a
Delegate buffered at its receiver; every key has exactly one claim in every run, and the hosts together are one store.
`DelegationMaps` is the compact range map with its in-place operations, `DeliveryImpl` and `HostImpl` the host as it
runs, each step of which is a step of the protocol and does what `HostOutcomes` says of its tables; `RunningHosts` puts
it into the system, `Redelivery` shows that nothing on its way is lost for good, and `ExampleRun` is a run.

**The executable Kubernetes API server and the shim's retry loop.** `KubeObjects` and `ApiServer` hold the objects,
their validation and the server; `ApiServerRuns` proves what holds over every request sequence, and `ApiServerOutcomes`
what each request does; `GetThenUpdate` proves the retry loop atomic and terminating under interference.

**Temporal logic.** `TemporalLogic` states the proof rules over formulas judged at a position of an infinite execution,
which stands for the suffix that starts there; `LockDemo` applies them to two threads and a lock.

**The retrieval index.** `Snapshots` is publication as a protocol of concurrent builders and readers with crashes,
`Masking` and `Tokens` blank what is no code, `Chunking` and `DocumentChunks` cut sources and documents, and `Selection`
picks diverse results.

## Where the code does not do what it says

- `host_protocol_t.rs:135` and `single_delivery_t.rs:94` end a frame conjunct with `..post` where `..pre` is meant, so the
  receive relation leaves the table and the delegation map (and, on an acknowledgement, the tombstones) free. The
  system theorems are proved of the framed relation `FramedNext`, which the implementation is proved to satisfy;
  `WrittenReceive` says exactly when a step of the written relation can break single ownership.
- `host_impl_v.rs:622-636` explains that on a failed send the implementation reports no events, which its contract
  accepts. `RealNextImpl` here proves the stronger statement given there as the right one: the step is taken with all
  its events, and the history grows by a prefix of them.
- Shim and executable server disagree about what a replace addresses. The shim sends get and replace through one `Api`
  of `api_resource` (`controller_runtime.rs:543-547`, 554, 581); the executable server ignores `api_resource` and looks
  an update up under the kind of its object (`api_server.rs:381-385`), as the request's view does
  (`kubernetes_api_objects/exec/api_method.rs:159-168`). On that server, when the two kinds differ, a replace never
  succeeds, and the loop goes on exactly while the get finds an owned object and the replace another one of the same name
  (`MismatchedRetriesExactly`, `LeftAloneRetriesExactly`; `TwinsClash` reaches such a state by two creations). An error
  may then be that of no single instant (`RetryingIsAtomic` says exactly when, `SomeErrorIsNotAtomic` gives an input).
  A result that is no error is atomic for every request.
- The loop simulates the cluster model's own operation
  (`kubernetes_cluster/spec/api_server/state_machine.rs:714-758`) only for owners that are controllers, since it never
  checks `well_formed`: `AtomicIsTheClustersExactly` and `RetryingIsTheClusters` say exactly when the two agree, and
  `SomeUpdateTheClusterRefuses` is an update that the loop carries out and the cluster model refuses.
- `kube_error_to_api_error` (`controller_runtime.rs:631-656`) renames exactly one error that an update can end in,
  `Forbidden`, to `Other` (`OnlyForbiddenIsRenamed`). `UpdatesAreForbiddenExactly` says when it arises, and
  `SomeErrorIsRenamed` gives an input.
- `chunking.py:76-80`: a declaration whose own line begins with an attribute can be pulled into the region of the next
  declaration. `OwnRegionExactly` gives the condition on lines and declarations, and `SomeDeclarationLosesItsRegion` a
  text; the declaration is still in exactly one chunk.
- `index_builder.py:371-373` would roll back a generation that is already published if anything raised after the swap;
  nothing does (`RollbackIsSafeExactly`).

## Model

| member | source | states |
|---|---|---|
| KeyRanges.EmptyRangeHasNoKeys | projects/verified-ironkv/ironsht/src/keys_t.rs:105-113 | A range whose two end points compare as empty contains no key at all, and a range that does not compare as empty contains one |
| SingleDelivery.DeliveredIsReceived | projects/verified-ironkv/ironsht/src/single_delivery_t.rs:75-190 | The computed outcome of a packet satisfies the receive relation, and is the only outcome of the relation once an acknowledgement leaves the tombstones alone; the same for the set of acks sent |
| HostProtocol.TakingInReceives | projects/verified-ironkv/ironsht/src/host_protocol_t.rs:125-200 | Taking in a packet when the buffer is free is a receive step that sends nothing invalid, whatever delegation map it ends with: the written frame conjunct does not pin it |
| ShardedStore.MovedKeepsClaims | projects/verified-ironkv/ironsht/src/host_protocol_t.rs:293-380 | If the claims before and after a step correspond one to one and carry the same values but for one write, each key keeps exactly one claim and the global table changes by that write only |
| ShardedStoreSteps.FreshHostMessageIsHeld | projects/verified-ironkv/ironsht/src/single_delivery_t.rs:75-79 | A packet from a host that its receiver has not seen is the very message its sender still holds for retransmission; it is a Delegate with a nonempty range, a table inside that range and valid values |
| ShardedStoreSteps.TruncateDropsAcked | projects/verified-ironkv/ironsht/src/single_delivery_t.rs:29-40 | On a gap-free list, truncation drops exactly the messages that the acknowledged number covers |
| ShardedStoreSteps.TakeAckKeepsInv | projects/verified-ironkv/ironsht/src/single_delivery_t.rs:82-100 | Taking in an acknowledgement keeps the system invariant: acknowledged <= seen <= sent on every lane between hosts, and every unseen message is still held |
| ShardedStoreSteps.TakeAckMovesNothing | projects/verified-ironkv/ironsht/src/single_delivery_t.rs:82-100 | Taking in an acknowledgement moves no claim: only messages already seen are dropped |
| ShardedStoreSteps.TakeMessageMoves | projects/verified-ironkv/ironsht/src/host_protocol_t.rs:125-143 | Taking in a message moves exactly the claim of the Delegate it carries, from its sender's list to the receiver's buffer, and nothing else |
| ShardedStoreSteps.GetServes | projects/verified-ironkv/ironsht/src/host_protocol_t.rs:203-234 | A Get is logged exactly by the owner, which answers with its own value; any other host logs nothing and sends a redirect to the owner it knows, or nothing |
| ShardedStoreSteps.SetServes | projects/verified-ironkv/ironsht/src/host_protocol_t.rs:237-290 | A Set is logged exactly by the owner when a reply goes out and the value is valid; then the table changes at that key only; in every other outcome the table is untouched |
| ShardedStoreSteps.ServeMoves | projects/verified-ironkv/ironsht/src/host_protocol_t.rs:203-290 | Serving a Get or Set moves no claim and changes the claimed values by the logged write only |
| ShardedStoreSteps.AdoptMoves | projects/verified-ironkv/ironsht/src/host_protocol_t.rs:293-315 | Processing a host's Delegate turns the buffered claim of exactly the keys of its range into ownership, with the values it carried; a Delegate from a client moves nothing |
| ShardedStoreSteps.ShipMoves | projects/verified-ironkv/ironsht/src/host_protocol_t.rs:318-349 | A Shard that is carried out turns ownership of exactly the keys of its range into one Delegate on its way to the recipient, with the same values |
| ShardedStoreSteps.ShipKeepsInv | projects/verified-ironkv/ironsht/src/host_protocol_t.rs:318-380 | Handing a range over keeps the system invariant; the Delegate sent is sound because a Shard over an empty, foreign or oversized range is rejected |
| ShardedStoreSteps.HostDelegateIsNeverNonsensical | projects/verified-ironkv/ironsht/src/host_protocol_t.rs:485-504 | A buffered packet from a host is a sound Delegate and never nonsensical, so no host's Delegate is ever discarded |
| ShardedStoreSteps.RetransmissionIsNoNews | projects/verified-ironkv/ironsht/src/host_protocol_t.rs:456-472 | Whatever is retransmitted to a host is still held by its sender under the same number |
| ShardedStoreTheorems.StepKeepsClaims | projects/verified-ironkv/ironsht/src/host_protocol_t.rs:557-583 | Every step of the system, of a host or of a client, keeps exactly one claim for each of the 2^64 keys and changes the global table by the request it serves and nothing else |
| ShardedStoreTheorems.InitialStateIsSound | projects/verified-ironkv/ironsht/src/host_protocol_t.rs:537-548 | At start-up the root host alone claims every key and the global table is empty |
| ShardedStoreTheorems.RunsServeOneTable | projects/verified-ironkv/ironsht/src/host_protocol_t.rs:557-583 | In every run of any number of hosts over a network that loses, repeats and reorders packets: each key is claimed exactly once, and the global table equals the replay of the served requests in the order they were served |
| ShardedStoreReplies.ServedRequestsAreAnswered | projects/verified-ironkv/ironsht/src/host_protocol_t.rs:203-290 | A step that serves a request had exactly that request in its buffer and sends exactly one packet, to its sender: the answer a single store would give with the global table's value at that step |
| ShardedStoreReplies.EveryReplyIsJustified | projects/verified-ironkv/ironsht/src/host_protocol_t.rs:203-290 | In every run, every Reply any host ever put on the network, first or again, is the answer to a served request given the replay of the requests served before it |
| ShardedStoreReplies.StepSays | projects/verified-ironkv/ironsht/src/host_protocol_t.rs:557-583 | A step adds no Reply to what awaits acknowledgement or to the network except the answer to the request it serves |
| ShardedStoreReplies.NothingIsTakenInTwice | projects/verified-ironkv/ironsht/src/single_delivery_t.rs:75-112 | In no run does a host take the same packet into its buffer twice, however often the network repeats it |
| Redelivery.ClaimsInFlightAreResent | projects/verified-ironkv/ironsht/src/single_delivery_t.rs:201-241 | Whatever a host sends when it sends all its lists again, the Delegate behind every claim in flight from it is among it |
| Redelivery.InFlightIsRedelivered | projects/verified-ironkv/ironsht/src/host_protocol_t.rs:456-472 | In every state of every run, if a Delegate is on its way and its receiver's buffer is free, the sender may resend and the receiver then takes in the message it waits for; if that is the Delegate, its claim is buffered. So no range is lost for good |
| WrittenReceive.WrittenStepBreaksClaimsExactly | projects/verified-ironkv/ironsht/src/host_protocol_t.rs:125-143 | The relation as written ends its frame with `..post`. From a sound state one such step can break single ownership if and only if some host with a free buffer has a packet addressed to it on the network |
| WrittenReceive.WrittenStepIsFramed | projects/verified-ironkv/ironsht/src/host_protocol_t.rs:125-143 | When no host can receive, every step of the written relation is a step of the framed one |
| DelegationMaps.StrictlyOrderedVec.Erase | projects/verified-ironkv/ironsht/src/delegation_map_v.rs:198-283 | Removing entries one at a time from an index range leaves exactly the prefix and the suffix, still strictly increasing |
| DelegationMaps.StrictlyOrderedVec.Insert | projects/verified-ironkv/ironsht/src/delegation_map_v.rs:286-330 | The key lands at the one place that keeps the list strictly increasing; everything else keeps its order |
| DelegationMaps.StrictlyOrderedMap.FindKey | projects/verified-ironkv/ironsht/src/delegation_map_v.rs:535-562 | Finds an index of the key, and None exactly if the map lacks it |
| DelegationMaps.StrictlyOrderedMap.ValuesAgree | projects/verified-ironkv/ironsht/src/delegation_map_v.rs:564-600 | First result: all values in the closed index range agree; if not, the second says whether the only disagreement is at the last index |
| DelegationMaps.StrictlyOrderedMap.Set | projects/verified-ironkv/ironsht/src/delegation_map_v.rs:691-745 | The parallel lists then hold exactly the old map with the one entry set |
| DelegationMaps.StrictlyOrderedMap.GreatestLowerBoundIndex | projects/verified-ironkv/ironsht/src/delegation_map_v.rs:760-853 | The bound found is not above the iterator, and every later bound is |
| DelegationMaps.StrictlyOrderedMap.Erase | projects/verified-ironkv/ironsht/src/delegation_map_v.rs:868-925 | Exactly the keys in [lo, hi) leave both parallel lists; every other entry stays, also when hi is the end or lo is not below hi |
| DelegationMaps.SettingSplitsGaps | projects/verified-ironkv/ironsht/src/delegation_map_v.rs:695-700 | After setting a key, a range is empty of bounds exactly if it was and does not strictly contain the key |
| DelegationMaps.ErasingJoinsGaps | projects/verified-ironkv/ironsht/src/delegation_map_v.rs:882-887 | Exact new gaps after an erase: an old gap, or a gap below lo joined to a gap above hi across an hi that is not a bound |
| DelegationMaps.ReboundRepresents | projects/verified-ironkv/ironsht/src/delegation_map_v.rs:1115-1340 | Pinning the owner of hi, erasing the bounds in [lo, hi) and setting lo turns bounds that represent a total map into bounds that represent its update on exactly [lo, hi) |
| DelegationMaps.DelegationMap.GetInternal | projects/verified-ironkv/ironsht/src/delegation_map_v.rs:1077-1101 | Returns the owner of the key in the total map, with the bound that covers the key as evidence |
| DelegationMaps.DelegationMap.Set | projects/verified-ironkv/ironsht/src/delegation_map_v.rs:1115-1345 | The map becomes the total map updated on exactly the keys of [lo, hi), and stays valid |
| DelegationMaps.DelegationMap.RangeConsistentImpl | projects/verified-ironkv/ironsht/src/delegation_map_v.rs:1435-1697 | True if and only if every key of [lo, hi) is on dst, although only stored bounds are scanned, including the case of a sole disagreement exactly at hi |
| DeliveryImpl.CSingleDelivery.Truncate | projects/verified-ironkv/ironsht/src/single_delivery_state_v.rs:152-195 | The loop drops exactly what the recursive specification drops |
| DeliveryImpl.CSingleDelivery.ReceiveImpl | projects/verified-ironkv/ironsht/src/single_delivery_model_v.rs:343-391 | The tables become what the protocol computes, without 64-bit overflow; a fresh or duplicate message yields its ack; the result says fresh exactly for a new message |
| DeliveryImpl.CSingleDelivery.SendSingleCMessage | projects/verified-ironkv/ironsht/src/single_delivery_model_v.rs:394-528 | Satisfies the send relation; None exactly when the 64-bit sequence numbers of the destination are used up; no overflow |
| DeliveryImpl.CSingleDelivery.RetransmitUnAckedPackets | projects/verified-ironkv/ironsht/src/single_delivery_model_v.rs:531-610 | Every message on every list goes out again, to the endpoint its list is for, and nothing else does |
| NetClients.NetClient.Receive | projects/verified-ironkv/ironsht/src/io_t.rs:338-375 | A received packet or a timeout extends the history by one event and fixes the next state of the client; a failure ends it |
| NetClients.NetClient.SendPacketSeq | projects/verified-ironkv/ironsht/src/net_sht_v.rs:354-425 | What got out is a prefix of what was meant to, and all of it if no send failed |
| HostImpl.TestUnique | projects/verified-ironkv/ironsht/src/seq_is_unique_v.rs:59-101 | True exactly if no endpoint occurs twice |
| HostImpl.ParseCommandLineConfiguration | projects/verified-ironkv/ironsht/src/host_impl_v.rs:332-393 | Succeeds exactly for a nonempty list of distinct valid addresses, and then yields the constants of the protocol |
| HostImpl.HostState.RealInitImpl | projects/verified-ironkv/ironsht/src/host_impl_v.rs:397-431 | Starts exactly for such arguments, in the protocol's initial state and with the invariants |
| HostImpl.HostState.HostModelReceivePacket | projects/verified-ironkv/ironsht/src/host_impl_v.rs:764-828 | With a free buffer, the next message from its sender is buffered and acknowledged, an old one acknowledged again, a later one ignored, and an acknowledgement takes exactly what it covers off its list; with a full buffer nothing happens |
| HostImpl.HostState.ShouldProcessReceivedMessageImpl | projects/verified-ironkv/ironsht/src/host_impl_v.rs:834-862 | Decides the protocol's test without 64-bit overflow or underflow |
| HostImpl.HostState.HostModelNextGetRequest | projects/verified-ironkv/ironsht/src/host_impl_v.rs:1069-1167 | Unless the numbers for the client are used up, exactly one packet goes out under the next number and stays on the list: the owner's value, or the name of the owner; the request is logged exactly by the owner. Also a step of the protocol |
| HostImpl.HostState.HostModelNextSetRequest | projects/verified-ironkv/ironsht/src/host_impl_v.rs:1172-1332 | The same for Set: the owner stores exactly the value asked for and says so, another host names the owner, and nothing happens for a value that is too long or when numbers are used up. Also a step of the protocol |
| HostImpl.HostState.HostModelNextDelegate | projects/verified-ironkv/ironsht/src/host_impl_v.rs:1378-1436 | A Delegate from a host, over a nonempty range and with a table that fits, is adopted: exactly the keys of its range move here, with its entries; any other Delegate is dropped with no other effect |
| HostImpl.HostState.HostModelNextShard | projects/verified-ironkv/ironsht/src/host_impl_v.rs:1439-1554 | The range is handed over exactly if the recipient is another known host, the range is nonempty and wholly owned, and its entries fit into one packet: they go out in one Delegate, leave the table, and the keys of the range are the recipient's; otherwise nothing happens, or only the count rises when numbers are used up |
| HostImpl.HostState.HostModelNextReceiveMessage | projects/verified-ironkv/ironsht/src/host_impl_v.rs:1559-1622 | Processing does for the buffered packet what the five handlers above do for its kind, and is a step of the protocol |
| HostImpl.HostState.ReceivePacketNext | projects/verified-ironkv/ironsht/src/host_impl_v.rs:552-620 | Takes in what arrives first: a timeout, a failure, a packet that does not parse, or one that is received as above; one protocol step |
| HostImpl.HostState.ProcessReceivedPacketNextImpl | projects/verified-ironkv/ironsht/src/host_impl_v.rs:1627-1719 | Processes what is buffered whenever the count of delegations leaves room, and otherwise does nothing; one protocol step |
| HostImpl.HostState.HostNoReceiveNoClockNext | projects/verified-ironkv/ironsht/src/host_impl_v.rs:1722-1778 | Sends all lists again without changing anything; one protocol step |
| HostImpl.HostState.RealNextImpl | projects/verified-ironkv/ironsht/src/host_impl_v.rs:1780-1837 | One call takes the turn that is due: take in what arrives, process what is buffered, or, once in 100000000 such turns, send all lists again. It is one framed protocol step whose events are receives, clocks, then sends; the network saw a prefix of them; the invariants hold, with no overflow |
| RunningHosts.StepInSystem | projects/verified-ironkv/ironsht/src/host_impl_v.rs:1780-1837 | One call of a running host, which signs what it sends and takes in only what the network delivers to it, is one step of the whole system; of the lossless one if no send failed, and otherwise of one whose network lacks the packets that were not sent |
| RunningHosts.LossyRunsServeOneTable | projects/verified-ironkv/ironsht/src/host_impl_v.rs:622-636 | Packets lost by failed sends or by the network change no promise: in every such run each key is claimed exactly once, the global table replays the served requests, and every Reply is justified |
| ExampleRun.ValuesMoveWithTheirKeys | projects/verified-ironkv/ironsht/src/host_protocol_t.rs:557-583 | A run of two hosts in which a value is set, its key is handed over, and the other host answers a Get with the value |
| KubeObjects.RoleStateValidation | projects/anvil-main/src/executable_model/common.rs:364-385 | The loop decides that every policy rule names a group, a resource and a verb |
| KubeObjects.StatefulSetTransitionValidation | projects/anvil-main/src/executable_model/common.rs:449-493 | The field-by-field comparison with its loop accepts exactly if all four immutable fields are equal |
| KubeObjects.ObjectTransitionValidation | projects/anvil-main/src/executable_model/api_server.rs:105-134 | A transition between valid objects of one kind is accepted exactly if the immutable part is the same |
| KubeObjects.ValidObjectsByKind | projects/anvil-main/src/executable_model/common.rs:322-445 | What each kind asks of an object: a spec, replicas that are not negative, rules that name a group, a resource and a verb, or a role reference of the right group and kind |
| KubeObjects.ImmutableByKind | projects/anvil-main/src/executable_model/common.rs:322-493 | What each kind does not let an update change: the selector of a daemon set, all of a stateful set but replicas and template, the role reference of a role binding; and nothing of any other kind |
| KubeObjects.CountedControllersAreDistinct | projects/anvil-main/src/executable_model/common.rs:654-661 | Counting controller owners, as the server does, accepts exactly if no two owners are controllers |
| ApiServers.ApiServer.HandleGetRequest | projects/anvil-main/src/executable_model/api_server.rs:153-166 | Answers with the stored object, or not found |
| ApiServers.ApiServer.HandleCreateRequest | projects/anvil-main/src/executable_model/api_server.rs:212-247 | State and response are those of the specification function, of which `ApiServerOutcomes.CreateDoes` speaks |
| ApiServers.ApiServer.HandleDeleteRequest | projects/anvil-main/src/executable_model/api_server.rs:249-279 | State and response are those of the specification function, of which `ApiServerOutcomes.DeleteDoes` speaks |
| ApiServers.ApiServer.HandleUpdateRequest | projects/anvil-main/src/executable_model/api_server.rs:363-413 | State and response are those of the specification function, of which `ApiServerOutcomes.UpdateDoes` speaks |
| ApiServers.ApiServer.HandleUpdateStatusRequest | projects/anvil-main/src/executable_model/api_server.rs:430-470 | State and response are those of the specification function, of which `ApiServerOutcomes.UpdateStatusDoes` speaks |
| ApiServerOutcomes.DeleteDoes | projects/anvil-main/src/executable_model/api_server.rs:249-279 | A delete answers not found exactly if the key is absent, and Ok otherwise; without finalizers exactly that key goes, with finalizers the entry keeps everything but stamp and version, and with finalizers and a stamp nothing changes |
| ApiServerOutcomes.CreateDoes | projects/anvil-main/src/executable_model/api_server.rs:168-247 | A creation fails for the first reason there is and then changes nothing; otherwise exactly that key is added, with every field as asked, the given or generated name, new numbers, default status and no stamp |
| ApiServerOutcomes.UpdateDoes | projects/anvil-main/src/executable_model/api_server.rs:290-413 | An update fails for the first reason there is, of admission or of the rules, and then changes nothing; otherwise every field is as asked but for uid, stamp and status; the entry goes exactly if it is stamped and no finalizer is left; an update that asks for what is stored changes nothing |
| ApiServerOutcomes.UpdateStatusDoes | projects/anvil-main/src/executable_model/api_server.rs:415-470 | A status update that is admitted is carried out, and changes status and version and nothing else |
| ApiServerRuns.Serve | projects/anvil-main/src/executable_model/api_server.rs:153-470 | Any sequence of requests, served one after another by the server in place, leaves it in the final state of the run, with the invariants that its update methods ask for |
| ApiServerRuns.StepWritesOne | projects/anvil-main/src/executable_model/api_server.rs:212-470 | Every request changes at most one entry; a written object takes the next version and either evolves the stored one or takes the next uid |
| ApiServerRuns.CounterCountsWrites | projects/anvil-main/src/executable_model/api_server.rs:212-470 | The version counter moves by one exactly when something stored changes, the uid counter exactly on a creation, and no request makes anything stable |
| ApiServerRuns.StoredObjectsAreSound | projects/anvil-main/src/executable_model/api_server.rs:212-470 | After any requests: each object is stored under its own reference, is valid, has version and uid below the counters, has finalizers if it is stamped for deletion, and has at most one controller owner |
| ApiServerRuns.OldVersionIsUntouched | projects/anvil-main/src/executable_model/api_server.rs:212-470 | An object whose version is older than some moment of the run was stored unchanged at that moment |
| ApiServerRuns.VersionsIdentifyObjects | projects/anvil-main/src/executable_model/api_server.rs:212-470 | No ABA: objects stored at any two moments of a run with equal versions have the same reference and are equal |
| ApiServerRuns.UidsIdentifyLives | projects/anvil-main/src/executable_model/api_server.rs:212-470 | Objects stored at any two moments with equal uids have the same reference and were stored at every moment between; immutable parts never change, a deletion stamp is never removed or altered, and from then on finalizers only dwindle |
| GetThenUpdates.TransactionalGetThenUpdateByRetry | projects/anvil-main/src/shim_layer/controller_runtime.rs:537-610 | The loop, rewriting the object to update and calling the executable server in place while others use it in between, leaves the server and its caller with the state and outcome of the recursive rounds, of which the rows below speak |
| GetThenUpdates.ReplaceIsAtomic | projects/anvil-main/src/shim_layer/controller_runtime.rs:575-605 | For every request and whatever happened since the get: a replace that succeeds, or is refused for another reason than a conflict or a malformed request, does what get, owner check and update would do in one at that instant; if API resource and object differ in kind, the executable server refuses it, naming exactly why |
| GetThenUpdates.RetryingIsAtomic | projects/anvil-main/src/shim_layer/controller_runtime.rs:534-610 | Under any interference and for every request: rounds that conflict leave no trace; an Ok is the indivisible operation at the instant of the replace; an error changed nothing, and is what the indivisible operation gives at the last replace or get if and only if the request was not overtaken, which takes kinds that differ |
| GetThenUpdates.ReturnedAsAsked | projects/anvil-main/src/shim_layer/controller_runtime.rs:575-605 | An object that the loop returns has spec, name, labels, annotations, owners and finalizers as requested, and uid, stamp and status as stored at the replace, when the owner was still among its owners; it is what is stored then, unless the update let go of it |
| GetThenUpdates.RoundsCheckOwners | projects/anvil-main/src/shim_layer/controller_runtime.rs:552-574 | A round fails at once exactly if nothing is stored, or what is stored does not have the owner among its owners; only otherwise a replace is sent |
| GetThenUpdates.SomeErrorIsNotAtomic | projects/anvil-main/src/executable_model/api_server.rs:381-385 | A run in which kinds differ and the error returned is that of the indivisible operation neither at the get nor at the replace |
| GetThenUpdates.AtomicIsTheClustersExactly | projects/anvil-main/src/kubernetes_cluster/spec/api_server/state_machine.rs:714-758 | Get, owner check and update at one instant equal the cluster model's operation if and only if: for an owner that is no controller, an owned object meets a malformed request; for a controller, the kinds agree, or both lookups end alike (nothing there, other owners, or both owned and the request malformed), or the owned object's namesake is missing |
| GetThenUpdates.RetryingIsTheClusters | projects/anvil-main/src/kubernetes_cluster/spec/api_server/state_machine.rs:706-758 | An object returned by the loop is what the cluster model's operation gives at the replace if and only if the owner is a controller; for such owners, and kinds that agree, every error is that operation's too, at the last replace or get |
| GetThenUpdates.SomeUpdateTheClusterRefuses | projects/anvil-main/src/kubernetes_cluster/spec/api_server/state_machine.rs:719-720 | The loop changes an object for an owner that is no controller, where the cluster model answers with a bad request |
| GetThenUpdates.FewWritesFewRounds | projects/anvil-main/src/shim_layer/controller_runtime.rs:534-610 | With at most n interfering writes to the object, the loop returns within n + 1 rounds, unless the kinds differ and two objects clash in every round |
| GetThenUpdates.MismatchedRetriesExactly | projects/anvil-main/src/executable_model/api_server.rs:381-385 | If the kinds differ, then under any interference the loop is still retrying if and only if in every round the get found an owned object and the replace, looked up by the kind of its object, another one |
| GetThenUpdates.LeftAloneRetriesExactly | projects/anvil-main/src/executable_model/api_server.rs:381-385 | With nobody interfering, the loop on the executable server never returns if and only if the server takes the object to replace for another one than the one read |
| GetThenUpdates.TwinsClash | projects/anvil-main/src/executable_model/api_server.rs:381-385 | Two creations from the empty server reach a state in which that happens |
| GetThenUpdates.OnlyForbiddenIsRenamed | projects/anvil-main/src/shim_layer/controller_runtime.rs:631-656 | Of all errors an update can end in, the client sees the server's own if and only if it is not Forbidden |
| GetThenUpdates.UpdatesAreForbiddenExactly | projects/anvil-main/src/executable_model/api_server.rs:53-63 | An update ends in Forbidden if and only if it is admitted, has at most one controller, and would add a finalizer to an object that is stamped for deletion |
| GetThenUpdates.SomeErrorIsRenamed | projects/anvil-main/src/shim_layer/controller_runtime.rs:631-656 | A creation, a deletion, and a get-then-update that adds a finalizer: the server says Forbidden and the client sees Other |
| TemporalLogic.AlwaysOrEventually | projects/anvil-main/src/temporal_logic/rules.rs:237-268 | If steps keep p or bring about q, then p holds from here on or q comes to hold |
| TemporalLogic.Wf1Variant | projects/anvil-main/src/temporal_logic/rules.rs:1456-1484 | Fairness of a temporal action gives p leads to q |
| TemporalLogic.Wf1 | projects/anvil-main/src/temporal_logic/rules.rs:1486-1520 | Weak fairness of an action enabled throughout p gives p leads to q |
| TemporalLogic.LeadsToTrans | projects/anvil-main/src/temporal_logic/rules.rs:1699-1726 | Leads-to is transitive |
| TemporalLogic.LeadsToApply | projects/anvil-main/src/temporal_logic/rules.rs:1684-1697 | A premise that holds turns leads-to into eventually |
| TemporalLogic.LeadsToWeaken | projects/anvil-main/src/temporal_logic/rules.rs:1753-1771 | Leads-to may be weakened by implications that always hold |
| TemporalLogic.OrLeadsToCombine | projects/anvil-main/src/temporal_logic/rules.rs:1773-1793 | Two premises that lead to the same goal do so together |
| TemporalLogic.LeadsToStable | projects/anvil-main/src/temporal_logic/rules.rs:2135-2174 | A goal that steps preserve is reached forever |
| TemporalLogic.LeadsToWithAlways | projects/anvil-main/src/temporal_logic/rules.rs:2124-2133 | What always holds may be carried along a leads-to; unproved in the source |
| TemporalLogic.LeadsToRankStepOne | projects/anvil-main/src/temporal_logic/rules.rs:2292-2327 | A rank that drops by one reaches zero from anywhere |
| TemporalLogic.LeadsToByMonotonicity | projects/anvil-main/src/temporal_logic/rules.rs:2410-2501 | If each step keeps level k or raises it by one up to max, and staying forever at k leads to q(k), then p(n) leads to q(m) for some m from n to max |
| TemporalLogic.EventuallyAlwaysAll | projects/anvil-main/src/temporal_logic/rules.rs:1941-1969 | Finitely many formulas that are each eventually-always true are all true together forever from one common position, the empty domain included |
| TemporalLogic.LeadsToAlwaysAll | projects/anvil-main/src/temporal_logic/rules.rs:1891-1923 | A premise leads to each of finitely many formulas holding forever if and only if it leads to all of them holding together forever |
| TemporalLogic.WeakFairnessForms | projects/anvil-main/src/temporal_logic/defs.rs:143-160 | The two forms of weak fairness coincide: always enabled leads to the action iff infinitely often the action or infinitely often disabled |
| Actions.FairnessIsWeakFairness | projects/anvil-main/src/state_machine/action.rs:22-37 | An action's precondition says exactly when it is enabled, so its own fairness and weak fairness agree |
| Actions.ActionWf1 | projects/anvil-main/src/state_machine/action.rs:39-52 | The fairness rule for actions with a precondition and a transition |
| Actions.InitInvariant | projects/anvil-main/src/temporal_logic/rules.rs:1409-1430 | An invariant of the first state that steps keep always holds |
| LockDemo.MutualExclusionAlwaysHolds | projects/anvil-main/src/tla_demo.rs:28-81 | In every reachable state at most one thread holds the lock, and the lock is taken exactly when one does |
| LockDemo.BothThreadsEventuallyTerminate | projects/anvil-main/src/tla_demo.rs:87-168 | In every fair execution both threads terminate, with the lock free |
| LockDemo.SomeFairExecution | projects/anvil-main/src/tla_demo.rs:87-95 | The hypotheses of that theorem can be met: a concrete execution is initial, steps correctly and is fair to both threads |
| Masking.MaskNonCode | rag/chunking.py:11-59 | The in-place scan computes the mask, of which `Tokens.MaskingBlanksTokens` says what becomes of each character |
| Masking.ScanToken | rag/chunking.py:17-56 | Finds the end of the token at a position, None if none starts there; `Tokens.TokensAreFound` says in characters which those are |
| Tokens.TokensAreFound | rag/chunking.py:17-56 | A token starts and ends, by the scan, exactly where one does in characters: two slashes up to the newline, slash and star up to the balancing mark, r or br with at most 255 hashes and a quote up to a quote with as many, a quote up to the next that no backslash takes, or one of four shapes of a quoted character; each up to the end of the text if it does not end |
| Tokens.MaskingBlanksTokens | rag/chunking.py:11-59 | In every reading of the text from its beginning in whole tokens and single characters, masking turns each character of a token but newlines into a blank and keeps every other character |
| Tokens.SomeReading | rag/chunking.py:16-56 | Every text has such a reading, also with unterminated tokens |
| Masking.StringsEndAtFreeQuotes | rag/chunking.py:40-49 | A string literal ends just after its first quote that is not escaped, where a backslash that is itself escaped escapes nothing; without one it runs to the end of the text |
| Masking.BlocksEndBalanced | rag/chunking.py:22-33 | A block comment ends where its nested openings and closings first balance, or is still open at the end of the text |
| Masking.RawEnd | rag/chunking.py:37-39 | A raw string ends after the first quote followed by as many hashes as opened it, or at the end of the text |
| Masking.MaskingKeepsOffsets | rag/chunking.py:12-12 | The mask keeps the length, every newline and every character it does not blank |
| Masking.MaskingLeavesNoToken | rag/chunking.py:12-12 | After masking no comment, string or character literal starts anywhere |
| Masking.MaskingIsIdempotent | rag/chunking.py:12-12 | Masking twice is masking once |
| Chunking.CodeChunks | rag/chunking.py:62-83 | The chunks are the non-blank ones among blocks that tile the file from line 1 to the end and begin at every declaration's region, or at regular intervals if nothing is declared; only then an interval of zero is an error and a negative one yields no chunks |
| Chunking.PullStarts | rag/chunking.py:76-80 | The in-place loop moves each start back over adjacent markers, limited by the start just computed before it |
| Chunking.MarkersExactly | rag/chunking.py:78-79 | A line is a marker exactly if, after any blanks, it begins with three slashes, two slashes and an exclamation mark, or a hash and a bracket |
| Chunking.DeclaresFnExactly | rag/chunking.py:72-72 | A line declares a function exactly if it has fn somewhere, not within a word, then blanks and a letter or underscore |
| Chunking.KeptExactly | rag/chunking.py:75-83 | A block is kept exactly if it has a character that is no whitespace |
| Chunking.LinesAreLines | rag/chunking.py:70-71 | Every line ends with its only newline, or is the last and has none |
| Chunking.RegionsAdvance | rag/chunking.py:76-81 | Regions start at strictly increasing lines |
| Chunking.PulledBackExactly | rag/chunking.py:76-80 | Lines are pulled back for a declaration if and only if a marker stands just before it and that line declares nothing itself, or declares something that lines were pulled back for |
| Chunking.OwnRegionExactly | rag/chunking.py:63-80 | A declaration lies in its own region rather than the next one's if and only if no marker just before it was left to it by the declarations before, or some line from it up to the next declaration is no marker |
| Chunking.SomeDeclarationLosesItsRegion | rag/chunking.py:76-80 | A text of three lines whose first declaration begins with an attribute and falls into the region of the second |
| Chunking.CodeChunksCoverDeclarations | rag/chunking.py:62-83 | Line ranges of the chunks are increasing and disjoint, and each chunk is the text of its lines and says something; each line that declares a function lies in exactly one chunk; chunks and dropped whitespace-only blocks concatenate to the input |
| DocumentChunking.DocumentChunks | rag/chunking.py:86-111 | The one-pass loop keeps the non-blank blocks, each cut at the first line after its start that is a heading, or blank after enough text, outside any fence |
| DocumentChunking.DocumentChunksCoverLines | rag/chunking.py:86-111 | Line ranges of the chunks are increasing and disjoint, and each chunk is the text of its lines and says something; each line that is not blank lies in exactly one chunk; chunks and dropped whitespace-only blocks concatenate to the input |
| DocumentChunking.StartsAreDetermined | rag/chunking.py:93-100 | The rule determines the cuts: two ways of cutting that follow it are equal |
| DocumentChunking.HeadingsBeginBlocks | rag/chunking.py:95-100 | Every heading outside a fence begins a block, and a block begins nowhere but at a heading or a blank line outside a fence |
| DocumentChunking.HeadingsExactly | rag/chunking.py:95-95 | A line is a heading exactly if it begins with one to six hashes and a blank |
| DocumentChunking.OpensExactly | rag/chunking.py:94-105 | Outside a fence, a line opens one exactly if, after at most three blanks, it has a run of at least three backticks or tildes; the fence has that kind and length |
| DocumentChunking.ClosesExactly | rag/chunking.py:101-106 | Inside a fence, a line closes it exactly if it has such a run of the same kind, at least as long, and nothing but blanks after it; every other line leaves it open |
| DocumentChunking.SizeIsLength | rag/chunking.py:107-107 | The size that decides about cuts is the length of the text since the last one |
| DocumentChunking.BlocksKeepTheirFences | rag/chunking.py:87-106 | Scanning a block on its own gives at each of its lines the fence state of the whole document, closed at its end if another block follows |
| Selection.IsNearDup | rag/retriever.py:241-253 | True exactly if some selected item is a near duplicate of the candidate |
| Selection.NearDupIsSymmetric | rag/retriever.py:241-253 | Being a near duplicate is symmetric |
| Selection.NearDupExactly | rag/retriever.py:241-253 | Two items are near duplicates exactly if they have one id, or are on one page and share more than 0.8 of the lines of the shorter, or share more than 0.95 of all their words; sets of lines and words, and real quotients |
| Selection.RepoNameExactly | rag/retriever.py:201-208 | The repository is the component after the first `projects` or `tutorial` that anything follows, or else the first component |
| Selection.Picker.Record | rag/retriever.py:279-284 | The selection grows by the item and the counters per group and repository stay right |
| Selection.PickDiversified | rag/retriever.py:256-306 | The two loops with their counters compute the greedy selection |
| Selection.PickedFollowsRank | rag/retriever.py:286-306 | The selection goes through the ranking in order, once for each group in need and then once for all; an item is taken exactly if there is room, nothing selected is a near duplicate of it, its repository has not had its share, and, in a group's turn, it is of the group and the group has not enough |
| Selection.PickedIsDiverse | rag/retriever.py:256-306 | At most top_k items, all of them candidates, pairwise no near duplicates, no repository over its cap |
| Selection.PickedIsMaximal | rag/retriever.py:286-306 | If the selection falls short, every candidate left out is blocked by the final selection; each group's minimum is met, or the selection is full, or no other candidate of the group fits |
| Selection.PickedIsMonotone | rag/retriever.py:300-306 | Without minimums, the selection for k is a prefix of the selection for any larger k |
| Snapshots.StepKeepsInv | rag/index_builder.py:345-373 | Every step of any builder or reader, also an exception, a rollback or a crash, keeps the invariant |
| Snapshots.ManifestIsAlwaysComplete | rag/index_builder.py:345-373 | In every interleaving with crashes and exceptions, the manifest names a complete generation whose chunk, lexical and vector rows agree with the metadata |
| Snapshots.PublishedForever | rag/storage.py:28-34 | A generation that was ever published is never changed and never deleted |
| Snapshots.CachesEqualFreshLoads | rag/retriever.py:356-375 | What a reader has cached by path is what a fresh load would give, and the generation it resolved is still there and complete |
| Snapshots.ResolvedGenerationsLoad | rag/retriever.py:443-451 | A resolved generation always loads: its lexical rows match its chunks and its vectors have one row for each chunk of the recorded dimension, so no mismatch error is raised |
| Snapshots.ResolvesExactly | rag/storage.py:12-25 | A reader resolves what the manifest names if its chunks are there, and otherwise stays with what it had; nothing else changes |
| Snapshots.ReadersSeeTheManifest | rag/retriever.py:443-451 | In every run, once something is published, a reader that resolves and loads has at hand exactly the chunks, lexical rows and vectors of the generation that the manifest names |
| Snapshots.UndisturbedBuildPublishes | rag/index_builder.py:345-370 | A build that is left alone ends with its metadata as the manifest and exactly its planned chunks, lexical rows, vectors and metadata on disk, and touches no other generation and no reader |
| Snapshots.FailedBuildLeavesNothing | rag/index_builder.py:371-373 | An exception before the swap, rolled back, removes the builder's directory and temporary file and changes nothing else |
| Snapshots.RollbackIsSafeExactly | rag/index_builder.py:371-373 | Removing files of a generation is safe if and only if the manifest does not name it |
| Snapshots.RaisingAfterSwapWouldBreak | rag/storage.py:30-34 | An exception after the swap would roll back the published generation and leave the manifest incomplete; the code is safe because nothing after the swap raises |

## Left out

- Marshalling of IronKV messages: packets carry messages, and `NetClient` hands over what parsed; that an unparseable packet may abstract to a message (`host_impl_v.rs:590`) is not part of this model.
- Liveness of IronKV: a receive step may ignore a packet at any time, so only safety is stated.
- The sorted-vector hash map of IronKV (`hashmap_t.rs`) and the order of destinations in retransmission: tables are maps, and their operations do what their contracts promise.
- EndPoint contents and clones: endpoints are byte sequences, compared as values.
- HostImpl: the dead branch for a buffered packet that is no message (`host_impl_v.rs:1670-1682`) is not written out, since the invariant excludes it.
- ApiServer: spec and status are typed values and text instead of JSON, the generated name and the clock are parameters, and only the one custom resource kind the server is instantiated with is there.
- The retry loop for deletes: the executable delete ignores preconditions, so nothing holds of it.
- GetThenUpdates.TransactionalGetThenUpdateByRetry: runs against the executable server, the only one in the repository, and `env` says what others do and bounds the rounds looked at; the theorems hold for every `env`.
- Temporal operators over data (`tla_exists`) appear only where a rule needs them, and other rules of `rules.rs` that follow from the ones here are omitted; so is the reconcile loop of the shim.
- Masking, Chunking and DocumentChunking: text is ASCII as far as words and letters are concerned, whitespace is blank, tab, newline and carriage return, and newline is the only line separator.
- Selection: the two ratio tests are cross-multiplied to integers; scores and ranking are given, and an item carries its words and the components of its path.
- Snapshots: builders and readers are records that take steps on values rather than objects, since any interleaving must be covered; legacy indexes without generations, file formats, and name clashes of temporary files are left out, as is the computation of lexical counts and vectors.
- BM25, embeddings, rank fusion, PDF parsing, include expansion and the command line of the index.
- Controllers, webhooks, and the cluster model around the API server.
