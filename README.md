# Earendil relay core in Dafny

Earendil is an onion-routing network. Relays and clients are linked
node-to-node. Each onion packet names its *next peeler*, the relay that must
remove the next layer of encryption. A node that receives a packet does one
of two things:

- it records the packet's hash, so a replay is refused, and peels the
  packet itself when it is the next peeler;
- otherwise it forwards the packet unchanged to the neighbour with the
  shortest known path to the next peeler.

Peeled packets are relayed further, delivered to an N2R ("node to
relay") socket bound to a dock (a port number), or returned as garbled
replies to anonymous senders. Neighbours keep debt counters on each other
and exchange the relay graph by gossip: each adjacency between two relays
is signed first by its left side, the smaller fingerprint, and then
countersigned by its right side.

This project models that per-packet logic and the small protocols around
it, one Dafny module per source file:

| module | source file | what it holds |
|---|---|---|
| `Network` | `src/network.rs` | the replay set, the peel-or-forward choice, peeled-packet dispatch, `one_hop_closer` |
| `PeelForward` | `src/daemon/peel_forward.rs` | the debt gate, debt counters, the degarbler store, socket queues, reply-block filing |
| `N2r` | `src/socket/n2r_socket.rs` | dock binding, `recv_from`, the per-endpoint size-bounded send batcher |
| `InoutRoute` | `src/daemon/inout_route/link_protocol_impl.rs` | the countersigning responder, identity and adjacency queries, chat recording |
| `Gossip` | `src/daemon/inout_route/gossip.rs` | one gossip round: identity fetch, adjacency initiation, graph sampling and merging |
| `LinkConnection` | `src/daemon/link_connection.rs` | neighbour-table admission, the onion size check, the pooled RPC transport, the responder of this revision |
| `ControlProtocol` | `src/control_protocol.rs` | `neigh_by_prefix`, `pretty_entry` |

Three shared modules support them:

- `Wrappers` defines `Option`, `Result` and `Outcome`.
- `Types` defines fingerprints, client ids, docks, endpoints and messages.
- `Topology` is the relay-graph view the core reads: descriptors, lookups, flattening, `dedup`, and the responder's countersigning test.

State that the source mutates in place is a class whose methods name their
frames. Examples: the relay's seen-set and spider queues; the daemon's debts,
degarblers and anon-destination store; the socket registry and the socket's
queues; the RPC connection pool. Each method is tied to a specification:

- a two-state predicate (`IncomingRawDone`, `PeelForwardDone`), or
- a pure step function (`GossipGraphStep`, `PoolTake`, `Drain`, `SendAll`, `Admit`).

Lemmas prove what the source promises about those functions.

The unseen crates enter as function-valued parameters or fields:

- peeling, degarbling, signing and the packet hash;
- the graph's validating `insert_identity` and `insert_adjacency`;
- `find_shortest_path`;
- the debt-limit policy;
- the random gossip sampler.

Only the sampler is constrained: it must return `min(10, known)` distinct
known nodes (`Gossip.IsSample`, required by the `GossipNode` constructor and
kept as `GossipNode.Valid`). Nothing is assumed about the others.

A fingerprint is a `nat`. Its integer order stands for the derived
lexicographic order on the fixed-width hash.

The files come from different revisions of the daemon, and each is modelled
on its own terms:

- `PeeledPacket` has three variants in `Network` and three different ones in `PeelForward`.
- The responder in `link_connection.rs` checks the neighbour table and filters adjacencies to known relays.
- The responder in `link_protocol_impl.rs` checks relay neighbours and does not filter.

In `send_batcher_loop`, only the first size-bounded subbatch of each
endpoint is sent per round. The rest of that endpoint's bodies are cleared at
the start of the next round. The model follows the code here
(`N2r.SendBatches`, `N2r.OversizedHeadSendsNothing`).

## Model

| member | source | states |
|---|---|---|
| ControlProtocol.FirstMatch | src/control_protocol.rs:261-269 | the index found is in range and its display string starts with the prefix, every earlier one does not, and `None` exactly when no fingerprint matches |
| ControlProtocol.NeighByPrefix | src/control_protocol.rs:261-269 | returns the first fingerprint in list order whose display string has the prefix; any result is a member of the list; `None` exactly when none matches |
| ControlProtocol.EmptyPrefixPicksFirst | src/control_protocol.rs:262-265 | an empty prefix on a non-empty list returns its first element |
| ControlProtocol.PrettyEntry | src/control_protocol.rs:271-275 | the line starts with the right arrow exactly for own messages and the left arrow otherwise, followed by ` text time` |
| Network.ClosestAtUnique | src/network.rs:157-167 | at most one neighbour position is "one hop closer", so the choice is determined |
| Network.OneHopCloser | src/network.rs:150-171 | no neighbours is an error; no neighbour with a route is an error; otherwise it returns the neighbour with a minimal route length, the first in list order among ties (strict `<`); success exactly when such a neighbour exists |
| Network.Relay.SendToRelay | src/network.rs:143-145 | the message is queued on the neighbour's link; an unknown neighbour is an error and nothing changes |
| Network.Relay.ForwardOneHopCloser | src/network.rs:135-146 | the packet, unchanged and with the same next peeler, is queued to the neighbour chosen by `one_hop_closer`; with no such neighbour it fails and nothing is queued |
| Network.Relay.IncomingRaw | src/network.rs:59-148 | the hash is recorded even if peeling or routing later fails; a replay fails before any peel or forward and changes nothing else; a packet for another peeler is forwarded one hop closer unpeeled; our own packet is peeled and dispatched: relay → a delay timer, received → delivered, garbled reply → the client's queue with `(body, rb_id)` or an error when no such client |
| Network.Relay.SendRaw | src/network.rs:20-55 | a client, or a relay that is not the next peeler, forwards one hop closer and touches no other state; a relay that is the next peeler runs `incoming_raw` and wraps its error |
| Network.SecondDeliveryRejected | src/network.rs:73-77 | delivering the same packet twice: the second delivery is always a replay error and the hash stays recorded |
| PeelForward.Bump | src/daemon/peel_forward.rs:25-28 | one counter rises by one (a missing counter counts as zero) and all others are unchanged |
| PeelForward.TrySend | src/daemon/peel_forward.rs:39-43 | the packet is queued when the link queue has room and silently dropped when it is full |
| PeelForward.Daemon.ProcessInnerPkt | src/daemon/peel_forward.rs:85-109 | a message goes to the socket queue of `Endpoint(dest_fp, dest_dock)`; a missing socket or a full queue is an error and nothing changes; reply blocks are filed in order under the source fingerprint |
| PeelForward.Daemon.PeelForwardInner | src/daemon/peel_forward.rs:20-79 | over the debt limit: refused with no counter or store changed; incoming debt rises exactly when the last hop is not us; Forward: an unknown hop is an error, else `try_send` and outgoing debt rises only for a hop other than us; Received: processed for our fingerprint; GarbledReply: the degarbler is removed whether or not degarbling works, and a missing one is an error |
| PeelForward.Daemon.PeelForward | src/daemon/peel_forward.rs:19-83 | the whole effect is one of the outcomes above; no error reaches the caller |
| PeelForward.SecondGarbledReplyFails | src/daemon/peel_forward.rs:57-62 | two garbled replies with the same id in a row: the second fails (no degarbler left, or refused by the debt gate) |
| Topology.IdentityOf | src/daemon/inout_route/link_protocol_impl.rs:69-71 | the identity lookup returns the stored descriptor exactly when the fingerprint is known |
| Topology.FlattenMembers | src/daemon/inout_route/link_protocol_impl.rs:76-77 | an adjacency is in the flattened answer exactly when it is an adjacency of a requested fingerprint |
| Topology.Dedup | src/daemon/inout_route/link_protocol_impl.rs:78 | `dedup` keeps the first element and the set of elements, and leaves no two consecutive elements equal |
| Topology.DedupIsSubsequence | src/daemon/inout_route/link_protocol_impl.rs:78 | `dedup` keeps the order of what it keeps |
| Topology.DedupKeepsDuplicateFree | src/daemon/inout_route/link_protocol_impl.rs:78 | `dedup` leaves a sequence with no consecutive duplicates unchanged (it is idempotent) |
| Topology.DedupIsItertoolsDedup | src/daemon/inout_route/link_protocol_impl.rs:78 | `Dedup` equals itertools' own loop, which remembers the last element emitted and emits the next one only when it differs, on every sequence |
| InoutRoute.Record | src/daemon/inout_route/link_protocol_impl.rs:117-127 | a chat entry is appended to its peer's history and the other histories are unchanged |
| InoutRoute.AnswerAdjacencies | src/daemon/inout_route/link_protocol_impl.rs:73-80 | the answer contains only adjacencies of the requested fingerprints, in request order, and all of them; no two consecutive answers are equal |
| InoutRoute.LinkProtocolImpl.SignAdjacency | src/daemon/inout_route/link_protocol_impl.rs:36-67 | `None` and no change unless `left < right`, `right` is us and `left` is a relay neighbour; on acceptance only `right_sig` is filled; `None` if the graph rejects it; a returned descriptor is exactly the one inserted |
| InoutRoute.LinkProtocolImpl.Identity | src/daemon/inout_route/link_protocol_impl.rs:69-71 | a read-only lookup of the graph |
| InoutRoute.LinkProtocolImpl.Adjacencies | src/daemon/inout_route/link_protocol_impl.rs:73-80 | the adjacencies of the requested fingerprints, with consecutive duplicates removed |
| InoutRoute.LinkProtocolImpl.ChatPeerOfLink | src/daemon/inout_route/link_protocol_impl.rs:118-126 | a relay on the other side is identified by its fingerprint, otherwise by its client id |
| InoutRoute.LinkProtocolImpl.PushChat | src/daemon/inout_route/link_protocol_impl.rs:116-128 | an incoming entry is recorded under the relay fingerprint when the remote is a relay, else under its client id |
| Gossip.SampleExists | src/daemon/inout_route/gossip.rs:87-91 | every set of known nodes has a sample of `min(10, known)` distinct known nodes |
| Gossip.FetchIdentityStep | src/daemon/inout_route/gossip.rs:35-47 | the identity is requested; success exactly when the remote returns one and the graph accepts it, which is then the new graph; an RPC failure and a missing identity are errors, and a failure leaves the graph unchanged |
| Gossip.Initiated | src/daemon/inout_route/gossip.rs:61-68 | the initiated descriptor has `left = my_fp`, `right = remote_fp`, an empty `right_sig` and our signature as `left_sig` |
| Gossip.SignAdjacencyStep | src/daemon/inout_route/gossip.rs:51-81 | nothing is requested and the step passes unless we hold a relay identity and `my_fp < remote_fp`; otherwise the initiated descriptor is sent, an RPC failure is an error, a refusal (`None`) is an error, and the step passes exactly when the remote returned a completed descriptor that the graph accepted, which is then the new graph; a failure leaves the graph unchanged |
| Gossip.LookupIdentity | src/daemon/inout_route/gossip.rs:104-129 | no request for our own fingerprint or a cached one; otherwise exactly one identity request, whose reply is returned as it came and, when it holds an identity, cached; the graph is untouched |
| Gossip.InsertFetched | src/daemon/inout_route/gossip.rs:131-138 | no identity: nothing happens; an accepted identity becomes the new graph; a rejected one is `GraphRejected` with the graph unchanged; nothing is sent and the cache is kept |
| Gossip.GossipAdjacency | src/daemon/inout_route/gossip.rs:95-142 | one adjacency: only identity requests, never for ourselves or a cached fingerprint, and the cache only grows |
| Gossip.GossipAdjacencyMerges | src/daemon/inout_route/gossip.rs:104-141 | a failed identity lookup ends the step with an RPC error; with both answered, the step passes exactly when the fetched left identity, then the right one, then the adjacency are accepted (`Merged`), the graph is then that merged graph, and a rejection is `GraphRejected` |
| Gossip.GossipAll | src/daemon/inout_route/gossip.rs:95-142 | over the whole loop only identities are requested, never ours and never one cached when the loop began; the cache only grows |
| Gossip.GossipAllFirstError | src/daemon/inout_route/gossip.rs:95-142 | the loop passes exactly when every adjacency, merged into the state the ones before it left, passes; a failing loop returns exactly the result of the first adjacency that fails, so nothing after it is requested or inserted |
| Gossip.GossipGraphStep | src/daemon/inout_route/gossip.rs:85-144 | the first request is the adjacency query for the sample, followed only by identity requests that skip ourselves and cached nodes; a failed query is an RPC error with the graph and cache unchanged; an answered one is merged by the loop over the reported adjacencies |
| Gossip.GossipOnceOrder | src/daemon/inout_route/gossip.rs:19-31 | with a relay neighbour the round starts with its identity request, otherwise with the graph query; an adjacency signature is requested second only after the identity was merged, only if `my_fp < remote_fp`, and always for the initiated descriptor |
| Gossip.GossipOnceStep | src/daemon/inout_route/gossip.rs:19-31 | a round always sends at least one request, keeps every earlier request, and the cache only grows |
| Gossip.GossipOnceStopsAtFirstError | src/daemon/inout_route/gossip.rs:19-31 | a failed identity fetch, or a failed adjacency signature after a passed fetch, is the round's result; graph gossip runs after both passed, or at once with no relay neighbour; the graph is queried exactly in those cases |
| Gossip.InitiatedPassesResponder | src/daemon/inout_route/gossip.rs:59-68 | the initiator's ordering rule makes the responder's `left < right` and `right == my_fp` test pass |
| Gossip.GossipNode.SampleIsValid | src/daemon/inout_route/gossip.rs:87-91 | the sample taken has `min(10, known)` distinct known nodes |
| Gossip.GossipNode.FetchIdentity | src/daemon/inout_route/gossip.rs:35-47 | the new state and result are those of `FetchIdentityStep` |
| Gossip.GossipNode.SignAdjacency | src/daemon/inout_route/gossip.rs:51-81 | the new state and result are those of `SignAdjacencyStep` |
| Gossip.GossipNode.FetchIfUnknown | src/daemon/inout_route/gossip.rs:104-129 | the new state and reply are those of `LookupIdentity` |
| Gossip.GossipNode.InsertIdentity | src/daemon/inout_route/gossip.rs:132-138 | the new graph and result are those of `InsertFetched` |
| Gossip.GossipNode.GossipGraph | src/daemon/inout_route/gossip.rs:85-144 | the loop's effect is `GossipGraphStep` on the sampled nodes, which `GossipAllFirstError` and `GossipAdjacencyMerges` describe |
| Gossip.GossipNode.GossipOnce | src/daemon/inout_route/gossip.rs:19-31 | the round's effect is `GossipOnceStep`, whose order and first-error stop `GossipOnceOrder` and `GossipOnceStopsAtFirstError` state |
| LinkConnection.Admit | src/daemon/link_connection.rs:98-122 | failure exactly when authentication failed or the expected fingerprint differs, and then the table is unchanged; on success the remote fingerprint is added, pinned when it was expected and with a 300 s lifetime otherwise, and other entries are unchanged |
| LinkConnection.DecodeOnionPacket | src/daemon/link_connection.rs:216-219 | bytes are accepted, unchanged, exactly when their length is one raw packet |
| LinkConnection.RelayOnly | src/daemon/link_connection.rs:337-340 | keeps exactly the adjacencies whose two ends are known relays, each as often as it occurs in the input, and drops the rest |
| LinkConnection.RelayOnlyIsSubsequence | src/daemon/link_connection.rs:337-340 | the filter keeps order |
| LinkConnection.RelayAdjacencies | src/daemon/link_connection.rs:333-344 | only adjacencies of requested fingerprints whose two ends are known relays, and all of them, in request order, with no consecutive duplicates |
| LinkConnection.PoolTake | src/daemon/link_connection.rs:245-253 | the pool only shrinks: an entry is taken off, or the pool ends up empty |
| LinkConnection.PoolTakeFirstFresh | src/daemon/link_connection.rs:245-253 | stale entries (at least 60 s old) are discarded; the first younger entry is returned and the entries behind it stay pooled in order; only an exhausted pool opens a new stream |
| LinkConnection.DaemonContext.Connect | src/daemon/link_connection.rs:53-129 | the neighbour table and the result are those of `Admit` |
| LinkConnection.LinkProtocolImpl.SignAdjacency | src/daemon/link_connection.rs:294-327 | `None` and no change unless `left < right`, `right` is our fingerprint and `left` is in the neighbour table; only `right_sig` is filled; the returned descriptor is exactly the one inserted |
| LinkConnection.LinkProtocolImpl.Identity | src/daemon/link_connection.rs:329-331 | a read-only lookup of the graph |
| LinkConnection.LinkProtocolImpl.Adjacencies | src/daemon/link_connection.rs:333-344 | relay-only adjacencies of the request, order kept, no consecutive duplicates |
| LinkConnection.MultiplexRpcTransport.GetConn | src/daemon/link_connection.rs:245-253 | the result and the remaining pool are those of `PoolTake` |
| LinkConnection.MultiplexRpcTransport.CallRaw | src/daemon/link_connection.rs:260-272 | once a connection is obtained it is pushed back, stamped with the current time, whatever the exchange returns; when none is obtained nothing is pushed |
| N2r.Fit | src/socket/n2r_socket.rs:145-156 | starting from a running size, the taken bodies are a prefix of the batch whose size stays within 8192, and the next body would not fit |
| N2r.FitPrefix | src/socket/n2r_socket.rs:140-156 | the subbatch is an in-order prefix with size (sum of `len + 10`) at most 8192, and the first body left behind would overflow it |
| N2r.OversizedHeadSendsNothing | src/socket/n2r_socket.rs:148-153 | a first body with `len + 10 > 8192` yields an empty subbatch |
| N2r.FitPrefixUnique | src/socket/n2r_socket.rs:148-156 | the subbatch is the only prefix that fits and cannot take one more body |
| N2r.BodiesForConcat | src/socket/n2r_socket.rs:133-138 | bodies to one endpoint keep their arrival order: an earlier arrival is batched earlier |
| N2r.BodiesForMembers | src/socket/n2r_socket.rs:133-138 | a body is in an endpoint's batch exactly when a message carrying it was sent there |
| N2r.ArrivalOrder | src/socket/n2r_socket.rs:133-138 | every destination appears once, exactly the destinations of the round's messages |
| N2r.SendAll | src/socket/n2r_socket.rs:140-166 | the i-th send goes to the i-th destination with `FitPrefix` of its bodies and was accepted; with no failure every destination is sent to; a failure names the first destination whose send was refused, and nothing after it is sent |
| N2r.RoundSendsFit | src/socket/n2r_socket.rs:140-166 | each send of a round goes to a distinct endpoint and carries an in-order prefix of that endpoint's bodies within the size bound |
| N2r.Tagged | src/socket/n2r_socket.rs:110-113 | every body of a message, in order, tagged with `Endpoint(fingerprint, source_dock)` |
| N2r.Drain | src/socket/n2r_socket.rs:100-115 | the channel only shrinks, and nothing is queued locally unless a body was received |
| N2r.DrainFirstBody | src/socket/n2r_socket.rs:100-115 | with an empty local queue: the first body of the first message that has one is returned, the rest of that message is queued in order, later messages stay in the channel; it waits, or fails on a closed channel, only when no message has a body |
| N2r.FreeDockExists | src/socket/n2r_socket.rs:46-57 | while fewer than 2^32 endpoints are bound, a dock not bound for our fingerprint exists, so the search for one ends |
| N2r.N2rSocket.Bind | src/socket/n2r_socket.rs:41-93 | a supplied dock is used as is, otherwise the dock is not already bound for our fingerprint; the endpoint is then registered with a fresh empty channel |
| N2r.N2rSocket.LocalEndpoint | src/socket/n2r_socket.rs:117-119 | the bound fingerprint and dock |
| N2r.N2rSocket.SendTo | src/socket/n2r_socket.rs:95-98 | always succeeds and appends the body for the batcher |
| N2r.N2rSocket.RecvFrom | src/socket/n2r_socket.rs:100-115 | a queued item is returned first and nothing else changes; otherwise the outcome and new state are those of `Drain` |
| N2r.N2rSocket.Drop | src/socket/n2r_socket.rs:170-176 | exactly the socket's endpoint is removed from the registry |
| N2r.N2rSocket.SendBatches | src/socket/n2r_socket.rs:122-168 | with nothing waiting, nothing happens; otherwise every waiting body is taken and the sends are those of `SendAll` over the destinations in arrival order |
| N2r.SendEach | src/socket/n2r_socket.rs:140-166 | the sends and result of the loop over the batches are those of `SendAll` |
| N2r.GroupByEndpoint | src/socket/n2r_socket.rs:128-138 | the batches hold, for each destination and only for those, its bodies in arrival order |
| N2r.TakeSubbatch | src/socket/n2r_socket.rs:140-156 | the subbatch is `FitPrefix` of the batch, and subbatch followed by what is left is the original batch |

## Left out

- Cryptography and packet construction (peeling, degarbling, signatures, blake3). These are function-valued parameters with no assumed properties. The packet hash is not assumed injective, so two packets with the same hash are treated as one for replay purposes.
- Relay-graph internals: `find_shortest_path`, the validation done by `insert_identity`/`insert_adjacency`, and how `all_nodes` is derived. These are parameters or a plain record.
- Transport and I/O: TCP and sosistab listeners, `Multiplex` streams, `connection_loop`, `onion_keepalive`, the JSON-RPC encoding of requests and replies, and the `authenticate`/`verify` handshake. The handshake enters `LinkConnection.DaemonContext.Connect` as the verified remote fingerprint, or `None`.
- Concurrency: the DashSet/DashMap tables, channels, `Immortal` respawns and `race`. Everything runs sequentially.
- Channel capacities where a full channel blocks rather than fails. These are the 1000-slot outgoing and incoming channels of an N2R socket and the one-slot onion channels, whose `send().await` waits.
- Wall-clock time: the 10 ms batch sleep and the delay-timer wake-up. A relayed packet's later `send_raw` after its delay runs in a detached task; only the scheduled timer is recorded.
- Randomness. The random dock, the random gossip sample and HashMap iteration order are choices constrained only by the stated properties.
- The moka time-to-live of IDENTITY_CACHE (60 s) and the expiry of in-route neighbour-table entries. The cache and the table only grow in the model.
- Colours and time formatting in `pretty_entry`: `time` is the already formatted text.
- The onion sending side, `bytemuck::bytes_of` on a `RawPacket`: the packet layout is not part of this model, so only the receiving size check (`LinkConnection.DecodeOnionPacket`) is modelled.
- ANON_DESTS and CHATS are not part of this model. `PeelForward.Filed` and `InoutRoute.Record` take their `insert` and `record` to be unbounded per-key append logs.
- Float-valued debt summaries, and the `todo!()` bodies such as `start_settlement`.
- Network.Relay.IncomingRaw: requires a relay identity, because the source panics on a client (`expect`). The failure of `n2r::incoming_forward` is not modelled: a received body is always delivered.
- Network.Relay.SendToRelay: `Spider::send` is not part of this model. It fails here only when the neighbour has no link.
- Network.OneHopCloser: the neighbour order is the spider's key order, passed in as a list. A route whose length is `usize::MAX` is never chosen, as in the source.
- InoutRoute.LinkProtocolImpl.SignAdjacency: requires a relay identity, because the source panics on a client.
- PeelForward.Daemon.PeelForwardInner: `decrement_rrb_balance` and `replenish_rrb` are not part of this model. The failure of `replenish_rrb`, which would end the call before the inner packet is processed, is not modelled.
- PeelForward.SecondGarbledReplyFails: it does not distinguish which of the two errors occurs; that depends on the debt policy.
- Gossip.LookupIdentity: cached entries never expire, so the "skip cached identities" rule applies to everything fetched earlier.
- Gossip.GossipNode.GossipGraph: the sample is taken from the graph's node set through a sampler that only promises `min(10, known)` distinct known nodes (`GossipNode.Valid`).
- N2r.N2rSocket.Bind: without a dock it requires that some dock is free for our fingerprint. The source's loop probes only our fingerprint's endpoints, and with none free it never ends.
- N2r.N2rSocket.SendBatches: destinations are visited in first-arrival order, where the source iterates a HashMap. A failing `send_message` ends the round. The respawn that follows is not modelled.
- N2r.N2rSocket.RecvFrom: a closed channel is one whose sending end is no longer registered. Waiting is returned as `Pending`.
- LinkConnection.MultiplexRpcTransport.CallRaw: the pushed-back timestamp is the call's own `now`, since no time passes within a call.
- LinkConnection.LinkProtocolImpl.SignAdjacency: neighbour-table membership ignores entry expiry.
- `GLOBAL_IDENTITY`/`MY_RELAY_IDENTITY` key material and the `authenticate` and `info` RPCs.
- `src/link_node.rs`, `src/link_node/link_store.rs`, `src/commands.rs`, `src/lib.rs` and the GUI are not part of this model.
