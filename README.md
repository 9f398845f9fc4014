# A verified model of the maelstrom actor nodes

This project models, in Dafny, the node logic of `maelstrom`. That is a small
Rust framework for writing nodes that talk to the Maelstrom distributed-systems
workbench over stdin/stdout, exchanging JSON messages. The model covers:

- `Message::new_reply_to` (module `Messages`): the envelope every reply is
  built with.
- `CrdtBase::process_crdt_payload` (module `Crdt`): the gossip engine. A node stores
  `(unique id, value)` entries received through `add` and, from peers,
  through `gossip`. For every node it tracks the set of ids that node is
  known to hold. On every timer tick (`start_gossip`) it sends each peer
  the entries not known to be there. A peer answers `gossip_ok` with
  everything it now holds.
- The grow-only counter (module `GCounter`), which instantiates the engine
  with numeric deltas and answers `read` with their sum.
- The broadcast actor (module `Broadcast`), an implementation of its own
  that tracks, per broadcast id, which nodes hold the value. It stores a value once
  and forwards it to every peer not yet recorded.
- The echo actor (module `Echo`).

Each stateful actor is a `class` whose fields mirror the Rust struct. Its
`receive` is a method whose postcondition ties the new fields and the result
to a pure function of the old state: `Crdt.Step`, `GCounter.CounterStep` or
`Broadcast.Step`. The two loops of `process_crdt_payload` are imperative
loops. Both are proved against recursive specifications:

- the per-peer walk of `start_gossip` against `Crdt.GossipOut` and `Crdt.WithEntries`;
- the merge loop of `gossip` against `Crdt.Merge`.

The properties of the protocol are lemmas about these functions.

Files: `errors.dfy` (Option, Result, the error enum), `messages.dfy`,
`sequences.dfy` (an order-preserving subsequence predicate), `crdt.dfy`,
`g-counter.dfy`, `broadcast.dfy`, `echo.dfy`.

## Model

| member | source | states |
|---|---|---|
| Messages.NewReplyTo | src/message.rs:19-25 | the reply goes from the request's destination back to its source and carries the given body |
| Messages.ReplyToReplyRestoresEndpoints | src/message.rs:19-25 | replying to a reply restores the original source and destination |
| Crdt.UnsentFilters | src/crdt.rs:104-110 | the entries gossiped to a peer keep the store's order; they are exactly the stored entries whose id the peer is not known to hold, each with its multiplicity |
| Crdt.UnsentEmptyIffKnown | src/crdt.rs:105-112 | nothing is unsent to a peer exactly when every stored id is in its known-set (both directions) |
| Crdt.GossipOutShape | src/crdt.rs:98-125 | every message of a tick goes from the node to one of its peers and carries exactly that peer's non-empty unsent entries |
| Crdt.Unsent | src/crdt.rs:105-110 | the entries gossiped to a peer are never more than the store holds |
| Crdt.GossipOut | src/crdt.rs:100-123 | a tick sends at most one gossip message per peer |
| Crdt.WithEntries | src/crdt.rs:104 | the `entry(..).or_default()` walk keeps every existing known-set key |
| Crdt.Merge | src/crdt.rs:129-134 | the gossip loop only appends to the store, at most one entry per batch entry, and keeps every id the node already knew |
| Crdt.Step | src/crdt.rs:82-151 | no arm changes the node id or the peers; only a `read` asks the wrapping actor for an answer |
| Crdt.GossipOutFollowsPeers | src/crdt.rs:100-123 | the destinations of a tick keep the order of `peers` |
| Crdt.GossipOutCounts | src/crdt.rs:100-123 | a peer gets one gossip per occurrence in `peers` when something is unsent to it, and none otherwise |
| Crdt.WithEntriesCreatesOnly | src/crdt.rs:104 | a tick creates an empty known-set for every peer that had none, adds no other key, and changes no known-set |
| Crdt.MergeSpec | src/crdt.rs:129-134 | a merge appends the batch's entries with unknown ids, first occurrence only, in batch order, and adds every batch id to the node's known-set |
| Crdt.NewEntriesAreUnknown | src/crdt.rs:129-134 | appended entries come from the batch and have ids the node did not know; none repeats an id; their ids are exactly the batch's unknown ids |
| Crdt.MergeNoopWhenKnown | src/crdt.rs:129-134 | a batch whose ids are all known changes neither the store nor the known-set |
| Crdt.MergeIdempotent | src/crdt.rs:129-134 | merging the same batch twice equals merging it once |
| Crdt.MergeStoreIds | src/crdt.rs:129-134 | after a merge the stored ids are the old ones plus the batch's unknown ones |
| Crdt.MergeKeepsStoreKnown | src/crdt.rs:129-134 | if every stored id is known before a merge, the same holds after it |
| Crdt.MergeKeepsIdsDistinct | src/crdt.rs:129-134 | a store of distinct, known ids stays free of duplicate ids after a merge |
| Crdt.MergeCommutes | src/crdt.rs:129-134 | merging two batches in either order gives the same known-set and the same stored ids; when no id carries two values across the batches, the two stores hold the same entries (as multisets) |
| Crdt.AddAppendsOne | src/crdt.rs:87-96 | `add` appends exactly one entry keyed by (sender, msg_id) and adds that id to the node's own known-set; no other known-set changes, and the sender gets one `add_ok` for its msg_id |
| Crdt.AddTwiceAppendsTwice | src/crdt.rs:87-96 | `add` does not deduplicate: delivering the same `add` twice stores the entry twice |
| Crdt.StepPreservesInv | src/crdt.rs:82-151 | every arm keeps every stored id in the node's own known-set (and an uninitialised node stores nothing) |
| Crdt.StepMonotone | src/crdt.rs:82-151 | no arm removes a known-set entry or an id from a known-set; the store only grows at its end; node id and peers never change |
| Crdt.OnlyAddAndGossipStore | src/crdt.rs:97-149 | every arm other than `add` and `gossip` leaves the store unchanged |
| Crdt.StartGossipSendsOnlyUnsent | src/crdt.rs:98-125 | a tick leaves the store and every known-set as they were and returns at most one gossip per peer, in peer order; each comes from the node and carries that peer's non-empty unsent entries |
| Crdt.StartGossipNeverToSelf | src/crdt.rs:98-125 | given the invariant, a tick never gossips to the node itself, even if the topology lists it |
| Crdt.StartGossipReachesEveryLaggingPeer | src/crdt.rs:98-125 | a tick messages a node exactly when it is a peer and some stored id is missing from its known-set, once per occurrence in `peers` |
| Crdt.GossipAcknowledgesAll | src/crdt.rs:126-141 | after `gossip` the node's known-set is the old one plus all batch ids, and the reply is one `gossip_ok` to the sender carrying that whole set |
| Crdt.GossipAppendsOnlyUnknown | src/crdt.rs:126-141 | `gossip` only appends; it appends entries of the batch whose ids were unknown, each id once, and all such ids |
| Crdt.GossipIdempotent | src/crdt.rs:126-141 | delivering the same `gossip` twice leaves the node, and the reply, as after the first delivery |
| Crdt.GossipCommutes | src/crdt.rs:126-141 | two `gossip` deliveries in either order give the same known-sets and the same stored ids; when no id carries two values across the payloads, the two stores hold the same entries (as multisets) |
| Crdt.GossipOkRecordsSeen | src/crdt.rs:142-146 | `gossip_ok` unions `seen` into the sender's known-set, changes no other known-set or the store, and sends nothing |
| Crdt.PassiveArmsChangeNothing | src/crdt.rs:97-149 | `read`, `add_ok` and `read_ok` leave the state alone; `read` is handed back to the actor as a read request, the acknowledgements yield no output |
| Crdt.GossipRound | src/crdt.rs:99-124 | the loop of a tick returns exactly `GossipOut` and the known-sets with an entry created for every peer |
| Crdt.CrdtBase.constructor | src/crdt.rs:16-22 | a new engine has no identity, no peers, no entries and no known-sets, and satisfies the invariant |
| Crdt.CrdtBase.MergeBatch | src/crdt.rs:127-134 | the merge loop leaves the store and the node's known-set as `Merge` says, and changes nothing else |
| Crdt.CrdtBase.ProcessCrdtPayload | src/crdt.rs:82-151 | the new fields and the response are those of `Step` on the old fields; the invariant is kept |
| GCounter.SumDeltas | src/bin/g-counter.rs:29 | the counter value is at least every single stored delta |
| GCounter.CounterStep | src/bin/g-counter.rs:22-33 | the counter never answers with an error, and its new state is the engine's |
| GCounter.SumDeltasAppend | src/bin/g-counter.rs:29 | the sum of a concatenated store is the sum of the sums |
| GCounter.SumDeltasRemove | src/bin/g-counter.rs:29 | removing one entry removes its delta from the sum |
| GCounter.SumDeltasPermutation | src/bin/g-counter.rs:29 | two stores with the same entries, in any order, have the same sum |
| GCounter.ReadReturnsSum | src/bin/g-counter.rs:26-31 | a `read` leaves the state alone and is answered by one `read_ok` to the requester, for its msg_id, carrying the sum of all stored deltas |
| GCounter.OtherPayloadsDelegate | src/bin/g-counter.rs:26-27 | every other payload returns the engine's responses unchanged, never an error |
| GCounter.GossipOrderDoesNotChangeRead | src/bin/g-counter.rs:22-33 | when no id carries two deltas across two `gossip` payloads, a `read` after delivering them in either order returns the same sum |
| GCounter.ReusedIdMakesOrderVisible | src/crdt.rs:129-134 | without that premise the order shows: the same id with deltas 1 and 2 keeps whichever arrives first, so an empty node reads 1 in one order and 2 in the other |
| GCounter.AddThenGossipReadsSeven | src/bin/g-counter.rs:22-33 | on a node that starts with an empty store, `add` of 3, then a gossip of delta 4 under a new id, then `read` gives 7 |
| GCounter.GCounter.constructor | src/bin/g-counter.rs:4-5 | a new counter wraps a fresh, empty engine |
| GCounter.GCounter.Init | src/bin/g-counter.rs:9-20 | `init` records the node id and the peers, leaves everything else, keeps the invariant and succeeds |
| GCounter.GCounter.Receive | src/bin/g-counter.rs:22-33 | the new engine state and the result are those of `CounterStep` on the old state |
| Broadcast.Step | src/bin/broadcast.rs:73-161 | no arm changes the node id; a message no arm accepts is answered with `NotSupported` and changes nothing |
| Broadcast.Forwards | src/bin/broadcast.rs:121-131 | every forwarded copy goes from the node to a peer not in the ack set, as a `broadcast` of the same id and value |
| Broadcast.ForwardsFollowPeers | src/bin/broadcast.rs:121-131 | the forwarded copies keep the order of `peers` |
| Broadcast.ForwardsCounts | src/bin/broadcast.rs:121-131 | a peer gets one copy per occurrence in `peers` unless it is acked, and none if it is |
| Broadcast.TopologySetsPeers | src/bin/broadcast.rs:78-90 | `topology` sets the peers to the node's own entry, changes nothing else, and answers one `topology_ok` for its msg_id |
| Broadcast.BroadcastRecordsAcks | src/bin/broadcast.rs:101-110 | `broadcast` adds its sender and the node itself to the ack set of its id; no other id's set and neither peers nor node id change |
| Broadcast.BroadcastStoresFirstCopyOnly | src/bin/broadcast.rs:101-110 | the sender is recorded before the check, so the value is appended exactly when the node was not yet recorded for the id and is not the sender; a broadcast from the node to itself is never stored |
| Broadcast.BroadcastStoresOnce | src/bin/broadcast.rs:101-110 | after one broadcast of an id, the next broadcast of that id, from any sender, stores nothing |
| Broadcast.RecordedStaysRecorded | src/bin/broadcast.rs:73-161 | once the node is recorded in the ack set of an id, it stays recorded, with the same identity, through any run of messages the actor accepts |
| Broadcast.BroadcastStoresOnceEver | src/bin/broadcast.rs:101-110 | after one broadcast of an id and any run of accepted messages, a further broadcast of that id, from any sender, stores nothing |
| Broadcast.BroadcastForwardsToUnacked | src/bin/broadcast.rs:112-132 | the output is one `broadcast_ok` to the sender, then one copy per peer not recorded for the id, in peer order and once per occurrence; never to the sender or the node |
| Broadcast.BroadcastOkRecordsAck | src/bin/broadcast.rs:134-142 | `broadcast_ok` adds its sender to the acknowledged id's set, changes nothing else, and sends nothing |
| Broadcast.ReadReturnsStore | src/bin/broadcast.rs:143-153 | `read` changes nothing and answers one `read_ok` carrying every stored value in arrival order |
| Broadcast.AcksFromHarnessAreSilent | src/bin/broadcast.rs:91-94 | `topology_ok` and `read_ok` (lines 154-158) change nothing and produce no output |
| Broadcast.MismatchedTypeNotSupported | src/bin/broadcast.rs:77-160 | `receive` fails exactly when the type string does not match the variant, and then with `NotSupported` and no change of state |
| Broadcast.AcksOnlyGrow | src/bin/broadcast.rs:77-160 | no arm removes an ack; the store only grows at its end; only `topology` changes the peers; the node id never changes |
| Broadcast.BroadcastActor.constructor | src/bin/broadcast.rs:16-24 | a new actor has no identity, no peers, no values and no acks |
| Broadcast.BroadcastActor.Init | src/bin/broadcast.rs:67-71 | `init` records the node id only and succeeds |
| Broadcast.BroadcastActor.Receive | src/bin/broadcast.rs:73-161 | the new fields and the result are those of `Step` on the old fields |
| Echo.EchoActor.constructor | src/bin/echo.rs:14-17 | a new actor has no identity |
| Echo.EchoActor.Init | src/bin/echo.rs:39-43 | `init` records the node id and succeeds |
| Echo.EchoActor.Receive | src/bin/echo.rs:45-69 | an `echo` gets one `echo_ok` to the sender with the same text and msg_id; any `EchoAck` is accepted silently whatever its type; it fails, with `NotSupported`, exactly for an `Echo` of another type |
| Echo.EchoExchangeQuiesces | src/bin/echo.rs:45-69 | the reply to an `echo` carries the request's text and msg_id back to the requester, and delivering it to an echo actor produces nothing |

## Left out

- Runtime I/O (src/runtime.rs): reading stdin, printing replies, the `init`
  handshake and the `init_ok` reply are not modelled. Each `receive` is
  modelled as one call. The model does not capture what the runtime does
  after a failed `receive`. It logs the error and `continue`s
  (src/runtime.rs:76-79), which skips `buffer.clear()` (src/runtime.rs:81).
  The next `read_line` then appends the following input line to the failed
  one, and `Message::deserialize` (src/message.rs:34-36) rejects the
  concatenation and panics. So as written, a node stops at the input after
  any `Err` from `receive`.
- `spawn_gossip_thread` (src/crdt.rs:63-80): the timer thread and its channel
  are concurrency. The `StartGossip` message it sends is an input to the model.
- `Message::serialize` / `Message::deserialize` and all serde attributes.
  Payloads are Dafny datatypes, with the `type` string as an explicit field
  wherever the code guards on it. The model assumes each message arrives as
  the variant its fields name. The broadcast payload is `#[serde(untagged)]`
  (src/bin/broadcast.rs:27): with untagged decoding, a `broadcast_ok` has the
  same fields as `TopologyAck`, which is declared first, and a `read_ok` has
  them too (its extra `messages` field is ignored). Decoded as `TopologyAck`,
  both would fail that arm's `topology_ok` guard. `receive` then returns
  `Err(NotSupported)`, nothing is sent, and the node crashes on its next
  input line (see the runtime bullet above). The model does not capture that decoding choice: it hands
  each arm the variant whose name the message's fields and type string give.
- `eprintln!` logging, `src/bin/id.rs` (uuid generation), the error module
  and the `Actor` trait as such (src/actor.rs) are not part of this model.
- JSON values (`serde_json::Value`) are type parameters: `V` for the engine's
  `read_ok` value, and `J` for broadcast values. The counter instantiates `V`
  with the number it carries.
- GCounter.SumDeltas: counter deltas and the sum are unbounded naturals.
  The `u64` sum of src/bin/g-counter.rs:29 can overflow, which is not modelled.
- Crdt.CrdtBase.ProcessCrdtPayload: the `unwrap` of `node_id()`
  (src/crdt.rs:59-61) panics when the node has no identity. That panic is a
  precondition here (`NeedsNodeId`), not an error path.
- Broadcast.BroadcastActor.Receive: the two `unwrap`s of `topology` and the
  one of `broadcast` (src/bin/broadcast.rs:83, 104) are preconditions
  (`CanReceive`), not error paths.
- GCounter.GCounter.Init: requires that the node has no identity yet. The
  runtime calls `init` once, before any message (src/runtime.rs:38-64). The
  engine invariant relates the stored ids to the node's own id.
- HashMap/HashSet iteration order does not arise. The only sets sent on the
  wire (`gossip_ok`'s `seen`) are modelled as sets. The multiplicities and
  order of the stored vectors are modelled exactly.
