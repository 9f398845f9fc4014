/** The gossip / anti-entropy engine shared by the CRDT actors
    (src/crdt.rs, `CrdtBase<T>`).

    A node keeps an append-only store of `((origin, seq), value)` entries and,
    for every peer (itself included), the set of unique ids it believes that
    peer holds. Each payload kind is one deterministic state transition:
    `Step` below is its specification and `CrdtBase.ProcessCrdtPayload` the
    imperative implementation proved against it. */
module Crdt {
  import opened Errors
  import opened Messages
  import opened Sequences

  /** The network-wide identity of a value: its origin and that origin's
      sequence number. */
  type UniqueMessageId = (ActorId, MessageId)

  /** A stored value together with its unique id. */
  type Entry<T> = (UniqueMessageId, T)

  /** Peer -> ids that peer is believed to have observed. */
  type KnownSets = map<ActorId, set<UniqueMessageId>>

  /** The engine's message vocabulary; `V` is the JSON value a `read_ok`
      carries. */
  datatype Payload<T, V> =
    | Add(msgId: MessageId, delta: T)
    | AddOk(inReplyTo: MessageId)
    | Read(msgId: MessageId)
    | ReadOk(inReplyTo: MessageId, value: V)
    | StartGossip
    | Gossip(payload: seq<Entry<T>>)
    | GossipOk(seen: set<UniqueMessageId>)

  /** Either the envelopes to send, or a request for the embedding actor to
      answer a read (it alone knows how to project the store). */
  datatype CrdtMessageResponse<T, V> =
    | Responses(msgs: seq<Message<Payload<T, V>>>)
    | ReadRequest(msgId: MessageId)

  /** The engine's fields as a value. */
  datatype EngineState<T> = EngineState(
    nodeId: Option<ActorId>,
    peers: seq<ActorId>,
    messages: seq<Entry<T>>,
    known: KnownSets)

  /** `known.entry(peer).or_default()` read as a set: a missing entry is empty. */
  function KnownOf(known: KnownSets, peer: ActorId): set<UniqueMessageId>
  {
    if peer in known then known[peer] else {}
  }

  /** The ids occurring in a list of entries. */
  ghost function Ids<T>(entries: seq<Entry<T>>): set<UniqueMessageId>
  {
    set e | e in entries :: e.0
  }

  /** No id occurs twice. */
  ghost predicate DistinctIds<T>(entries: seq<Entry<T>>)
  {
    forall i, j :: 0 <= i < j < |entries| ==> entries[i].0 != entries[j].0
  }

  /** Every id in the list carries one value: an id is never reused for a
      different delta. */
  ghost predicate OneValuePerId<T>(entries: seq<Entry<T>>)
  {
    forall e1, e2 | e1 in entries && e2 in entries && e1.0 == e2.0 :: e1 == e2
  }

  /** The payloads whose arm calls `self.node_id()`, which unwraps. */
  predicate NeedsNodeId<T, V>(body: Payload<T, V>)
  {
    body.Add? || body.StartGossip? || body.Gossip?
  }

  /** Every value the node stores is in its own known-set, so it never counts
      its own entries as unsent to itself. Before init nothing is stored. */
  ghost predicate Inv<T>(s: EngineState<T>)
  {
    match s.nodeId
    case None => s.messages == []
    case Some(me) => Ids(s.messages) <= KnownOf(s.known, me)
  }

  /** The entries of `entries`, in store order, whose id is not in `known`:
      a subsequence holding every such entry as often as the store does, and
      nothing else. */
  function Unsent<T>(entries: seq<Entry<T>>, known: set<UniqueMessageId>): (pending: seq<Entry<T>>)
    ensures |pending| <= |entries|
  {
    if entries == [] then []
    else if entries[0].0 in known then Unsent(entries[1..], known)
    else [entries[0]] + Unsent(entries[1..], known)
  }

  /** The unsent entries keep the store's order, and they are exactly the
      stored entries whose id is not known, with their multiplicity. */
  lemma {:induction false} UnsentFilters<T>(entries: seq<Entry<T>>, known: set<UniqueMessageId>)
    ensures var pending := Unsent(entries, known);
      && IsSubsequence(pending, entries)
      && (forall e | e in entries :: multiset(pending)[e] == if e.0 in known then 0 else multiset(entries)[e])
      && (forall e | e in pending :: e in entries)
    decreases |entries|
  {
    if entries != [] {
      assert entries == [entries[0]] + entries[1..];
      UnsentFilters(entries[1..], known);
    }
  }

  /** The `Gossip` envelopes of one tick: for each peer, in `peers` order, one
      message carrying what that peer is not known to hold; peers with
      nothing unsent get no message. */
  function GossipOut<T, V>(me: ActorId, peers: seq<ActorId>, messages: seq<Entry<T>>, known: KnownSets)
    : (out: seq<Message<Payload<T, V>>>)
    ensures |out| <= |peers|
  {
    if peers == [] then []
    else
      var pending := Unsent(messages, KnownOf(known, peers[0]));
      var rest := GossipOut<T, V>(me, peers[1..], messages, known);
      if pending == [] then rest
      else [Message(me, peers[0], Gossip(pending))] + rest
  }

  /** `m` is a gossip from `me` to one of `peers` carrying exactly the
      entries that peer is not known to hold, and at least one. */
  ghost predicate IsPendingGossip<T, V>(m: Message<Payload<T, V>>, me: ActorId, peers: seq<ActorId>,
                                        messages: seq<Entry<T>>, known: KnownSets)
  {
    && m.src == me
    && m.dest in peers
    && m.body == Gossip(Unsent(messages, KnownOf(known, m.dest)))
    && m.body.payload != []
  }

  /** Every message of a tick is such a gossip. */
  lemma {:induction false} GossipOutShape<T, V>(me: ActorId, peers: seq<ActorId>, messages: seq<Entry<T>>, known: KnownSets)
    ensures forall m | m in GossipOut<T, V>(me, peers, messages, known) :: IsPendingGossip(m, me, peers, messages, known)
    decreases |peers|
  {
    if peers != [] {
      var out := GossipOut<T, V>(me, peers, messages, known);
      var rest := GossipOut<T, V>(me, peers[1..], messages, known);
      var pending := Unsent(messages, KnownOf(known, peers[0]));
      GossipOutShape<T, V>(me, peers[1..], messages, known);
      forall m | m in out ensures IsPendingGossip(m, me, peers, messages, known) {
        if m in rest {
          assert IsPendingGossip(m, me, peers[1..], messages, known);
          assert m.dest in peers[1..];
        }
      }
    }
  }

  /** `known` after `entry(peer).or_default()` for every peer: an empty entry
      is created for each missing peer and no known-set changes. */
  function WithEntries(known: KnownSets, peers: seq<ActorId>): (k: KnownSets)
    ensures known.Keys <= k.Keys
    decreases |peers|
  {
    if peers == [] then known
    else
      var created := if peers[0] in known then known else known[peers[0] := {}];
      WithEntries(created, peers[1..])
  }

  /** Every peer gets an entry, no other key appears, and no known-set
      changes. */
  lemma {:induction false} WithEntriesCreatesOnly(known: KnownSets, peers: seq<ActorId>)
    ensures var k := WithEntries(known, peers);
      && k.Keys == known.Keys + (set p | p in peers)
      && forall p :: KnownOf(k, p) == KnownOf(known, p)
    decreases |peers|
  {
    if peers != [] {
      var created := if peers[0] in known then known else known[peers[0] := {}];
      WithEntriesCreatesOnly(created, peers[1..]);
      assert (set p | p in peers) == {peers[0]} + (set p | p in peers[1..]) by {
        assert peers == [peers[0]] + peers[1..];
      }
    }
  }

  /** The `Gossip` merge loop: each batch entry whose id is not yet known is
      appended to the store and its id added to the node's known-set. */
  function Merge<T>(store: seq<Entry<T>>, ours: set<UniqueMessageId>, batch: seq<Entry<T>>)
    : (r: (seq<Entry<T>>, set<UniqueMessageId>))
    ensures |store| <= |r.0| <= |store| + |batch|
    ensures ours <= r.1
    decreases |batch|
  {
    if batch == [] then (store, ours)
    else if batch[0].0 in ours then Merge(store, ours, batch[1..])
      else Merge(store + [batch[0]], ours + {batch[0].0}, batch[1..])
  }

  /** The entries a merge of `batch` over the known-set `ours` appends, in
      batch order: the first occurrence of each id not in `ours`. */
  function NewEntries<T>(ours: set<UniqueMessageId>, batch: seq<Entry<T>>): seq<Entry<T>>
    decreases |batch|
  {
    if batch == [] then []
    else if batch[0].0 in ours then NewEntries(ours, batch[1..])
    else [batch[0]] + NewEntries(ours + {batch[0].0}, batch[1..])
  }

  /** `process_crdt_payload` as a function of the old state: the new state and
      the response. */
  function Step<T, V>(s: EngineState<T>, message: Message<Payload<T, V>>)
    : (r: (EngineState<T>, CrdtMessageResponse<T, V>))
    requires NeedsNodeId(message.body) ==> s.nodeId.Some?
    ensures r.0.nodeId == s.nodeId && r.0.peers == s.peers
    ensures r.1.ReadRequest? <==> message.body.Read?
  {
    match message.body
    case Add(msgId, delta) =>
      var id := (message.src, msgId);
      var me := s.nodeId.value;
      (s.(messages := s.messages + [(id, delta)], known := s.known[me := KnownOf(s.known, me) + {id}]),
       Responses([NewReplyTo(message, AddOk(msgId))]))
    case Read(msgId) =>
      (s, ReadRequest(msgId))
    case StartGossip =>
      (s.(known := WithEntries(s.known, s.peers)),
       Responses(GossipOut(s.nodeId.value, s.peers, s.messages, s.known)))
    case Gossip(batch) =>
      var me := s.nodeId.value;
      var merged := Merge(s.messages, KnownOf(s.known, me), batch);
      (s.(messages := merged.0, known := s.known[me := merged.1]),
       Responses([NewReplyTo(message, GossipOk(merged.1))]))
    case GossipOk(seen) =>
      (s.(known := s.known[message.src := KnownOf(s.known, message.src) + seen]), Responses([]))
    case AddOk(_) =>
      (s, Responses([]))
    case ReadOk(_, _) =>
      (s, Responses([]))
  }

  // ---------------------------------------------------------------------
  // Properties of the store and known-set helpers

  lemma IdsAppend<T>(a: seq<Entry<T>>, b: seq<Entry<T>>)
    ensures Ids(a + b) == Ids(a) + Ids(b)
  {
    assert forall e :: e in a + b <==> e in a || e in b;
  }

  /** Nothing is unsent exactly when every stored id is already known. */
  lemma UnsentEmptyIffKnown<T>(entries: seq<Entry<T>>, known: set<UniqueMessageId>)
    ensures Unsent(entries, known) == [] <==> Ids(entries) <= known
  {
    var pending := Unsent(entries, known);
    UnsentFilters(entries, known);
    if Ids(entries) <= known {
      assert forall e | e in pending :: e.0 in Ids(entries) && multiset(pending)[e] == 0;
      assert multiset(pending) == multiset{};
    } else {
      var x :| x in Ids(entries) && x !in known;
      var e :| e in entries && e.0 == x;
      assert multiset(pending)[e] == multiset(entries)[e] > 0;
    }
  }

  /** The destinations of a tick's output keep the order of `peers`. */
  lemma {:induction false} GossipOutFollowsPeers<T, V>(me: ActorId, peers: seq<ActorId>, messages: seq<Entry<T>>, known: KnownSets)
    ensures IsSubsequence(Dests(GossipOut<T, V>(me, peers, messages, known)), peers)
    decreases |peers|
  {
    if peers != [] {
      var out := GossipOut<T, V>(me, peers, messages, known);
      var rest := GossipOut<T, V>(me, peers[1..], messages, known);
      GossipOutFollowsPeers<T, V>(me, peers[1..], messages, known);
      if Unsent(messages, KnownOf(known, peers[0])) != [] {
        assert Dests(out)[0] == peers[0];
        assert Dests(out)[1..] == Dests(rest);
      }
    }
  }

  /** A peer receives one `Gossip` per occurrence in `peers` when something
      is unsent to it, and none otherwise. */
  lemma {:induction false} GossipOutCounts<T, V>(me: ActorId, peers: seq<ActorId>, messages: seq<Entry<T>>, known: KnownSets, p: ActorId)
    ensures multiset(Dests(GossipOut<T, V>(me, peers, messages, known)))[p] ==
            (if Unsent(messages, KnownOf(known, p)) == [] then 0 else multiset(peers)[p])
    decreases |peers|
  {
    if peers != [] {
      var q := peers[0];
      var out := GossipOut<T, V>(me, peers, messages, known);
      var rest := GossipOut<T, V>(me, peers[1..], messages, known);
      GossipOutCounts<T, V>(me, peers[1..], messages, known, p);
      assert multiset(peers) == multiset{q} + multiset(peers[1..]) by {
        assert peers == [q] + peers[1..];
      }
      var pending := Unsent(messages, KnownOf(known, q));
      if pending != [] {
        assert out == [Message(me, q, Gossip(pending))] + rest;
        assert Dests(out) == [q] + Dests(rest);
        assert multiset(Dests(out)) == multiset{q} + multiset(Dests(rest));
      } else {
        assert out == rest;
      }
    }
  }

  /** A merge appends the batch's new entries to the store and adds every id
      of the batch to the known-set. */
  lemma {:induction false} MergeSpec<T>(store: seq<Entry<T>>, ours: set<UniqueMessageId>, batch: seq<Entry<T>>)
    ensures Merge(store, ours, batch) == (store + NewEntries(ours, batch), ours + Ids(batch))
    decreases |batch|
  {
    if batch == [] {
      assert Ids(batch) == {};
      assert NewEntries(ours, batch) == [] && store + [] == store;
      assert Merge(store, ours, batch) == (store, ours);
      assert ours + Ids(batch) == ours;
    } else {
      var e, rest := batch[0], batch[1..];
      assert batch == [e] + rest;
      IdsAppend([e], rest);
      assert Ids([e]) == {e.0};
      if e.0 in ours {
        MergeSpec(store, ours, rest);
        assert ours + Ids(batch) == ours + Ids(rest);
      } else {
        MergeSpec(store + [e], ours + {e.0}, rest);
        assert NewEntries(ours, batch) == [e] + NewEntries(ours + {e.0}, rest);
        assert store + [e] + NewEntries(ours + {e.0}, rest) == store + NewEntries(ours, batch);
        assert ours + {e.0} + Ids(rest) == ours + Ids(batch);
      }
    }
  }

  /** What a merge appends: entries of the batch with previously unknown
      ids, no id twice, and exactly the batch's unknown ids. */
  lemma {:induction false} NewEntriesAreUnknown<T>(ours: set<UniqueMessageId>, batch: seq<Entry<T>>)
    ensures forall e | e in NewEntries(ours, batch) :: e in batch && e.0 !in ours
    ensures DistinctIds(NewEntries(ours, batch))
    ensures Ids(NewEntries(ours, batch)) == Ids(batch) - ours
    decreases |batch|
  {
    if batch != [] {
      assert batch == [batch[0]] + batch[1..];
      IdsAppend([batch[0]], batch[1..]);
      if batch[0].0 in ours {
        NewEntriesAreUnknown(ours, batch[1..]);
      } else {
        var ours' := ours + {batch[0].0};
        var rest := NewEntries(ours', batch[1..]);
        NewEntriesAreUnknown(ours', batch[1..]);
        IdsAppend([batch[0]], rest);
        var added := [batch[0]] + rest;
        forall i, j | 0 <= i < j < |added| ensures added[i].0 != added[j].0 {
          assert added[j] == rest[j - 1];
          if i > 0 {
            assert added[i] == rest[i - 1];
          } else {
            assert rest[j - 1] in rest;
          }
        }
      }
    }
  }

  /** Merging never changes anything when the whole batch is already known. */
  lemma MergeNoopWhenKnown<T>(store: seq<Entry<T>>, ours: set<UniqueMessageId>, batch: seq<Entry<T>>)
    requires Ids(batch) <= ours
    ensures Merge(store, ours, batch) == (store, ours)
  {
    var added := NewEntries(ours, batch);
    MergeSpec(store, ours, batch);
    NewEntriesAreUnknown(ours, batch);
    assert |added| > 0 ==> added[0] in added && added[0].0 in Ids(added);
  }

  /** Merging the same batch a second time changes nothing. */
  lemma MergeIdempotent<T>(store: seq<Entry<T>>, ours: set<UniqueMessageId>, batch: seq<Entry<T>>)
    ensures var r := Merge(store, ours, batch);
      Merge(r.0, r.1, batch) == r
  {
    var r := Merge(store, ours, batch);
    MergeSpec(store, ours, batch);
    MergeNoopWhenKnown(r.0, r.1, batch);
  }

  /** The stored ids after a merge: the old ones and the batch's unknown ones. */
  lemma MergeStoreIds<T>(store: seq<Entry<T>>, ours: set<UniqueMessageId>, batch: seq<Entry<T>>)
    ensures Ids(Merge(store, ours, batch).0) == Ids(store) + (Ids(batch) - ours)
  {
    MergeSpec(store, ours, batch);
    NewEntriesAreUnknown(ours, batch);
    IdsAppend(store, NewEntries(ours, batch));
  }

  /** A store whose ids are all known stays so after a merge. */
  lemma MergeKeepsStoreKnown<T>(store: seq<Entry<T>>, ours: set<UniqueMessageId>, batch: seq<Entry<T>>)
    requires Ids(store) <= ours
    ensures var r := Merge(store, ours, batch);
      Ids(r.0) <= r.1
  {
    MergeSpec(store, ours, batch);
    MergeStoreIds(store, ours, batch);
  }

  /** A store without duplicate ids, all of them known, keeps that property
      after a merge: each id is stored exactly once. */
  lemma MergeKeepsIdsDistinct<T>(store: seq<Entry<T>>, ours: set<UniqueMessageId>, batch: seq<Entry<T>>)
    requires Ids(store) <= ours && DistinctIds(store)
    ensures DistinctIds(Merge(store, ours, batch).0)
  {
    var r := Merge(store, ours, batch);
    var added := NewEntries(ours, batch);
    MergeSpec(store, ours, batch);
    NewEntriesAreUnknown(ours, batch);
    forall i, j | 0 <= i < j < |r.0| ensures r.0[i].0 != r.0[j].0 {
      if j >= |store| {
        assert r.0[j] == added[j - |store|];
        assert added[j - |store|] in added;
        if i < |store| {
          assert r.0[i] in store;
          assert r.0[i].0 in Ids(store);
        } else {
          assert r.0[i] == added[i - |store|];
        }
      }
    }
  }

  /** Removing one entry from a list without repeated ids removes exactly
      its id and keeps the list without repeated ids. */
  lemma RemoveAtIds<T>(b: seq<Entry<T>>, i: nat)
    requires i < |b| && DistinctIds(b)
    ensures var b' := b[..i] + b[i + 1..];
      && DistinctIds(b') && Ids(b') == Ids(b) - {b[i].0}
      && (forall e | e in b' :: e in b)
  {
    var b' := b[..i] + b[i + 1..];
    assert forall k | 0 <= k < |b'| :: b'[k] == b[if k < i then k else k + 1];
    forall k, l | 0 <= k < l < |b'| ensures b'[k].0 != b'[l].0 {
      var k', l' := (if k < i then k else k + 1), (if l < i then l else l + 1);
      assert k' < l';
    }
    forall e | e in b && e.0 != b[i].0 ensures e in b' {
      var k :| 0 <= k < |b| && b[k] == e;
      if k < i {
        assert b'[k] == e;
      } else {
        assert b'[k - 1] == e;
      }
    }
    forall e | e in b' ensures e in b && e.0 != b[i].0 {
      var k :| 0 <= k < |b'| && b'[k] == e;
    }
  }

  /** The first entry of `a` occurs in `b` at some `i`; dropping both leaves
      two lists that again satisfy `SameIdsSameEntries`'s requirements. */
  lemma MatchHead<T>(a: seq<Entry<T>>, b: seq<Entry<T>>, pool: seq<Entry<T>>) returns (i: nat)
    requires a != [] && DistinctIds(a) && DistinctIds(b) && Ids(a) == Ids(b)
    requires forall e | e in a :: e in pool
    requires forall e | e in b :: e in pool
    requires OneValuePerId(pool)
    ensures i < |b| && b[i] == a[0]
    ensures var a', b' := a[1..], b[..i] + b[i + 1..];
      && DistinctIds(a') && DistinctIds(b') && Ids(a') == Ids(b')
      && (forall e | e in a' :: e in pool) && (forall e | e in b' :: e in pool)
  {
    assert a[0].0 in Ids(b);
    i :| 0 <= i < |b| && b[i].0 == a[0].0;
    assert b[i] in b;
    RemoveAtIds(a, 0);
    assert a[..0] + a[1..] == a[1..];
    RemoveAtIds(b, i);
  }

  /** A list has no ids exactly when it is empty. */
  lemma IdsEmpty<T>(b: seq<Entry<T>>)
    ensures Ids(b) == {} <==> b == []
  {
    if b != [] {
      assert b[0] in b;
      assert b[0].0 in Ids(b);
    }
  }

  /** Lists whose heads match, and whose remainders hold the same entries,
      hold the same entries. */
  lemma MultisetMatch<X>(a: seq<X>, b: seq<X>, i: nat)
    requires a != [] && i < |b| && b[i] == a[0]
    requires multiset(a[1..]) == multiset(b[..i] + b[i + 1..])
    ensures multiset(a) == multiset(b)
  {
    MultisetPick(a, 0);
    assert a[..0] + a[1..] == a[1..];
    MultisetPick(b, i);
  }

  /** Two lists without repeated ids, over the same ids, drawn from a pool
      in which each id carries one value, hold the same entries. */
  lemma {:induction false} SameIdsSameEntries<T>(a: seq<Entry<T>>, b: seq<Entry<T>>, pool: seq<Entry<T>>)
    requires DistinctIds(a) && DistinctIds(b) && Ids(a) == Ids(b)
    requires forall e | e in a :: e in pool
    requires forall e | e in b :: e in pool
    requires OneValuePerId(pool)
    ensures multiset(a) == multiset(b)
    decreases |a|
  {
    if a == [] {
      IdsEmpty(a);
      IdsEmpty(b);
    } else {
      var i := MatchHead(a, b, pool);
      SameIdsSameEntries(a[1..], b[..i] + b[i + 1..], pool);
      MultisetMatch(a, b, i);
    }
  }

  /** Two lists without repeated ids and with disjoint id sets concatenate
      to a list without repeated ids. */
  lemma DistinctAppend<T>(a: seq<Entry<T>>, b: seq<Entry<T>>)
    requires DistinctIds(a) && DistinctIds(b) && Ids(a) !! Ids(b)
    ensures DistinctIds(a + b) && Ids(a + b) == Ids(a) + Ids(b)
  {
    IdsAppend(a, b);
    forall i, j | 0 <= i < j < |a + b| ensures (a + b)[i].0 != (a + b)[j].0 {
      if j < |a| {
        assert (a + b)[i] == a[i] && (a + b)[j] == a[j];
      } else if i >= |a| {
        assert (a + b)[i] == b[i - |a|] && (a + b)[j] == b[j - |a|];
      } else {
        assert (a + b)[i] == a[i] && a[i] in a && a[i].0 in Ids(a);
        assert (a + b)[j] == b[j - |a|] && b[j - |a|] in b && b[j - |a|].0 in Ids(b);
      }
    }
  }

  /** What two merges in a row append to the store: a list without repeated
      ids, holding exactly the unknown ids of both batches, each entry drawn
      from one of them. */
  lemma NewEntriesTwice<T>(ours: set<UniqueMessageId>, b1: seq<Entry<T>>, b2: seq<Entry<T>>)
    ensures var added := NewEntries(ours, b1) + NewEntries(ours + Ids(b1), b2);
      && DistinctIds(added) && Ids(added) == (Ids(b1) + Ids(b2)) - ours
      && (forall e | e in added :: e in b1 || e in b2)
  {
    var n1, n2 := NewEntries(ours, b1), NewEntries(ours + Ids(b1), b2);
    NewEntriesAreUnknown(ours, b1);
    NewEntriesAreUnknown(ours + Ids(b1), b2);
    DistinctAppend(n1, n2);
  }

  /** Two merges in a row append the first batch's new entries and then the
      second's, over the ids known after the first. */
  lemma TwoMergesStore<T>(store: seq<Entry<T>>, ours: set<UniqueMessageId>, b1: seq<Entry<T>>, b2: seq<Entry<T>>)
    ensures var r1 := Merge(store, ours, b1);
      Merge(r1.0, r1.1, b2).0 == store + (NewEntries(ours, b1) + NewEntries(ours + Ids(b1), b2))
  {
    var r1 := Merge(store, ours, b1);
    MergeSpec(store, ours, b1);
    MergeSpec(r1.0, r1.1, b2);
  }

  /** When no id carries two values across the batches, the entries two
      merges append are the same in either order. */
  lemma NewEntriesCommute<T>(ours: set<UniqueMessageId>, b1: seq<Entry<T>>, b2: seq<Entry<T>>)
    requires OneValuePerId(b1 + b2)
    ensures multiset(NewEntries(ours, b1) + NewEntries(ours + Ids(b1), b2))
         == multiset(NewEntries(ours, b2) + NewEntries(ours + Ids(b2), b1))
  {
    var a12 := NewEntries(ours, b1) + NewEntries(ours + Ids(b1), b2);
    var a21 := NewEntries(ours, b2) + NewEntries(ours + Ids(b2), b1);
    var both := (Ids(b1) + Ids(b2)) - ours;
    assert DistinctIds(a12) && Ids(a12) == both && forall e | e in a12 :: e in b1 + b2 by {
      NewEntriesTwice(ours, b1, b2);
    }
    assert DistinctIds(a21) && Ids(a21) == both && forall e | e in a21 :: e in b1 + b2 by {
      NewEntriesTwice(ours, b2, b1);
      assert Ids(b2) + Ids(b1) == Ids(b1) + Ids(b2);
    }
    SameIdsSameEntries(a12, a21, b1 + b2);
  }

  /** When no id carries two values across the batches, merging them in
      either order stores the same entries, in possibly different order. */
  lemma MergeCommutesEntries<T>(store: seq<Entry<T>>, ours: set<UniqueMessageId>, b1: seq<Entry<T>>, b2: seq<Entry<T>>)
    requires OneValuePerId(b1 + b2)
    ensures var r12 := Merge(Merge(store, ours, b1).0, Merge(store, ours, b1).1, b2);
            var r21 := Merge(Merge(store, ours, b2).0, Merge(store, ours, b2).1, b1);
      multiset(r12.0) == multiset(r21.0)
  {
    var a12 := NewEntries(ours, b1) + NewEntries(ours + Ids(b1), b2);
    var a21 := NewEntries(ours, b2) + NewEntries(ours + Ids(b2), b1);
    TwoMergesStore(store, ours, b1, b2);
    TwoMergesStore(store, ours, b2, b1);
    NewEntriesCommute(ours, b1, b2);
    assert multiset(store + a12) == multiset(store) + multiset(a12);
    assert multiset(store + a21) == multiset(store) + multiset(a21);
  }

  /** Merging two batches in either order yields the same known-set and the
      same set of stored ids; when no id carries two different values across
      the batches, the stores hold the same entries, in possibly different
      order. */
  lemma MergeCommutes<T>(store: seq<Entry<T>>, ours: set<UniqueMessageId>, b1: seq<Entry<T>>, b2: seq<Entry<T>>)
    ensures var r12 := Merge(Merge(store, ours, b1).0, Merge(store, ours, b1).1, b2);
            var r21 := Merge(Merge(store, ours, b2).0, Merge(store, ours, b2).1, b1);
      && r12.1 == r21.1 && Ids(r12.0) == Ids(r21.0)
      && (OneValuePerId(b1 + b2) ==> multiset(r12.0) == multiset(r21.0))
  {
    var r1 := Merge(store, ours, b1);
    var r2 := Merge(store, ours, b2);
    var r12 := Merge(r1.0, r1.1, b2);
    var r21 := Merge(r2.0, r2.1, b1);
    assert r12.1 == r21.1 && Ids(r12.0) == Ids(r21.0) by {
      MergeSpec(store, ours, b1);
      MergeSpec(store, ours, b2);
      MergeSpec(r1.0, r1.1, b2);
      MergeSpec(r2.0, r2.1, b1);
      MergeStoreIds(store, ours, b1);
      MergeStoreIds(store, ours, b2);
      MergeStoreIds(r1.0, r1.1, b2);
      MergeStoreIds(r2.0, r2.1, b1);
    }
    if OneValuePerId(b1 + b2) {
      MergeCommutesEntries(store, ours, b1, b2);
    }
  }

  // ---------------------------------------------------------------------
  // Properties of the transition, arm by arm

  /** `Add` appends exactly one entry, keyed by the sender and the request's
      sequence number, self-acknowledges it, and answers the sender with one
      `add_ok`. No other known-set changes. */
  lemma AddAppendsOne<T, V>(s: EngineState<T>, message: Message<Payload<T, V>>)
    requires message.body.Add? && s.nodeId.Some?
    ensures var (s', r) := Step(s, message);
            var id := (message.src, message.body.msgId);
      && s'.messages == s.messages + [(id, message.body.delta)]
      && KnownOf(s'.known, s.nodeId.value) == KnownOf(s.known, s.nodeId.value) + {id}
      && (forall p :: p != s.nodeId.value ==> KnownOf(s'.known, p) == KnownOf(s.known, p))
      && s'.nodeId == s.nodeId && s'.peers == s.peers
      && r == Responses([Message(message.dest, message.src, AddOk(message.body.msgId))])
  {
  }

  /** `Add` does not look for an existing id: delivering the same request
      twice stores its delta twice. */
  lemma AddTwiceAppendsTwice<T, V>(s: EngineState<T>, message: Message<Payload<T, V>>)
    requires message.body.Add? && s.nodeId.Some?
    ensures var s2 := Step(Step(s, message).0, message).0;
            var e := ((message.src, message.body.msgId), message.body.delta);
      s2.messages == s.messages + [e, e]
  {
  }

  /** Every arm keeps every stored id in the node's own known-set. */
  lemma StepPreservesInv<T, V>(s: EngineState<T>, message: Message<Payload<T, V>>)
    requires Inv(s)
    requires NeedsNodeId(message.body) ==> s.nodeId.Some?
    ensures Inv(Step(s, message).0)
  {
    var s' := Step(s, message).0;
    match message.body
    case Add(msgId, delta) =>
      IdsAppend(s.messages, [((message.src, msgId), delta)]);
    case Gossip(batch) =>
      MergeKeepsStoreKnown(s.messages, KnownOf(s.known, s.nodeId.value), batch);
    case StartGossip =>
      WithEntriesCreatesOnly(s.known, s.peers);
    case GossipOk(seen) =>
      if s.nodeId.Some? {
        assert KnownOf(s.known, s.nodeId.value) <= KnownOf(s'.known, s.nodeId.value);
      }
    case Read(_) =>
    case AddOk(_) =>
    case ReadOk(_, _) =>
  }

  /** No arm forgets an entry of a known-set, and the store only grows at its
      end: earlier entries are never changed or reordered. */
  lemma StepMonotone<T, V>(s: EngineState<T>, message: Message<Payload<T, V>>)
    requires NeedsNodeId(message.body) ==> s.nodeId.Some?
    ensures var s' := Step(s, message).0;
      && s.known.Keys <= s'.known.Keys
      && (forall p :: p in s.known ==> s.known[p] <= s'.known[p])
      && |s.messages| <= |s'.messages| && s'.messages[..|s.messages|] == s.messages
      && s'.nodeId == s.nodeId && s'.peers == s.peers
  {
    match message.body
    case Add(_, _) =>
      assert (s.messages + [Step(s, message).0.messages[|s.messages|]])[..|s.messages|] == s.messages;
    case Gossip(batch) =>
      MergeSpec(s.messages, KnownOf(s.known, s.nodeId.value), batch);
    case StartGossip =>
      var k := Step(s, message).0.known;
      WithEntriesCreatesOnly(s.known, s.peers);
      forall p | p in s.known ensures s.known[p] <= k[p] {
        assert KnownOf(k, p) == KnownOf(s.known, p);
      }
    case GossipOk(_) =>
    case Read(_) =>
    case AddOk(_) =>
    case ReadOk(_, _) =>
  }

  /** Only `Add` and `Gossip` touch the store. */
  lemma OnlyAddAndGossipStore<T, V>(s: EngineState<T>, message: Message<Payload<T, V>>)
    requires NeedsNodeId(message.body) ==> s.nodeId.Some?
    requires !message.body.Add? && !message.body.Gossip?
    ensures Step(s, message).0.messages == s.messages
  {
  }

  /** A tick changes no known-set and no stored entry, and its only output is
      the per-peer `Gossip` batches. */
  lemma StartGossipSendsOnlyUnsent<T, V>(s: EngineState<T>, message: Message<Payload<T, V>>)
    requires message.body.StartGossip? && s.nodeId.Some?
    ensures var (s', r) := Step(s, message);
      && s'.messages == s.messages
      && (forall p :: KnownOf(s'.known, p) == KnownOf(s.known, p))
      && r.Responses?
      && |r.msgs| <= |s.peers|
      && (forall j :: 0 <= j < |r.msgs| ==>
            && r.msgs[j].src == s.nodeId.value
            && r.msgs[j].body == Gossip(Unsent(s.messages, KnownOf(s.known, r.msgs[j].dest)))
            && r.msgs[j].body.payload != [])
      && IsSubsequence(Dests(r.msgs), s.peers)
  {
    var out := Step(s, message).1.msgs;
    WithEntriesCreatesOnly(s.known, s.peers);
    GossipOutShape<T, V>(s.nodeId.value, s.peers, s.messages, s.known);
    assert forall j :: 0 <= j < |out| ==> IsPendingGossip(out[j], s.nodeId.value, s.peers, s.messages, s.known);
    GossipOutFollowsPeers<T, V>(s.nodeId.value, s.peers, s.messages, s.known);
    SubsequenceLength(Dests(out), s.peers);
  }

  /** With the invariant, a tick never gossips to the node itself, even when
      the topology lists it among its peers. */
  lemma StartGossipNeverToSelf<T, V>(s: EngineState<T>, message: Message<Payload<T, V>>)
    requires Inv(s) && message.body.StartGossip? && s.nodeId.Some?
    ensures var r := Step(s, message).1;
      forall j :: 0 <= j < |r.msgs| ==> r.msgs[j].dest != s.nodeId.value
  {
    UnsentEmptyIffKnown(s.messages, KnownOf(s.known, s.nodeId.value));
    assert Unsent(s.messages, KnownOf(s.known, s.nodeId.value)) == [];
    var out := Step(s, message).1.msgs;
    GossipOutShape<T, V>(s.nodeId.value, s.peers, s.messages, s.known);
    assert forall j :: 0 <= j < |out| ==> IsPendingGossip(out[j], s.nodeId.value, s.peers, s.messages, s.known);
  }

  /** A tick sends a peer one `Gossip` per occurrence in `peers` when some
      stored id is missing from its known-set, and nothing otherwise; in
      particular a peer gets a message exactly when it is a peer and lags. */
  lemma StartGossipReachesEveryLaggingPeer<T, V>(s: EngineState<T>, message: Message<Payload<T, V>>, p: ActorId)
    requires message.body.StartGossip? && s.nodeId.Some?
    ensures var r := Step(s, message).1;
      && multiset(Dests(r.msgs))[p] ==
           (if Ids(s.messages) <= KnownOf(s.known, p) then 0 else multiset(s.peers)[p])
      && (p in Dests(r.msgs) <==> p in s.peers && !(Ids(s.messages) <= KnownOf(s.known, p)))
  {
    var out := Step(s, message).1.msgs;
    UnsentEmptyIffKnown(s.messages, KnownOf(s.known, p));
    GossipOutCounts<T, V>(s.nodeId.value, s.peers, s.messages, s.known, p);
    assert p in Dests(out) <==> multiset(Dests(out))[p] > 0;
    assert p in s.peers <==> multiset(s.peers)[p] > 0;
  }

  /** After `Gossip`, every id of the batch is in the node's known-set; the
      reply is one `gossip_ok` to the sender whose `seen` is that whole,
      post-merge known-set. */
  lemma GossipAcknowledgesAll<T, V>(s: EngineState<T>, message: Message<Payload<T, V>>)
    requires message.body.Gossip? && s.nodeId.Some?
    ensures var (s', r) := Step(s, message);
            var me := s.nodeId.value;
      && Ids(message.body.payload) <= KnownOf(s'.known, me)
      && KnownOf(s'.known, me) == KnownOf(s.known, me) + Ids(message.body.payload)
      && r == Responses([Message(message.dest, message.src, GossipOk(KnownOf(s'.known, me)))])
  {
    MergeSpec(s.messages, KnownOf(s.known, s.nodeId.value), message.body.payload);
  }

  /** `Gossip` appends only entries of the batch whose ids were unknown, each
      such id exactly once. */
  lemma GossipAppendsOnlyUnknown<T, V>(s: EngineState<T>, message: Message<Payload<T, V>>)
    requires message.body.Gossip? && s.nodeId.Some?
    ensures var s' := Step(s, message).0;
      && |s.messages| <= |s'.messages|
      && var added := s'.messages[|s.messages|..];
      && s'.messages == s.messages + added
      && (forall e :: e in added ==> e in message.body.payload && e.0 !in KnownOf(s.known, s.nodeId.value))
      && DistinctIds(added)
      && Ids(added) == Ids(message.body.payload) - KnownOf(s.known, s.nodeId.value)
  {
    var ours := KnownOf(s.known, s.nodeId.value);
    MergeSpec(s.messages, ours, message.body.payload);
    NewEntriesAreUnknown(ours, message.body.payload);
    assert Step(s, message).0.messages[|s.messages|..] == NewEntries(ours, message.body.payload);
  }

  /** Delivering the same `Gossip` twice leaves the node exactly as after the
      first delivery, and it answers the same. */
  lemma GossipIdempotent<T, V>(s: EngineState<T>, message: Message<Payload<T, V>>)
    requires message.body.Gossip? && s.nodeId.Some?
    ensures Step(Step(s, message).0, message) == Step(s, message)
  {
    var me := s.nodeId.value;
    var merged := Merge(s.messages, KnownOf(s.known, me), message.body.payload);
    MergeIdempotent(s.messages, KnownOf(s.known, me), message.body.payload);
    var s1 := Step(s, message).0;
    assert KnownOf(s1.known, me) == merged.1;
    assert s1.known[me := merged.1] == s1.known;
  }

  /** Delivering two `Gossip` payloads in either order yields the same
      known-sets and the same stored ids; when no id carries two values
      across the payloads, the stores hold the same entries. */
  lemma GossipCommutes<T, V>(s: EngineState<T>, m1: Message<Payload<T, V>>, m2: Message<Payload<T, V>>)
    requires m1.body.Gossip? && m2.body.Gossip? && s.nodeId.Some?
    ensures var s12 := Step(Step(s, m1).0, m2).0;
            var s21 := Step(Step(s, m2).0, m1).0;
      && s12.known == s21.known && Ids(s12.messages) == Ids(s21.messages)
      && (OneValuePerId(m1.body.payload + m2.body.payload) ==> multiset(s12.messages) == multiset(s21.messages))
  {
    MergeCommutes(s.messages, KnownOf(s.known, s.nodeId.value), m1.body.payload, m2.body.payload);
  }

  /** `gossip_ok` unions the reported set into the sender's known-set, sends
      nothing and leaves the store alone. */
  lemma GossipOkRecordsSeen<T, V>(s: EngineState<T>, message: Message<Payload<T, V>>)
    requires message.body.GossipOk?
    ensures var (s', r) := Step(s, message);
      && KnownOf(s'.known, message.src) == KnownOf(s.known, message.src) + message.body.seen
      && (forall p :: p != message.src ==> KnownOf(s'.known, p) == KnownOf(s.known, p))
      && s'.messages == s.messages
      && r == Responses([])
  {
  }

  /** `Read`, `AddOk` and `ReadOk` change nothing; a read is handed back to
      the actor, the two acknowledgements produce no output. */
  lemma PassiveArmsChangeNothing<T, V>(s: EngineState<T>, message: Message<Payload<T, V>>)
    requires message.body.Read? || message.body.AddOk? || message.body.ReadOk?
    ensures var (s', r) := Step(s, message);
      && s' == s
      && (message.body.Read? ==> r == ReadRequest(message.body.msgId))
      && (!message.body.Read? ==> r == Responses([]))
  {
  }

  /** One step of `GossipOut` along `peers`, from position `i`. */
  lemma GossipOutUnfold<T, V>(me: ActorId, peers: seq<ActorId>, i: nat, messages: seq<Entry<T>>, known: KnownSets)
    requires i < |peers|
    ensures var pending := Unsent(messages, KnownOf(known, peers[i]));
            var rest := GossipOut<T, V>(me, peers[i + 1..], messages, known);
      GossipOut<T, V>(me, peers[i..], messages, known) ==
        if pending != [] then [Message(me, peers[i], Gossip(pending))] + rest else rest
  {
    assert peers[i..][0] == peers[i] && peers[i..][1..] == peers[i + 1..];
  }

  /** The loop invariant of `GossipRound` after the first `i` peers: the
      remaining peers will create the remaining entries, no known-set has
      changed, and `out` followed by the remaining gossip is the whole tick. */
  ghost predicate RoundInv<T, V>(me: ActorId, peers: seq<ActorId>, messages: seq<Entry<T>>, known: KnownSets,
                                 i: nat, known': KnownSets, out: seq<Message<Payload<T, V>>>)
  {
    && i <= |peers|
    && WithEntries(known', peers[i..]) == WithEntries(known, peers)
    && (forall p :: KnownOf(known', p) == KnownOf(known, p))
    && out + GossipOut(me, peers[i..], messages, known) == GossipOut(me, peers, messages, known)
  }

  /** One iteration of `GossipRound` keeps `RoundInv`. */
  lemma RoundStep<T, V>(me: ActorId, peers: seq<ActorId>, messages: seq<Entry<T>>, known: KnownSets,
                        i: nat, known': KnownSets, out: seq<Message<Payload<T, V>>>)
    requires i < |peers| && RoundInv(me, peers, messages, known, i, known', out)
    ensures var peer := peers[i];
            var created := if peer in known' then known' else known'[peer := {}];
            var pending := Unsent(messages, KnownOf(created, peer));
            var out' := if pending != [] then out + [Message(me, peer, Gossip(pending))] else out;
      RoundInv(me, peers, messages, known, i + 1, created, out')
  {
    var peer := peers[i];
    var created := if peer in known' then known' else known'[peer := {}];
    var pending := Unsent(messages, KnownOf(created, peer));
    assert peers[i..][0] == peer && peers[i..][1..] == peers[i + 1..];
    assert KnownOf(created, peer) == KnownOf(known, peer);
    GossipOutUnfold<T, V>(me, peers, i, messages, known);
    var rest := GossipOut<T, V>(me, peers[i + 1..], messages, known);
    if pending != [] {
      var m := Message(me, peer, Gossip(pending));
      assert out + [m] + rest == out + ([m] + rest);
    }
  }

  /** The loop of the `StartGossip` arm over `peers`: it collects one `Gossip`
      per peer with something unsent and creates an empty known-set entry
      for each peer that has none. */
  method GossipRound<T, V>(me: ActorId, peers: seq<ActorId>, messages: seq<Entry<T>>, known: KnownSets)
    returns (out: seq<Message<Payload<T, V>>>, known': KnownSets)
    ensures out == GossipOut(me, peers, messages, known)
    ensures known' == WithEntries(known, peers)
  {
    known' := known;
    out := [];
    var i := 0;
    while i < |peers|
      invariant RoundInv(me, peers, messages, known, i, known', out)
    {
      RoundStep(me, peers, messages, known, i, known', out);
      var peer := peers[i];
      if peer !in known' {
        known' := known'[peer := {}];
      }
      var pending := Unsent(messages, KnownOf(known', peer));
      if pending != [] {
        out := out + [Message(me, peer, Gossip(pending))];
      }
      i := i + 1;
    }
    assert peers[i..] == [];
  }

  // ---------------------------------------------------------------------
  // The engine object

  /** `CrdtBase<T>`: the engine's mutable fields. */
  class CrdtBase<T> {
    var nodeId: Option<ActorId>
    var peers: seq<ActorId>
    var messages: seq<Entry<T>>
    var known: KnownSets

    function State(): EngineState<T>
      reads this
    {
      EngineState(nodeId, peers, messages, known)
    }

    ghost predicate Valid()
      reads this
    {
      Inv(State())
    }

    /** `Default::default()`: no identity, no peers, nothing stored. */
    constructor ()
      ensures State() == EngineState(None, [], [], map[])
      ensures Valid()
    {
      nodeId := None;
      peers := [];
      messages := [];
      known := map[];
    }

    /** The `Gossip` arm's loop: append each entry of `batch` whose id the
        node does not know yet, and return the node's known-set afterwards. */
    method MergeBatch(batch: seq<Entry<T>>) returns (ours: set<UniqueMessageId>)
      requires nodeId.Some?
      modifies this
      ensures nodeId == old(nodeId) && peers == old(peers)
      ensures (messages, ours) == Merge(old(messages), KnownOf(old(known), nodeId.value), batch)
      ensures known == old(known)[nodeId.value := ours]
    {
      var me := nodeId.value;
      ours := KnownOf(known, me);
      var j := 0;
      while j < |batch|
        invariant 0 <= j <= |batch|
        invariant nodeId == old(nodeId) && peers == old(peers) && known == old(known)
        invariant Merge(messages, ours, batch[j..]) == Merge(old(messages), KnownOf(old(known), me), batch)
      {
        var (id, value) := batch[j];
        assert batch[j..][0] == (id, value) && batch[j..][1..] == batch[j + 1..];
        if id !in ours {
          assert Merge(messages, ours, batch[j..]) == Merge(messages + [(id, value)], ours + {id}, batch[j + 1..]);
          messages := messages + [(id, value)];
          ours := ours + {id};
        } else {
          assert Merge(messages, ours, batch[j..]) == Merge(messages, ours, batch[j + 1..]);
        }
        j := j + 1;
      }
      known := known[me := ours];
    }

    /** `process_crdt_payload`: one state transition and its response. */
    method ProcessCrdtPayload<V>(message: Message<Payload<T, V>>) returns (r: CrdtMessageResponse<T, V>)
      requires Valid()
      requires NeedsNodeId(message.body) ==> nodeId.Some?
      modifies this
      ensures Valid()
      ensures (State(), r) == Step(old(State()), message)
    {
      ghost var s0 := State();
      match message.body {
        case Add(msgId, delta) =>
          var uniqueId := (message.src, msgId);
          var me := nodeId.value;
          var ourKnown := KnownOf(known, me);
          messages := messages + [(uniqueId, delta)];
          known := known[me := ourKnown + {uniqueId}];
          r := Responses([NewReplyTo(message, AddOk(msgId))]);
        case Read(msgId) =>
          r := ReadRequest(msgId);
        case StartGossip =>
          var out;
          out, known := GossipRound<T, V>(nodeId.value, peers, messages, known);
          r := Responses(out);
        case Gossip(batch) =>
          var ours := MergeBatch(batch);
          r := Responses([NewReplyTo(message, GossipOk(ours))]);
        case GossipOk(seen) =>
          known := known[message.src := KnownOf(known, message.src) + seen];
          r := Responses([]);
        case AddOk(_) =>
          r := Responses([]);
        case ReadOk(_, _) =>
          r := Responses([]);
      }
      StepPreservesInv(s0, message);
    }
  }
}
