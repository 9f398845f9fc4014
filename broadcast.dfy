/** The ack-tracking broadcast actor (src/bin/broadcast.rs), a design of its
    own that does not use the gossip engine. For every broadcast id the node
    records which nodes are known to hold the value; it stores the value the
    first time it marks itself, and forwards it to every peer not yet
    recorded. `Step` specifies `receive`; `BroadcastActor.Receive` is the
    imperative implementation. */
module Broadcast {
  import opened Errors
  import opened Messages
  import opened Sequences

  /** The actor's vocabulary. Each variant carries its wire `type` string,
      which `receive` checks before acting; `J` is an opaque JSON value. */
  datatype Payload<J> =
    | Topology(messageType: string, msgId: MessageId, topology: map<ActorId, seq<ActorId>>)
    | TopologyAck(messageType: string, inReplyTo: MessageId)
    | Broadcast(messageType: string, msgId: MessageId, message: J)
    | BroadcastAck(messageType: string, inReplyTo: MessageId)
    | Read(messageType: string, msgId: MessageId)
    | ReadAck(messageType: string, messages: seq<J>, inReplyTo: MessageId)

  /** The actor's fields as a value. */
  datatype ActorState<J> = ActorState(
    nodeId: Option<ActorId>,
    peers: seq<ActorId>,
    messages: seq<J>,
    acks: map<MessageId, set<ActorId>>)

  /** `acks.entry(id).or_default()` read as a set. */
  function AcksOf(acks: map<MessageId, set<ActorId>>, id: MessageId): set<ActorId>
  {
    if id in acks then acks[id] else {}
  }

  /** The type string each variant must carry to be handled. */
  function ExpectedType<J>(body: Payload<J>): string
  {
    match body
    case Topology(_, _, _) => "topology"
    case TopologyAck(_, _) => "topology_ok"
    case Broadcast(_, _, _) => "broadcast"
    case BroadcastAck(_, _) => "broadcast_ok"
    case Read(_, _) => "read"
    case ReadAck(_, _, _) => "read_ok"
  }

  /** What the `unwrap`s of `receive` demand: a `topology` needs the node's
      identity and an entry for it in the map, a `broadcast` the identity. */
  predicate CanReceive<J>(s: ActorState<J>, body: Payload<J>)
  {
    && (body.Topology? && body.messageType == "topology" ==> s.nodeId.Some? && s.nodeId.value in body.topology)
    && (body.Broadcast? && body.messageType == "broadcast" ==> s.nodeId.Some?)
  }

  /** The forwarded copies of a broadcast: one per peer not in `acked`, in
      `peers` order. */
  function Forwards<J>(me: ActorId, peers: seq<ActorId>, acked: set<ActorId>, msgId: MessageId, value: J)
    : (out: seq<Message<Payload<J>>>)
    ensures forall j :: 0 <= j < |out| ==>
      && out[j].src == me
      && out[j].dest in peers
      && out[j].dest !in acked
      && out[j].body == Broadcast("broadcast", msgId, value)
  {
    if peers == [] then []
    else
      var rest := Forwards(me, peers[1..], acked, msgId, value);
      if peers[0] in acked then rest
      else [Message(me, peers[0], Broadcast("broadcast", msgId, value))] + rest
  }

  /** `receive` as a function of the old state: the new state and the
      outcome. The guard of each arm is its type string; any mismatch falls
      through to `NotSupported` without touching the state. */
  function Step<J>(s: ActorState<J>, message: Message<Payload<J>>)
    : (r: (ActorState<J>, Result<seq<Message<Payload<J>>>, Error>))
    requires CanReceive(s, message.body)
    ensures r.0.nodeId == s.nodeId
    ensures r.1.Err? ==> r.0 == s && r.1.error == NotSupported
  {
    if message.body.messageType != ExpectedType(message.body) then (s, Err(NotSupported))
    else
      match message.body
      case Topology(_, msgId, topology) =>
        (s.(peers := topology[s.nodeId.value]), Ok([NewReplyTo(message, TopologyAck("topology_ok", msgId))]))
      case TopologyAck(_, _) =>
        (s, Ok([]))
      case Broadcast(_, msgId, value) =>
        var me := s.nodeId.value;
        var withSender := AcksOf(s.acks, msgId) + {message.src};
        // `me` ends up in the set either way: it is added when absent.
        var acked := withSender + {me};
        (s.(messages := if me !in withSender then s.messages + [value] else s.messages,
            acks := s.acks[msgId := acked]),
         Ok([NewReplyTo(message, BroadcastAck("broadcast_ok", msgId))] + Forwards(me, s.peers, acked, msgId, value)))
      case BroadcastAck(_, inReplyTo) =>
        (s.(acks := s.acks[inReplyTo := AcksOf(s.acks, inReplyTo) + {message.src}]), Ok([]))
      case Read(_, msgId) =>
        (s, Ok([NewReplyTo(message, ReadAck("read_ok", s.messages, msgId))]))
      case ReadAck(_, _, _) =>
        (s, Ok([]))
  }

  // ---------------------------------------------------------------------
  // Properties of the forwarding list

  /** The forwarded copies keep the order of `peers`. */
  lemma {:induction false} ForwardsFollowPeers<J>(me: ActorId, peers: seq<ActorId>, acked: set<ActorId>, msgId: MessageId, value: J)
    ensures IsSubsequence(Dests(Forwards(me, peers, acked, msgId, value)), peers)
    decreases |peers|
  {
    if peers != [] {
      var out := Forwards(me, peers, acked, msgId, value);
      var rest := Forwards(me, peers[1..], acked, msgId, value);
      ForwardsFollowPeers(me, peers[1..], acked, msgId, value);
      if peers[0] !in acked {
        assert Dests(out)[0] == peers[0];
        assert Dests(out)[1..] == Dests(rest);
      }
    }
  }

  /** A peer gets one copy per occurrence in `peers` unless it is acked, and
      none if it is. */
  lemma {:induction false} ForwardsCounts<J>(me: ActorId, peers: seq<ActorId>, acked: set<ActorId>, msgId: MessageId, value: J, p: ActorId)
    ensures multiset(Dests(Forwards(me, peers, acked, msgId, value)))[p] ==
            (if p in acked then 0 else multiset(peers)[p])
    decreases |peers|
  {
    if peers != [] {
      var q := peers[0];
      var out := Forwards(me, peers, acked, msgId, value);
      var rest := Forwards(me, peers[1..], acked, msgId, value);
      ForwardsCounts(me, peers[1..], acked, msgId, value, p);
      assert multiset(peers) == multiset{q} + multiset(peers[1..]) by {
        assert peers == [q] + peers[1..];
      }
      if q !in acked {
        assert Dests(out) == [q] + Dests(rest);
        assert multiset(Dests(out)) == multiset{q} + multiset(Dests(rest));
      }
    }
  }

  // ---------------------------------------------------------------------
  // Properties of `receive`, arm by arm

  /** `topology` adopts the node's own neighbour list and acknowledges with a
      `topology_ok` to the sender; nothing else changes. */
  lemma TopologySetsPeers<J>(s: ActorState<J>, message: Message<Payload<J>>)
    requires message.body.Topology? && message.body.messageType == "topology"
    requires CanReceive(s, message.body)
    ensures var (s', r) := Step(s, message);
      && s' == s.(peers := message.body.topology[s.nodeId.value])
      && r == Ok([Message(message.dest, message.src, TopologyAck("topology_ok", message.body.msgId))])
  {
  }

  /** `broadcast` records its sender and the node itself as holding the value;
      every other id's ack set is untouched. */
  lemma BroadcastRecordsAcks<J>(s: ActorState<J>, message: Message<Payload<J>>)
    requires message.body.Broadcast? && message.body.messageType == "broadcast" && s.nodeId.Some?
    ensures var s' := Step(s, message).0;
            var id := message.body.msgId;
      && AcksOf(s'.acks, id) == AcksOf(s.acks, id) + {message.src, s.nodeId.value}
      && (forall other :: other != id ==> AcksOf(s'.acks, other) == AcksOf(s.acks, other))
      && s'.peers == s.peers && s'.nodeId == s.nodeId
  {
  }

  /** The sender is recorded before the node checks for itself, so the value
      is stored exactly when the node was not yet recorded for that id and is
      not the sender; a node never stores a broadcast it sent to itself. */
  lemma BroadcastStoresFirstCopyOnly<J>(s: ActorState<J>, message: Message<Payload<J>>)
    requires message.body.Broadcast? && message.body.messageType == "broadcast" && s.nodeId.Some?
    ensures var s' := Step(s, message).0;
            var me := s.nodeId.value;
      && (me !in AcksOf(s.acks, message.body.msgId) && message.src != me ==>
            s'.messages == s.messages + [message.body.message])
      && (me in AcksOf(s.acks, message.body.msgId) || message.src == me ==> s'.messages == s.messages)
  {
  }

  /** Once a broadcast id has been handled, the next broadcast of that id,
      from any sender, stores nothing. */
  lemma BroadcastStoresOnce<J>(s: ActorState<J>, m1: Message<Payload<J>>, m2: Message<Payload<J>>)
    requires m1.body.Broadcast? && m1.body.messageType == "broadcast" && s.nodeId.Some?
    requires m2.body.Broadcast? && m2.body.msgId == m1.body.msgId
    ensures var s1 := Step(s, m1).0;
      Step(s1, m2).0.messages == s1.messages
  {
    var s1 := Step(s, m1).0;
    assert s.nodeId.value in AcksOf(s1.acks, m1.body.msgId);
  }

  /** The output of `broadcast`: first the `broadcast_ok` to the sender, then
      one copy for every peer not recorded for the id, in peer order. The
      sender and the node itself are never forwarded to. */
  lemma BroadcastForwardsToUnacked<J>(s: ActorState<J>, message: Message<Payload<J>>, p: ActorId)
    requires message.body.Broadcast? && message.body.messageType == "broadcast" && s.nodeId.Some?
    ensures var (s', r) := Step(s, message);
            var id := message.body.msgId;
            var acked := AcksOf(s'.acks, id);
      && r.Ok? && |r.value| >= 1
      && r.value[0] == Message(message.dest, message.src, BroadcastAck("broadcast_ok", id))
      && (forall j :: 1 <= j < |r.value| ==>
            && r.value[j].src == s.nodeId.value
            && r.value[j].dest !in acked
            && r.value[j].body == Broadcast("broadcast", id, message.body.message))
      && IsSubsequence(Dests(r.value[1..]), s.peers)
      && multiset(Dests(r.value[1..]))[p] == (if p in acked then 0 else multiset(s.peers)[p])
      && (forall j :: 1 <= j < |r.value| ==> r.value[j].dest != message.src && r.value[j].dest != s.nodeId.value)
  {
    var (s', r) := Step(s, message);
    var id := message.body.msgId;
    var acked := AcksOf(s'.acks, id);
    var fwd := Forwards(s.nodeId.value, s.peers, acked, id, message.body.message);
    assert r.value[1..] == fwd;
    ForwardsFollowPeers(s.nodeId.value, s.peers, acked, id, message.body.message);
    ForwardsCounts(s.nodeId.value, s.peers, acked, id, message.body.message, p);
  }

  /** `broadcast_ok` records its sender for the acknowledged id and does
      nothing else. */
  lemma BroadcastOkRecordsAck<J>(s: ActorState<J>, message: Message<Payload<J>>)
    requires message.body.BroadcastAck? && message.body.messageType == "broadcast_ok"
    ensures var (s', r) := Step(s, message);
      && AcksOf(s'.acks, message.body.inReplyTo) == AcksOf(s.acks, message.body.inReplyTo) + {message.src}
      && (forall other :: other != message.body.inReplyTo ==> AcksOf(s'.acks, other) == AcksOf(s.acks, other))
      && s'.messages == s.messages && s'.peers == s.peers && s'.nodeId == s.nodeId
      && r == Ok([])
  {
  }

  /** `read` answers with every stored value, in arrival order, and changes
      nothing. */
  lemma ReadReturnsStore<J>(s: ActorState<J>, message: Message<Payload<J>>)
    requires message.body.Read? && message.body.messageType == "read"
    ensures var (s', r) := Step(s, message);
      && s' == s
      && r == Ok([Message(message.dest, message.src, ReadAck("read_ok", s.messages, message.body.msgId))])
  {
  }

  /** The two acknowledgements the node may receive from the harness,
      `topology_ok` and `read_ok`, are accepted silently. */
  lemma AcksFromHarnessAreSilent<J>(s: ActorState<J>, message: Message<Payload<J>>)
    requires (message.body.TopologyAck? && message.body.messageType == "topology_ok")
          || (message.body.ReadAck? && message.body.messageType == "read_ok")
    ensures Step(s, message) == (s, Ok([]))
  {
  }

  /** `receive` fails exactly when the type string does not match the
      variant, and then with `NotSupported` and no change of state. */
  lemma MismatchedTypeNotSupported<J>(s: ActorState<J>, message: Message<Payload<J>>)
    requires CanReceive(s, message.body)
    ensures var (s', r) := Step(s, message);
      && (r.Err? <==> message.body.messageType != ExpectedType(message.body))
      && (r.Err? ==> r.error == NotSupported && s' == s)
  {
  }

  /** No arm removes a node from any ack set, only `broadcast` touches the
      store (by appending), and only `topology` the peers. */
  lemma AcksOnlyGrow<J>(s: ActorState<J>, message: Message<Payload<J>>)
    requires CanReceive(s, message.body)
    ensures var s' := Step(s, message).0;
      && s.acks.Keys <= s'.acks.Keys
      && (forall id :: id in s.acks ==> s.acks[id] <= s'.acks[id])
      && |s.messages| <= |s'.messages| && s'.messages[..|s.messages|] == s.messages
      && s'.nodeId == s.nodeId
      && (!message.body.Topology? ==> s'.peers == s.peers)
  {
    var s' := Step(s, message).0;
    if message.body.Broadcast? && message.body.messageType == "broadcast" {
      assert s'.messages == s.messages || s'.messages == s.messages + [message.body.message];
    }
  }

  // ---------------------------------------------------------------------
  // Runs of several messages

  /** Each message of `ms`, delivered in turn from `s`, satisfies the
      `unwrap`s of `receive`. */
  ghost predicate Runnable<J>(s: ActorState<J>, ms: seq<Message<Payload<J>>>)
    decreases |ms|
  {
    ms == [] || (CanReceive(s, ms[0].body) && Runnable(Step(s, ms[0]).0, ms[1..]))
  }

  /** The state after delivering `ms` in turn. */
  ghost function Run<J>(s: ActorState<J>, ms: seq<Message<Payload<J>>>): ActorState<J>
    requires Runnable(s, ms)
    decreases |ms|
  {
    if ms == [] then s else Run(Step(s, ms[0]).0, ms[1..])
  }

  /** Once the node is recorded for an id, it stays recorded through any run,
      and its identity does not change. */
  lemma {:induction false} RecordedStaysRecorded<J>(s: ActorState<J>, ms: seq<Message<Payload<J>>>, id: MessageId)
    requires Runnable(s, ms) && s.nodeId.Some? && s.nodeId.value in AcksOf(s.acks, id)
    ensures Run(s, ms).nodeId == s.nodeId && s.nodeId.value in AcksOf(Run(s, ms).acks, id)
    decreases |ms|
  {
    if ms != [] {
      var s1 := Step(s, ms[0]).0;
      AcksOnlyGrow(s, ms[0]);
      assert s.nodeId.value in AcksOf(s1.acks, id);
      RecordedStaysRecorded(s1, ms[1..], id);
    }
  }

  /** Once a broadcast id has been handled, no later broadcast of that id,
      after any run of messages and from any sender, stores anything. */
  lemma BroadcastStoresOnceEver<J>(s: ActorState<J>, m1: Message<Payload<J>>, ms: seq<Message<Payload<J>>>,
                                   m2: Message<Payload<J>>)
    requires m1.body.Broadcast? && m1.body.messageType == "broadcast" && s.nodeId.Some?
    requires Runnable(Step(s, m1).0, ms)
    requires m2.body.Broadcast? && m2.body.msgId == m1.body.msgId
    ensures var t := Run(Step(s, m1).0, ms);
      && t.nodeId == s.nodeId
      && Step(t, m2).0.messages == t.messages
  {
    var s1 := Step(s, m1).0;
    assert s.nodeId.value in AcksOf(s1.acks, m1.body.msgId);
    RecordedStaysRecorded(s1, ms, m1.body.msgId);
  }

  // ---------------------------------------------------------------------
  // The actor object

  /** `BroadcastActor`: the actor's mutable fields. */
  class BroadcastActor<J> {
    var nodeId: Option<ActorId>
    var peers: seq<ActorId>
    var messages: seq<J>
    var acks: map<MessageId, set<ActorId>>

    function State(): ActorState<J>
      reads this
    {
      ActorState(nodeId, peers, messages, acks)
    }

    /** `Default::default()`. */
    constructor ()
      ensures State() == ActorState(None, [], [], map[])
    {
      nodeId := None;
      peers := [];
      messages := [];
      acks := map[];
    }

    /** `init`: records the node's identity only; the peer list it is given
        is ignored (peers come from `topology`). */
    method Init(nodeId: ActorId, nodeIds: seq<ActorId>) returns (r: Result<(), Error>)
      modifies this
      ensures State() == old(State()).(nodeId := Some(nodeId))
      ensures r == Ok(())
    {
      this.nodeId := Some(nodeId);
      r := Ok(());
    }

    /** `receive`: handle one message. */
    method Receive(message: Message<Payload<J>>) returns (r: Result<seq<Message<Payload<J>>>, Error>)
      requires CanReceive(State(), message.body)
      modifies this
      ensures (State(), r) == Step(old(State()), message)
    {
      ghost var s0 := State();
      match message.body {
        case Topology(messageType, msgId, topology) =>
          if messageType == "topology" {
            peers := topology[nodeId.value];
            r := Ok([NewReplyTo(message, TopologyAck("topology_ok", msgId))]);
          } else {
            r := Err(NotSupported);
          }
        case TopologyAck(messageType, _) =>
          r := if messageType == "topology_ok" then Ok([]) else Err(NotSupported);
        case Broadcast(messageType, msgId, payload) =>
          if messageType == "broadcast" {
            var ackSet := AcksOf(acks, msgId) + {message.src};
            acks := acks[msgId := ackSet];
            var me := nodeId.value;
            if me !in ackSet {
              messages := messages + [payload];
              ackSet := ackSet + {me};
              acks := acks[msgId := ackSet];
            } else {
              assert ackSet + {me} == ackSet;
            }
            var responses := [NewReplyTo(message, BroadcastAck("broadcast_ok", msgId))];
            responses := responses + Forwards(me, peers, ackSet, msgId, payload);
            r := Ok(responses);
            ghost var acked := AcksOf(s0.acks, msgId) + {message.src} + {me};
            assert ackSet == acked;
            assert acks == s0.acks[msgId := acked];
            assert messages == if me !in AcksOf(s0.acks, msgId) + {message.src} then s0.messages + [payload] else s0.messages;
            assert r == Step(s0, message).1;
          } else {
            r := Err(NotSupported);
          }
        case BroadcastAck(messageType, inReplyTo) =>
          if messageType == "broadcast_ok" {
            acks := acks[inReplyTo := AcksOf(acks, inReplyTo) + {message.src}];
            r := Ok([]);
          } else {
            r := Err(NotSupported);
          }
        case Read(messageType, msgId) =>
          if messageType == "read" {
            r := Ok([NewReplyTo(message, ReadAck("read_ok", messages, msgId))]);
          } else {
            r := Err(NotSupported);
          }
        case ReadAck(messageType, _, _) =>
          r := if messageType == "read_ok" then Ok([]) else Err(NotSupported);
      }
    }
  }
}
