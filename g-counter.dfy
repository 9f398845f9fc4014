/** The grow-only counter actor (src/bin/g-counter.rs): the gossip engine
    instantiated with natural-number deltas, answering `read` with the sum
    of every delta the node has stored. */
module GCounter {
  import opened Errors
  import opened Messages
  import opened Crdt
  import opened Sequences

  /** The counter's vocabulary: deltas are numbers, and the JSON value of a
      `read_ok` is represented by the number it carries. */
  type CounterPayload = Payload<nat, nat>

  /** `messages.iter().map(|m| m.1).sum()`. */
  function SumDeltas(entries: seq<Entry<nat>>): (total: nat)
    ensures forall i :: 0 <= i < |entries| ==> entries[i].1 <= total
  {
    if entries == [] then 0 else entries[0].1 + SumDeltas(entries[1..])
  }

  /** Appending entries adds their deltas to the sum. */
  lemma {:induction false} SumDeltasAppend(a: seq<Entry<nat>>, b: seq<Entry<nat>>)
    ensures SumDeltas(a + b) == SumDeltas(a) + SumDeltas(b)
    decreases |a|
  {
    if a != [] {
      assert (a + b)[0] == a[0] && (a + b)[1..] == a[1..] + b;
      SumDeltasAppend(a[1..], b);
      calc {
        SumDeltas(a + b);
        (a + b)[0].1 + SumDeltas((a + b)[1..]);
        a[0].1 + SumDeltas(a[1..] + b);
        a[0].1 + SumDeltas(a[1..]) + SumDeltas(b);
      }
    } else {
      assert a + b == b;
    }
  }

  /** Taking one entry out of the store takes its delta out of the sum. */
  lemma SumDeltasRemove(a: seq<Entry<nat>>, i: nat)
    requires i < |a|
    ensures SumDeltas(a) == a[i].1 + SumDeltas(a[..i] + a[i + 1..])
  {
    var pre, post := a[..i], a[i + 1..];
    assert SumDeltas(a) == SumDeltas(pre) + SumDeltas([a[i]] + post) by {
      assert a == pre + ([a[i]] + post);
      SumDeltasAppend(pre, [a[i]] + post);
    }
    assert SumDeltas([a[i]] + post) == a[i].1 + SumDeltas(post) by {
      assert ([a[i]] + post)[0] == a[i] && ([a[i]] + post)[1..] == post;
    }
    SumDeltasAppend(pre, post);
  }

  /** The sum does not depend on the order of the store: two nodes holding
      the same entries, in whatever order they arrived, read the same value. */
  lemma {:induction false} SumDeltasPermutation(a: seq<Entry<nat>>, b: seq<Entry<nat>>)
    requires multiset(a) == multiset(b)
    ensures SumDeltas(a) == SumDeltas(b)
    decreases |a|
  {
    if a != [] {
      var x := a[0];
      assert x in b by {
        assert x in multiset(a);
      }
      var i :| 0 <= i < |b| && b[i] == x;
      var b' := b[..i] + b[i + 1..];
      assert multiset(a[1..]) == multiset(b') by {
        MultisetRemove(a, 0);
        assert a[..0] + a[1..] == a[1..];
        MultisetRemove(b, i);
      }
      SumDeltasPermutation(a[1..], b');
      SumDeltasRemove(b, i);
    } else {
      assert |multiset(b)| == 0;
    }
  }

  /** `GCounter::receive` as a function of the engine state: non-read
      payloads return the engine's responses; a read is answered with the
      sum of the stored deltas. */
  function CounterStep(s: EngineState<nat>, request: Message<CounterPayload>)
    : (r: (EngineState<nat>, Result<seq<Message<CounterPayload>>, Error>))
    requires NeedsNodeId(request.body) ==> s.nodeId.Some?
    ensures r.1.Ok?
    ensures r.0 == Step(s, request).0
  {
    var step := Step(s, request);
    match step.1
    case Responses(responses) => (step.0, Ok(responses))
    case ReadRequest(readId) => (step.0, Ok([NewReplyTo(request, ReadOk(readId, SumDeltas(step.0.messages)))]))
  }

  /** A `read` is answered by exactly one `read_ok` to the requester, for the
      request's sequence number, carrying the sum of all stored deltas; the
      state is left alone. */
  lemma ReadReturnsSum(s: EngineState<nat>, request: Message<CounterPayload>)
    requires request.body.Read?
    ensures var (s', r) := CounterStep(s, request);
      && s' == s
      && r == Ok([Message(request.dest, request.src, ReadOk(request.body.msgId, SumDeltas(s.messages)))])
  {
  }

  /** Every other payload yields the engine's own responses, unchanged, and
      never an error. */
  lemma OtherPayloadsDelegate(s: EngineState<nat>, request: Message<CounterPayload>)
    requires !request.body.Read?
    requires NeedsNodeId(request.body) ==> s.nodeId.Some?
    ensures var (s', r) := CounterStep(s, request);
      && Step(s, request).1.Responses?
      && s' == Step(s, request).0
      && r == Ok(Step(s, request).1.msgs)
  {
  }

  /** Adds and merged gossip raise the counter by their deltas: after
      `add(3)` from one client and a `gossip` bringing a delta of 4 under
      another id, a node that started empty reads 7. */
  lemma AddThenGossipReadsSeven(
    s: EngineState<nat>, add: Message<CounterPayload>, gossip: Message<CounterPayload>,
    read: Message<CounterPayload>, gossipedId: UniqueMessageId)
    requires s.nodeId.Some? && s.messages == []
    requires add.body.Add? && add.body.delta == 3
    requires gossip.body == Gossip([(gossipedId, 4)])
    requires gossipedId != (add.src, add.body.msgId) && gossipedId !in KnownOf(s.known, s.nodeId.value)
    requires read.body.Read?
    ensures var s1 := CounterStep(s, add).0;
            var s2 := CounterStep(s1, gossip).0;
      CounterStep(s2, read).1 == Ok([Message(read.dest, read.src, ReadOk(read.body.msgId, 7))])
  {
    var s1 := CounterStep(s, add).0;
    var s2 := CounterStep(s1, gossip).0;
    assert s1.messages == [((add.src, add.body.msgId), 3)];
    assert gossipedId !in KnownOf(s1.known, s.nodeId.value);
    MergeSpec(s1.messages, KnownOf(s1.known, s.nodeId.value), [(gossipedId, 4)]);
    assert s2.messages == [((add.src, add.body.msgId), 3), (gossipedId, 4)];
    assert s2.messages[1..] == [(gossipedId, 4)];
    assert SumDeltas(s2.messages) == 3 + 4 + SumDeltas([]);
  }

  /** The counter does not depend on the order in which gossip arrives:
      when no id carries two different deltas across two `gossip` payloads,
      a `read` after delivering them in either order returns the same sum. */
  lemma GossipOrderDoesNotChangeRead(
    s: EngineState<nat>, m1: Message<CounterPayload>, m2: Message<CounterPayload>, read: Message<CounterPayload>)
    requires m1.body.Gossip? && m2.body.Gossip? && s.nodeId.Some?
    requires OneValuePerId(m1.body.payload + m2.body.payload)
    requires read.body.Read?
    ensures var s12 := CounterStep(CounterStep(s, m1).0, m2).0;
            var s21 := CounterStep(CounterStep(s, m2).0, m1).0;
      && SumDeltas(s12.messages) == SumDeltas(s21.messages)
      && CounterStep(s12, read).1 == CounterStep(s21, read).1
  {
    var s12 := CounterStep(CounterStep(s, m1).0, m2).0;
    var s21 := CounterStep(CounterStep(s, m2).0, m1).0;
    GossipCommutes(s, m1, m2);
    SumDeltasPermutation(s12.messages, s21.messages);
    ReadReturnsSum(s12, read);
    ReadReturnsSum(s21, read);
  }

  /** The premise of `GossipOrderDoesNotChangeRead` is needed: if the same
      id arrives with deltas 1 and 2, the one delivered first is kept, so the
      two orders read 1 and 2. */
  lemma ReusedIdMakesOrderVisible(s: EngineState<nat>, m1: Message<CounterPayload>, m2: Message<CounterPayload>)
    requires s.nodeId.Some? && s.messages == [] && s.known == map[]
    requires m1.body == Gossip([(("c", 1), 1)]) && m2.body == Gossip([(("c", 1), 2)])
    ensures SumDeltas(CounterStep(CounterStep(s, m1).0, m2).0.messages) == 1
    ensures SumDeltas(CounterStep(CounterStep(s, m2).0, m1).0.messages) == 2
  {
    var me := s.nodeId.value;
    MergeSpec([], {}, m1.body.payload);
    MergeSpec([], {}, m2.body.payload);
    var s1, s2 := CounterStep(s, m1).0, CounterStep(s, m2).0;
    assert s1.messages == m1.body.payload && KnownOf(s1.known, me) == {("c", 1)};
    assert s2.messages == m2.body.payload && KnownOf(s2.known, me) == {("c", 1)};
    MergeNoopWhenKnown(s1.messages, KnownOf(s1.known, me), m2.body.payload);
    MergeNoopWhenKnown(s2.messages, KnownOf(s2.known, me), m1.body.payload);
  }

  /** `GCounter(CrdtBase<u64>)`. */
  class GCounter {
    const base: CrdtBase<nat>

    ghost predicate Valid()
      reads base
    {
      base.Valid()
    }

    /** `Default::default()`. */
    constructor ()
      ensures fresh(base)
      ensures base.State() == EngineState(None, [], [], map[])
      ensures Valid()
    {
      base := new CrdtBase();
    }

    /** `init`: records the node's identity and its peers. The gossip timer it
        also starts is an input here (`StartGossip`). */
    method Init(nodeId: ActorId, peers: seq<ActorId>) returns (r: Result<(), Error>)
      requires Valid() && base.nodeId.None?
      modifies base
      ensures Valid()
      ensures base.State() == old(base.State()).(nodeId := Some(nodeId), peers := peers)
      ensures r == Ok(())
    {
      base.nodeId := Some(nodeId);
      base.peers := peers;
      r := Ok(());
    }

    /** `receive`: delegate to the engine and answer reads with the sum. */
    method Receive(request: Message<CounterPayload>) returns (r: Result<seq<Message<CounterPayload>>, Error>)
      requires Valid()
      requires NeedsNodeId(request.body) ==> base.nodeId.Some?
      modifies base
      ensures Valid()
      ensures (base.State(), r) == CounterStep(old(base.State()), request)
    {
      var response := base.ProcessCrdtPayload(request);
      match response {
        case Responses(responses) =>
          r := Ok(responses);
        case ReadRequest(readId) =>
          var val := SumDeltas(base.messages);
          r := Ok([NewReplyTo(request, ReadOk(readId, val))]);
      }
    }
  }
}
