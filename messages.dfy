/** The message envelope exchanged between nodes, and the reply helper
    every actor uses to answer a request (src/message.rs). */
module Messages {

  /** A node identifier (src/actor.rs `ActorID`). */
  type ActorId = string

  /** A message sequence number; a `u64` in the source, unique only on the
      node that issued it. */
  type MessageId = n: nat | n < 0x1_0000_0000_0000_0000

  /** An envelope: who sent it, who it is for, and its body. */
  datatype Message<+T> = Message(src: ActorId, dest: ActorId, body: T)

  /** The reply to `msg` carrying `body`: it travels back from the request's
      destination to the request's source. */
  function NewReplyTo<T, U>(msg: Message<T>, body: U): (reply: Message<U>)
    ensures reply.src == msg.dest
    ensures reply.dest == msg.src
    ensures reply.body == body
  {
    Message(msg.dest, msg.src, body)
  }

  /** Replying to a reply restores the original sender and receiver. */
  lemma ReplyToReplyRestoresEndpoints<T, U, W>(msg: Message<T>, b: U, c: W)
    ensures NewReplyTo(NewReplyTo(msg, b), c).src == msg.src
    ensures NewReplyTo(NewReplyTo(msg, b), c).dest == msg.dest
    ensures NewReplyTo(NewReplyTo(msg, b), c) == Message(msg.src, msg.dest, c)
  {
  }

  /** The destinations of a list of outbound envelopes, in order. */
  function Dests<T>(ms: seq<Message<T>>): (ds: seq<ActorId>)
    ensures |ds| == |ms|
    ensures forall j :: 0 <= j < |ms| ==> ds[j] == ms[j].dest
  {
    if ms == [] then [] else [ms[0].dest] + Dests(ms[1..])
  }
}
