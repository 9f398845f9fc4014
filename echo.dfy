/** The echo actor (src/bin/echo.rs): a stateless request/response mapping. */
module Echo {
  import opened Errors
  import opened Messages

  /** The actor's vocabulary, each variant with its wire `type` string. */
  datatype Payload =
    | Echo(messageType: string, msgId: MessageId, echo: string)
    | EchoAck(messageType: string, inReplyTo: MessageId, echo: string)

  /** `EchoActor`: only the node's identity. */
  class EchoActor {
    var nodeId: Option<ActorId>

    /** `Default::default()`. */
    constructor ()
      ensures nodeId == None
    {
      nodeId := None;
    }

    /** `init`: records the node's identity; the peer list is ignored. */
    method Init(nodeId: ActorId, peers: seq<ActorId>) returns (r: Result<(), Error>)
      modifies this
      ensures this.nodeId == Some(nodeId)
      ensures r == Ok(())
    {
      this.nodeId := Some(nodeId);
      r := Ok(());
    }

    /** `receive`: an `echo` is answered with an `echo_ok` carrying the same
        text; any `EchoAck` is accepted silently, whatever its type string;
        an `Echo` with another type string is not supported. It reads no
        field, so it changes none. */
    function Receive(message: Message<Payload>): (r: Result<seq<Message<Payload>>, Error>)
      ensures r.Err? <==> message.body.Echo? && message.body.messageType != "echo"
      ensures r.Err? ==> r.error == NotSupported
      ensures message.body.EchoAck? ==> r == Ok([])
      ensures message.body.Echo? && message.body.messageType == "echo" ==>
        && r.Ok? && |r.value| == 1
        && r.value[0].src == message.dest && r.value[0].dest == message.src
        && r.value[0].body == EchoAck("echo_ok", message.body.msgId, message.body.echo)
    {
      match message.body
      case Echo(messageType, msgId, echo) =>
        if messageType == "echo" then Ok([NewReplyTo(message, EchoAck("echo_ok", msgId, echo))])
        else Err(NotSupported)
      case EchoAck(_, _, _) =>
        Ok([])
    }
  }

  /** An echo exchange ends after one round: the reply, delivered back to an
      echo actor, produces nothing, and it returns to the requester the text
      it sent, for the request's sequence number. */
  lemma EchoExchangeQuiesces(a: EchoActor, b: EchoActor, request: Message<Payload>)
    requires request.body.Echo? && request.body.messageType == "echo"
    ensures var reply := a.Receive(request).value[0];
      && reply.dest == request.src
      && reply.body.inReplyTo == request.body.msgId
      && reply.body.echo == request.body.echo
      && b.Receive(reply) == Ok([])
  {
  }
}
