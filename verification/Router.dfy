/** The service router of one endpoint: requests, responses and streams multiplexed by id over one connection. */
module Router {
  import opened Sequences
  import opened Wire

  datatype Message<+T> =
    | Oneshot(message: T)
    | Request(requestId: u64, data: T)
    | Response(requestId: u64, data: T)
    | OpenStream(streamId: u64, data: T)
    | StreamMessage(streamId: u64, data: T)
    | CloseStream(streamId: u64)

  /** What a handle submits; `waiter` and `receiver` name the channel ends that come with it. */
  datatype Interaction<+T> =
    | AskOneshot(message: T)
    | AskRequest(requestId: u64, data: T, waiter: nat)
    | AskStream(streamId: u64, data: T, receiver: nat)

  /** What the peer is told of a submission. */
  function MessageOf<T>(x: Interaction<T>): Message<T> {
    match x
    case AskOneshot(message) => Oneshot(message)
    case AskRequest(id, data, _) => Request(id, data)
    case AskStream(id, data, _) => OpenStream(id, data)
  }

  /** One merged outgoing stream, with the items its sender has put in and nobody has taken out yet. */
  datatype Outlet<+T> = Outlet(streamId: u64, pending: seq<T>)

  /** One response to come: the reply is there once the application has given it. */
  datatype Slot<+T> = Slot(requestId: u64, reply: Option<T>)

  datatype Answer<+T> = Answer(waiter: nat, requestId: u64, data: T)

  datatype Delivery<+T> = Delivery(receiver: nat, streamId: u64, data: T)

  /** The service's fields, followed by what has come out of its channels. */
  datatype Endpoint<In, Out> = Endpoint(
    interaction: seq<Interaction<Out>>,
    incomingResponses: map<u64, nat>,
    incomingStreams: map<u64, nat>,
    outgoingStreams: seq<Outlet<Out>>,
    outgoingResponses: seq<Slot<Out>>,
    answered: seq<Answer<In>>,
    streamed: seq<Delivery<In>>,
    discarded: seq<Message<In>>)

  /** Whether a message is handed to the application instead of being routed. */
  predicate ForApplication<T>(m: Message<T>) {
    m.Oneshot? || m.Request? || m.OpenStream?
  }

  /** Closing a stream that is not registered is an `unwrap` of nothing. */
  predicate Panics<In, Out>(e: Endpoint<In, Out>, m: Message<In>) {
    m.CloseStream? && m.streamId !in e.incomingStreams
  }

  function Route<In, Out>(e: Endpoint<In, Out>, m: Message<In>): Endpoint<In, Out> {
    match m
    case Response(id, data) =>
      if id in e.incomingResponses then
        e.(incomingResponses := e.incomingResponses - {id},
           answered := e.answered + [Answer(e.incomingResponses[id], id, data)])
      else e.(discarded := e.discarded + [m])
    case StreamMessage(id, data) =>
      if id in e.incomingStreams then
        e.(streamed := e.streamed + [Delivery(e.incomingStreams[id], id, data)])
      else e.(discarded := e.discarded + [m])
    case CloseStream(id) => e.(incomingStreams := e.incomingStreams - {id})
    case _ => e
  }

  datatype Sent<In, Out> = Sent(endpoint: Endpoint<In, Out>, out: seq<Message<Out>>)

  /** The next submitted interaction is registered first and sent afterwards. */
  function Interact<In, Out>(e: Endpoint<In, Out>): Sent<In, Out> {
    if e.interaction == [] then Sent(e, []) else
      var rest := e.(interaction := e.interaction[1..]);
      match e.interaction[0]
      case AskOneshot(message) => Sent(rest, [Oneshot(message)])
      case AskRequest(id, data, waiter) =>
        Sent(rest.(incomingResponses := e.incomingResponses[id := waiter]), [Request(id, data)])
      case AskStream(id, data, receiver) =>
        Sent(rest.(incomingStreams := e.incomingStreams[id := receiver]), [OpenStream(id, data)])
  }

  /** The merge of outgoing streams yields the oldest item of any outlet that has one. */
  function PushStream<In, Out>(e: Endpoint<In, Out>, i: nat): Sent<In, Out> {
    if i < |e.outgoingStreams| && e.outgoingStreams[i].pending != [] then
      var o := e.outgoingStreams[i];
      Sent(e.(outgoingStreams := e.outgoingStreams[i := o.(pending := o.pending[1..])]),
           [StreamMessage(o.streamId, o.pending[0])])
    else Sent(e, [])
  }

  /** The merge of outgoing responses yields any reply that is there, and that slot is finished. */
  function PushResponse<In, Out>(e: Endpoint<In, Out>, i: nat): Sent<In, Out> {
    if i < |e.outgoingResponses| && e.outgoingResponses[i].reply.Some? then
      var s := e.outgoingResponses[i];
      Sent(e.(outgoingResponses := e.outgoingResponses[..i] + e.outgoingResponses[i + 1..]),
           [Response(s.requestId, s.reply.value)])
    else Sent(e, [])
  }

  /** What one `select!` of the service resolves to. */
  datatype Event<+In> =
    | Arrived(m: Message<In>)
    | ReaderEnded
    | ReaderFailed
    | StreamTurn(i: nat)
    | ResponseTurn(i: nat)
    | InteractionTurn

  datatype Outcome<+In> = Handed(m: Message<In>) | Ended | Failed | Panicked | Waiting

  /** What `next_message` returns on an event, if it does not go round its loop again. */
  function ResultOf<In, Out>(e: Endpoint<In, Out>, event: Event<In>): Option<Outcome<In>> {
    match event
    case ReaderEnded => Some(Ended)
    case ReaderFailed => Some(Failed)
    case Arrived(m) => if Panics(e, m) then Some(Panicked) else if ForApplication(m) then Some(Handed(m)) else None
    case _ => None
  }
}
