/** Two service endpoints, their applications, and a FIFO channel each way. */
module Network {
  import opened Sequences
  import opened Wire
  import opened Router

  datatype Reply<+T> = Reply(requestId: u64, data: T)
  datatype Emitted<+T> = Emitted(streamId: u64, data: T)

  /** An endpoint and the history of its application's calls. */
  datatype Node<In, Out> = Node(
    service: Endpoint<In, Out>,
    submitted: seq<Interaction<Out>>,  // through the handle
    handed: seq<Message<In>>,          // messages returned by next_message
    acceptedRequests: seq<u64>,        // recv_request
    replied: seq<Reply<Out>>,
    acceptedStreams: seq<u64>,         // recv_stream
    emitted: seq<Emitted<Out>>)

  /** Calls of the application, and turns of the service's `select!`. */
  datatype Action<+Out> =
    | SubmitOneshot(message: Out)
    | SubmitRequest(requestId: u64, data: Out)
    | SubmitStream(streamId: u64, data: Out)
    | AcceptRequest(requestId: u64)
    | GiveReply(slot: nat, data: Out)
    | AcceptStream(streamId: u64)
    | Emit(outlet: nat, data: Out)
    | TakeInteraction
    | TakeStreamItem(outlet: nat)
    | TakeResponse(slot: nat)
    | Receive

  /** Actions that serve the peer's requests and streams. */
  predicate ServingAction<T>(act: Action<T>) {
    act.AcceptRequest? || act.GiveReply? || act.AcceptStream? || act.Emit? || act.TakeStreamItem? || act.TakeResponse?
  }

  datatype Acted<In, Out> = Acted(node: Node<In, Out>, sent: seq<Message<Out>>, inbox: seq<Message<In>>)

  function Submit<In, Out>(n: Node<In, Out>, x: Interaction<Out>): Node<In, Out> {
    n.(submitted := n.submitted + [x], service := n.service.(interaction := n.service.interaction + [x]))
  }

  function Took<In, Out>(n: Node<In, Out>, s: Sent<In, Out>, inbox: seq<Message<In>>): Acted<In, Out> {
    Acted(n.(service := s.endpoint), s.out, inbox)
  }

  /** One action of a node whose incoming channel holds `inbox`. Channel ends are named by position of submission. */
  function Act<In, Out>(n: Node<In, Out>, act: Action<Out>, inbox: seq<Message<In>>): Acted<In, Out> {
    match act
    case SubmitOneshot(message) => Acted(Submit(n, AskOneshot(message)), [], inbox)
    case SubmitRequest(id, data) => Acted(Submit(n, AskRequest(id, data, |n.submitted|)), [], inbox)
    case SubmitStream(id, data) => Acted(Submit(n, AskStream(id, data, |n.submitted|)), [], inbox)
    case AcceptRequest(id) =>
      Acted(n.(acceptedRequests := n.acceptedRequests + [id],
               service := n.service.(outgoingResponses := n.service.outgoingResponses + [Slot(id, None)])), [], inbox)
    case GiveReply(i, data) =>
      if i < |n.service.outgoingResponses| && n.service.outgoingResponses[i].reply == None then
        var s := n.service.outgoingResponses[i];
        Acted(n.(replied := n.replied + [Reply(s.requestId, data)],
                 service := n.service.(outgoingResponses := n.service.outgoingResponses[i := s.(reply := Some(data))])),
              [], inbox)
      else Acted(n, [], inbox)
    case AcceptStream(id) =>
      Acted(n.(acceptedStreams := n.acceptedStreams + [id],
               service := n.service.(outgoingStreams := n.service.outgoingStreams + [Outlet(id, [])])), [], inbox)
    case Emit(i, data) =>
      if i < |n.service.outgoingStreams| then
        var o := n.service.outgoingStreams[i];
        var outlets := n.service.outgoingStreams[i := o.(pending := o.pending + [data])];
        Acted(n.(emitted := n.emitted + [Emitted(o.streamId, data)],
                 service := n.service.(outgoingStreams := outlets)),
              [], inbox)
      else Acted(n, [], inbox)
    case TakeInteraction => Took(n, Interact(n.service), inbox)
    case TakeStreamItem(i) => Took(n, PushStream(n.service, i), inbox)
    case TakeResponse(i) => Took(n, PushResponse(n.service, i), inbox)
    case Receive =>
      if inbox == [] then Acted(n, [], inbox)
      else Acted(n.(service := Route(n.service, inbox[0]),
                    handed := if ForApplication(inbox[0]) then n.handed + [inbox[0]] else n.handed),
                 [], inbox[1..])
  }

  // ---------------------------------------------------------------- the turns of one call of next_message

  /** One event of the service's `select!`, as an action of the node. */
  function Turn<In, Out>(n: Node<In, Out>, event: Event<In>): Acted<In, Out> {
    match event
    case Arrived(m) => Act(n, Receive, [m])
    case StreamTurn(i) => Act(n, TakeStreamItem(i), [])
    case ResponseTurn(i) => Act(n, TakeResponse(i), [])
    case InteractionTurn => Act(n, TakeInteraction, [])
    case _ => Acted(n, [], [])
  }

  /** All the events, one after the other, with everything sent. */
  function Turns<In, Out>(n: Node<In, Out>, events: seq<Event<In>>): Acted<In, Out> {
    if events == [] then Acted(n, [], []) else
      var last := |events| - 1;
      var before := Turns(n, events[..last]);
      var t := Turn(before.node, events[last]);
      Acted(t.node, before.sent + t.sent, [])
  }

  /** What the service would return at the i-th event. */
  function ResultAt<In, Out>(n: Node<In, Out>, events: seq<Event<In>>, i: nat): Option<Outcome<In>>
    requires i < |events|
  {
    ResultOf(Turns(n, events[..i]).node.service, events[i])
  }

  // ---------------------------------------------------------------- two nodes

  datatype Net<P, Q> = Net(a: Node<P, Q>, b: Node<Q, P>, ab: seq<Message<Q>>, ba: seq<Message<P>>)

  datatype Step<+P, +Q> = AtA(atA: Action<Q>) | AtB(atB: Action<P>)

  function Next<P, Q>(n: Net<P, Q>, s: Step<P, Q>): Net<P, Q> {
    match s
    case AtA(act) => var r := Act(n.a, act, n.ba); Net(r.node, n.b, n.ab + r.sent, r.inbox)
    case AtB(act) => var r := Act(n.b, act, n.ab); Net(n.a, r.node, r.inbox, n.ba + r.sent)
  }

  function FreshNode<In, Out>(): Node<In, Out> {
    Node(Endpoint([], map[], map[], [], [], [], [], []), [], [], [], [], [], [])
  }

  function Start<P, Q>(): Net<P, Q> {
    Net(FreshNode(), FreshNode(), [], [])
  }

  function After<P, Q>(n: Net<P, Q>, steps: seq<Step<P, Q>>): Net<P, Q>
    decreases |steps|
  {
    if steps == [] then n else After(Next(n, steps[0]), steps[1..])
  }

  // ---------------------------------------------------------------- what belongs to one id

  function RequestIn<T>(id: u64): Message<T> -> seq<T> {
    (m: Message<T>) => if m.Request? && m.requestId == id then [m.data] else []
  }

  function ResponseIn<T>(id: u64): Message<T> -> seq<T> {
    (m: Message<T>) => if m.Response? && m.requestId == id then [m.data] else []
  }

  function OpenIn<T>(id: u64): Message<T> -> seq<T> {
    (m: Message<T>) => if m.OpenStream? && m.streamId == id then [m.data] else []
  }

  function StreamItemIn<T>(id: u64): Message<T> -> seq<T> {
    (m: Message<T>) => if m.StreamMessage? && m.streamId == id then [m.data] else []
  }

  function RequestOf<T>(id: u64): Interaction<T> -> seq<T> {
    (x: Interaction<T>) => if x.AskRequest? && x.requestId == id then [x.data] else []
  }

  function WaiterOf<T>(id: u64): Interaction<T> -> seq<nat> {
    (x: Interaction<T>) => if x.AskRequest? && x.requestId == id then [x.waiter] else []
  }

  function ReceiverOf<T>(id: u64): Interaction<T> -> seq<nat> {
    (x: Interaction<T>) => if x.AskStream? && x.streamId == id then [x.receiver] else []
  }

  function AnswerData<T>(id: u64): Answer<T> -> seq<T> {
    (x: Answer<T>) => if x.requestId == id then [x.data] else []
  }

  function AnswerWaiter<T>(id: u64): Answer<T> -> seq<nat> {
    (x: Answer<T>) => if x.requestId == id then [x.waiter] else []
  }

  function DeliveryData<T>(id: u64): Delivery<T> -> seq<T> {
    (x: Delivery<T>) => if x.streamId == id then [x.data] else []
  }

  function DeliveryReceiver<T>(id: u64): Delivery<T> -> seq<nat> {
    (x: Delivery<T>) => if x.streamId == id then [x.receiver] else []
  }

  function ReplyOf<T>(id: u64): Reply<T> -> seq<T> {
    (x: Reply<T>) => if x.requestId == id then [x.data] else []
  }

  function OpenSlot<T>(id: u64): Slot<T> -> seq<()> {
    (x: Slot<T>) => if x.requestId == id && x.reply.None? then [()] else []
  }

  function FilledSlot<T>(id: u64): Slot<T> -> seq<T> {
    (x: Slot<T>) => if x.requestId == id && x.reply.Some? then [x.reply.value] else []
  }

  function EmittedOn<T>(id: u64): Emitted<T> -> seq<T> {
    (x: Emitted<T>) => if x.streamId == id then [x.data] else []
  }

  function OutletOf<T>(id: u64): Outlet<T> -> seq<()> {
    (x: Outlet<T>) => if x.streamId == id then [()] else []
  }

  function PendingOn<T>(id: u64): Outlet<T> -> seq<T> {
    (x: Outlet<T>) => if x.streamId == id then x.pending else []
  }

  function Same(id: u64): u64 -> seq<()> {
    (x: u64) => if x == id then [()] else []
  }

  /**
   * What applications are expected to do: submit no request under an id that is still outstanding, open no stream
   * under an id used before, and take up only the requests and streams they were handed, each once.
   */
  ghost predicate WellUsed<In, Out>(n: Node<In, Out>, act: Action<Out>) {
    match act
    case SubmitRequest(id, _) => |Flat(WaiterOf(id), n.submitted)| <= |Flat(AnswerWaiter(id), n.service.answered)|
    case SubmitStream(id, _) => Flat(ReceiverOf(id), n.submitted) == []
    case AcceptRequest(id) => |Flat(Same(id), n.acceptedRequests)| < |Flat(RequestIn(id), n.handed)|
    case AcceptStream(id) => |Flat(Same(id), n.acceptedStreams)| < |Flat(OpenIn(id), n.handed)|
    case _ => true
  }
}
