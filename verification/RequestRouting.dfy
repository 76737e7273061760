/** The requests with one id, submitted by a client node and answered by a server node. */
module RequestRouting {
  import opened Sequences
  import opened Wire
  import opened Router
  import opened Network

  /** Everything about one request id that is somewhere between the two applications. */
  datatype Requests<P, Q> = Requests(
    asked: seq<Q>, waiters: seq<nat>,           // submitted at the client, and their waiters
    queued: seq<Q>, queuedWaiters: seq<nat>,    // in the interaction queue
    outgoing: seq<Q>,                           // in the channel to the server
    handed: seq<Q>, accepted: nat,              // handed to the server's application, and taken up by it
    open: nat, filled: seq<P>, replied: seq<P>, // slots without and with a reply, and the replies given
    returning: seq<P>,                          // in the channel back
    answered: seq<P>, answeredWaiters: seq<nat>)

  function RequestsOf<P, Q>(client: Node<P, Q>, server: Node<Q, P>, to: seq<Message<Q>>, back: seq<Message<P>>, id: u64)
    : Requests<P, Q>
  {
    Requests(
      Flat(RequestOf(id), client.submitted), Flat(WaiterOf(id), client.submitted),
      Flat(RequestOf(id), client.service.interaction), Flat(WaiterOf(id), client.service.interaction),
      Flat(RequestIn(id), to),
      Flat(RequestIn(id), server.handed), |Flat(Same(id), server.acceptedRequests)|,
      |Flat(OpenSlot(id), server.service.outgoingResponses)|, Flat(FilledSlot(id), server.service.outgoingResponses),
      Flat(ReplyOf(id), server.replied),
      Flat(ResponseIn(id), back),
      Flat(AnswerData(id), client.service.answered), Flat(AnswerWaiter(id), client.service.answered))
  }

  /** How many requests with this id have been submitted and not answered. */
  function Outstanding<P, Q>(r: Requests<P, Q>): int {
    |r.waiters| - |r.answeredWaiters|
  }

  /** Requests reach the server's application in order, responses the client's waiters in order, one at a time. */
  ghost predicate InOrder<P, Q>(r: Requests<P, Q>) {
    && r.handed + r.outgoing + r.queued == r.asked
    && r.answered + r.returning + r.filled == r.replied
    && r.accepted <= |r.handed| && r.accepted == |r.replied| + r.open
    && |r.waiters| == |r.asked| && |r.queuedWaiters| == |r.queued| && |r.answeredWaiters| == |r.answered|
    && Outstanding(r) <= 1
    && r.answeredWaiters <= r.waiters
    && (r.queuedWaiters != [] ==> r.queuedWaiters[0] == r.waiters[|r.waiters| - 1])
  }

  /** The waiter is registered exactly from sending the request to routing its response. */
  ghost predicate Registered<P, Q>(r: Requests<P, Q>, registered: map<u64, nat>, id: u64) {
    && (id in registered <==> Outstanding(r) == 1 && r.queued == [])
    && (id in registered ==> |r.waiters| > 0 && registered[id] == r.waiters[|r.waiters| - 1])
  }

  ghost predicate Routed<P, Q>(r: Requests<P, Q>, registered: map<u64, nat>, id: u64) {
    InOrder(r) && Registered(r, registered, id)
  }

  ghost predicate RequestInv<P, Q>(client: Node<P, Q>, server: Node<Q, P>, to: seq<Message<Q>>,
                                   back: seq<Message<P>>, id: u64) {
    Routed(RequestsOf(client, server, to, back, id), client.service.incomingResponses, id)
  }

  /**
   * The k-th request handed to the server's application is the k-th one submitted; the k-th answer carries the k-th
   * reply and goes to the waiter of the k-th request. At most one request is outstanding, it is in exactly one place,
   * and its waiter is registered exactly while it is past the interaction queue.
   */
  ghost predicate Matched<P, Q>(r: Requests<P, Q>, registered: map<u64, nat>, id: u64) {
    var outstanding := |r.asked| - |r.answered|;
    && r.handed <= r.asked && r.answered <= r.replied && r.answeredWaiters <= r.waiters
    && |r.answered| == |r.answeredWaiters| && |r.asked| == |r.waiters|
    && 0 <= outstanding <= 1 && r.accepted <= |r.handed|
    && |r.queued| + |r.outgoing| + (|r.handed| - r.accepted) + r.open + |r.filled| + |r.returning| == outstanding
    && (id in registered <==> outstanding == 1 && r.queued == [])
    && (id in registered ==> registered[id] == r.waiters[|r.answered|])
  }

  lemma RoutedMatches<P, Q>(r: Requests<P, Q>, registered: map<u64, nat>, id: u64)
    requires Routed(r, registered, id)
    ensures Matched(r, registered, id)
  {
  }

  // ---------------------------------------------------------------- the journey of a request, step by step

  function Asked<P, Q>(r: Requests<P, Q>, data: Q, waiter: nat): Requests<P, Q> {
    r.(asked := r.asked + [data], waiters := r.waiters + [waiter],
       queued := r.queued + [data], queuedWaiters := r.queuedWaiters + [waiter])
  }

  lemma AskedRouted<P, Q>(r: Requests<P, Q>, registered: map<u64, nat>, id: u64, data: Q, waiter: nat)
    requires Routed(r, registered, id) && Outstanding(r) <= 0
    ensures Routed(Asked(r, data, waiter), registered, id)
  {
  }

  function Left<P, Q>(r: Requests<P, Q>): Requests<P, Q>
    requires r.queued != [] && r.queuedWaiters != []
  {
    r.(queued := r.queued[1..], queuedWaiters := r.queuedWaiters[1..], outgoing := r.outgoing + [r.queued[0]])
  }

  lemma LeftRouted<P, Q>(r: Requests<P, Q>, registered: map<u64, nat>, id: u64)
    requires Routed(r, registered, id) && r.queued != []
    ensures Routed(Left(r), registered[id := r.queuedWaiters[0]], id)
  {
  }

  function Arrived<P, Q>(r: Requests<P, Q>): Requests<P, Q>
    requires r.outgoing != []
  {
    r.(outgoing := r.outgoing[1..], handed := r.handed + [r.outgoing[0]])
  }

  lemma ArrivedRouted<P, Q>(r: Requests<P, Q>, registered: map<u64, nat>, id: u64)
    requires Routed(r, registered, id) && r.outgoing != []
    ensures Routed(Arrived(r), registered, id)
  {
  }

  function TakenUp<P, Q>(r: Requests<P, Q>): Requests<P, Q> {
    r.(accepted := r.accepted + 1, open := r.open + 1)
  }

  function GivenReply<P, Q>(r: Requests<P, Q>, data: P): Requests<P, Q>
    requires r.open > 0
  {
    r.(open := r.open - 1, filled := r.filled + [data], replied := r.replied + [data])
  }

  lemma GivenReplyRouted<P, Q>(r: Requests<P, Q>, registered: map<u64, nat>, id: u64, data: P)
    requires Routed(r, registered, id) && r.open > 0
    ensures r.filled == []
    ensures Routed(GivenReply(r, data), registered, id)
  {
  }

  function SentBack<P, Q>(r: Requests<P, Q>): Requests<P, Q>
    requires r.filled != []
  {
    r.(filled := r.filled[1..], returning := r.returning + [r.filled[0]])
  }

  lemma SentBackRouted<P, Q>(r: Requests<P, Q>, registered: map<u64, nat>, id: u64)
    requires Routed(r, registered, id) && r.filled != []
    ensures |r.filled| == 1
    ensures Routed(SentBack(r), registered, id)
  {
  }

  function Delivered<P, Q>(r: Requests<P, Q>, waiter: nat): Requests<P, Q>
    requires r.returning != []
  {
    r.(returning := r.returning[1..], answered := r.answered + [r.returning[0]],
       answeredWaiters := r.answeredWaiters + [waiter])
  }

  lemma DeliveredRouted<P, Q>(r: Requests<P, Q>, registered: map<u64, nat>, id: u64)
    requires Routed(r, registered, id) && r.returning != []
    ensures id in registered
    ensures Routed(Delivered(r, registered[id]), registered - {id}, id)
  {
  }

  // ---------------------------------------------------------------- what each action does to one id

  lemma SubmitEffect<P, Q>(client: Node<P, Q>, server: Node<Q, P>, to: seq<Message<Q>>, back: seq<Message<P>>,
                           id: u64, x: Interaction<Q>)
    ensures var r := RequestsOf(client, server, to, back, id);
            RequestsOf(Submit(client, x), server, to, back, id) ==
            if x.AskRequest? && x.requestId == id then Asked(r, x.data, x.waiter) else r
  {
    hide Flat;
    FlatSnoc(RequestOf(id), client.submitted, x);
    FlatSnoc(WaiterOf(id), client.submitted, x);
    FlatSnoc(RequestOf(id), client.service.interaction, x);
    FlatSnoc(WaiterOf(id), client.service.interaction, x);
  }

  lemma InteractEffect<P, Q>(client: Node<P, Q>, server: Node<Q, P>, to: seq<Message<Q>>, back: seq<Message<P>>,
                             id: u64)
    requires client.service.interaction != []
    ensures var t, x := Interact(client.service), client.service.interaction[0];
            var r := RequestsOf(client, server, to, back, id);
            var n := RequestsOf(client.(service := t.endpoint), server, to + t.out, back, id);
            if x.AskRequest? && x.requestId == id
            then r.queued != [] && r.queuedWaiters != [] && r.queuedWaiters[0] == x.waiter && n == Left(r)
            else n == r
  {
    hide Flat;
    var t := Interact(client.service);
    assert t.out == [t.out[0]];
    FlatSnoc(RequestIn(id), to, t.out[0]);
    FlatHead(RequestOf(id), client.service.interaction);
    FlatHead(WaiterOf(id), client.service.interaction);
  }

  lemma ResponseEffect<P, Q>(client: Node<P, Q>, server: Node<Q, P>, to: seq<Message<Q>>, back: seq<Message<P>>,
                             id: u64)
    requires back != [] && back[0].Response? && back[0].requestId in client.service.incomingResponses
    ensures var t := Route(client.service, back[0]);
            var r := RequestsOf(client, server, to, back, id);
            var n := RequestsOf(client.(service := t), server, to, back[1..], id);
            if back[0].requestId == id
            then r.returning != [] && n == Delivered(r, client.service.incomingResponses[id])
            else n == r
  {
    hide Flat;
    var m := back[0];
    var a := Answer(client.service.incomingResponses[m.requestId], m.requestId, m.data);
    FlatHead(ResponseIn(id), back);
    FlatSnoc(AnswerData(id), client.service.answered, a);
    FlatSnoc(AnswerWaiter(id), client.service.answered, a);
  }

  lemma ArriveEffect<P, Q>(client: Node<P, Q>, server: Node<Q, P>, to: seq<Message<Q>>, back: seq<Message<P>>, id: u64)
    requires to != [] && ForApplication(to[0])
    ensures var r := RequestsOf(client, server, to, back, id);
            var n := RequestsOf(client, server.(handed := server.handed + [to[0]]), to[1..], back, id);
            if to[0].Request? && to[0].requestId == id then r.outgoing != [] && n == Arrived(r) else n == r
  {
    hide Flat;
    FlatHead(RequestIn(id), to);
    FlatSnoc(RequestIn(id), server.handed, to[0]);
  }

  lemma AcceptEffect<P, Q>(client: Node<P, Q>, server: Node<Q, P>, to: seq<Message<Q>>, back: seq<Message<P>>,
                           id: u64, i: u64)
    ensures var r := RequestsOf(client, server, to, back, id);
            RequestsOf(client, Act(server, AcceptRequest(i), to).node, to, back, id) ==
            if i == id then TakenUp(r) else r
  {
    hide Flat;
    FlatSnoc(Same(id), server.acceptedRequests, i);
    FlatSnoc(OpenSlot(id), server.service.outgoingResponses, Slot(i, None));
    FlatSnoc(FilledSlot(id), server.service.outgoingResponses, Slot(i, None));
  }

  function Replying<P, Q>(server: Node<Q, P>, i: nat, data: P): Node<Q, P>
    requires i < |server.service.outgoingResponses|
  {
    var s := server.service.outgoingResponses[i];
    var slots := server.service.outgoingResponses[i := s.(reply := Some(data))];
    server.(replied := server.replied + [Reply(s.requestId, data)],
            service := server.service.(outgoingResponses := slots))
  }

  lemma ReplyEffect<P, Q>(client: Node<P, Q>, server: Node<Q, P>, to: seq<Message<Q>>, back: seq<Message<P>>,
                          id: u64, i: nat, data: P)
    requires i < |server.service.outgoingResponses| && server.service.outgoingResponses[i].reply == None
    ensures var r := RequestsOf(client, server, to, back, id);
            var n := RequestsOf(client, Replying(server, i, data), to, back, id);
            if server.service.outgoingResponses[i].requestId == id
            then r.open > 0 && (r.filled == [] ==> n == GivenReply(r, data))
            else n == r
  {
    hide Flat;
    var slots := server.service.outgoingResponses;
    FillEffect(slots, i, data, id);
    FlatSnoc(ReplyOf(id), server.replied, Reply(slots[i].requestId, data));
    var r, n := RequestsOf(client, server, to, back, id), RequestsOf(client, Replying(server, i, data), to, back, id);
    assert n == r.(open := n.open, filled := n.filled, replied := n.replied);
  }

  lemma FillEffect<P>(slots: seq<Slot<P>>, i: nat, data: P, id: u64)
    requires i < |slots| && slots[i].reply == None
    ensures var s := slots[i := slots[i].(reply := Some(data))];
            if slots[i].requestId == id then
              && |Flat(OpenSlot(id), slots)| == |Flat(OpenSlot(id), s)| + 1
              && |Flat(FilledSlot(id), s)| == |Flat(FilledSlot(id), slots)| + 1
              && (Flat(FilledSlot(id), slots) == [] ==> Flat(FilledSlot(id), s) == [data])
            else
              && Flat(OpenSlot(id), s) == Flat(OpenSlot(id), slots)
              && Flat(FilledSlot(id), s) == Flat(FilledSlot(id), slots)
  {
    hide Flat;
    FlatAt(OpenSlot(id), slots, i);
    FlatAt(FilledSlot(id), slots, i);
    FlatReplace(OpenSlot(id), slots, i, slots[i].(reply := Some(data)));
    FlatReplace(FilledSlot(id), slots, i, slots[i].(reply := Some(data)));
  }

  lemma AnswerEffect<P, Q>(client: Node<P, Q>, server: Node<Q, P>, to: seq<Message<Q>>, back: seq<Message<P>>,
                           id: u64, i: nat)
    requires i < |server.service.outgoingResponses| && server.service.outgoingResponses[i].reply.Some?
    ensures var t := PushResponse(server.service, i);
            var r := RequestsOf(client, server, to, back, id);
            var n := RequestsOf(client, server.(service := t.endpoint), to, back + t.out, id);
            if server.service.outgoingResponses[i].requestId == id
            then r.filled != [] && (|r.filled| == 1 ==> n == SentBack(r))
            else n == r
  {
    hide Flat;
    var t := PushResponse(server.service, i);
    EmptyEffect(server.service.outgoingResponses, i, id);
    FlatSnoc(ResponseIn(id), back, t.out[0]);
  }

  lemma EmptyEffect<P>(slots: seq<Slot<P>>, i: nat, id: u64)
    requires i < |slots| && slots[i].reply.Some?
    ensures var s := slots[..i] + slots[i + 1..];
            && Flat(OpenSlot(id), s) == Flat(OpenSlot(id), slots)
            && if slots[i].requestId == id then
                 && |Flat(FilledSlot(id), slots)| == |Flat(FilledSlot(id), s)| + 1
                 && (|Flat(FilledSlot(id), slots)| == 1 ==> Flat(FilledSlot(id), slots) == [slots[i].reply.value])
               else Flat(FilledSlot(id), s) == Flat(FilledSlot(id), slots)
  {
    hide Flat;
    FlatAt(FilledSlot(id), slots, i);
    FlatRemove(OpenSlot(id), slots, i);
    FlatRemove(FilledSlot(id), slots, i);
  }

  // ---------------------------------------------------------------- the client acts

  /** What a node does as a server leaves its own requests alone. */
  lemma ServingEffect<P, Q>(client: Node<P, Q>, act: Action<Q>, inbox: seq<Message<P>>)
    requires ServingAction(act)
    ensures var t := Act(client, act, inbox);
            && t.inbox == inbox && t.node.submitted == client.submitted
            && t.node.service.interaction == client.service.interaction
            && t.node.service.answered == client.service.answered
            && t.node.service.incomingResponses == client.service.incomingResponses
            && |t.sent| <= 1 && (t.sent != [] ==> !t.sent[0].Request?)
  {
  }

  /** A message that is not a registered response leaves the answers as they are. */
  lemma ReceivingClient<P, Q>(client: Node<P, Q>, server: Node<Q, P>, to: seq<Message<Q>>, back: seq<Message<P>>,
                              id: u64)
    requires back != []
    requires back[0].Response? ==> back[0].requestId != id && back[0].requestId !in client.service.incomingResponses
    ensures RequestsOf(Act(client, Receive, back).node, server, to, back[1..], id) ==
            RequestsOf(client, server, to, back, id)
    ensures Act(client, Receive, back).node.service.incomingResponses == client.service.incomingResponses
  {
    hide Flat;
    var node := Act(client, Receive, back).node;
    assert node.submitted == client.submitted && node.service.interaction == client.service.interaction;
    assert node.service.answered == client.service.answered;
    FlatHead(ResponseIn(id), back);
  }

  lemma ClientReceives<P, Q>(client: Node<P, Q>, server: Node<Q, P>, to: seq<Message<Q>>, back: seq<Message<P>>,
                             id: u64)
    requires RequestInv(client, server, to, back, id) && back != []
    ensures RequestInv(Act(client, Receive, back).node, server, to, back[1..], id)
    ensures back[0].Response? && back[0].requestId == id ==> id in client.service.incomingResponses
  {
    hide Flat;
    var m, r := back[0], RequestsOf(client, server, to, back, id);
    if m.Response? && m.requestId == id {
      ReturningHead(back, id);
      DeliveredRouted(r, client.service.incomingResponses, id);
      ResponseEffect(client, server, to, back, id);
      RouteOnly(client, server, to, back, id);
    } else if m.Response? && m.requestId in client.service.incomingResponses {
      ResponseEffect(client, server, to, back, id);
      RouteOnly(client, server, to, back, id);
    } else {
      ReceivingClient(client, server, to, back, id);
    }
  }

  lemma ReturningHead<T>(back: seq<Message<T>>, id: u64)
    requires back != [] && back[0].Response? && back[0].requestId == id
    ensures Flat(ResponseIn(id), back) != []
  {
  }

  lemma RouteOnly<P, Q>(client: Node<P, Q>, server: Node<Q, P>, to: seq<Message<Q>>, back: seq<Message<P>>, id: u64)
    requires back != [] && back[0].Response?
    ensures Act(client, Receive, back).node == client.(service := Route(client.service, back[0]))
  {
  }

  /** Every action of the client keeps its requests routed. */
  lemma ClientKeeps<P, Q>(client: Node<P, Q>, server: Node<Q, P>, to: seq<Message<Q>>, back: seq<Message<P>>,
                          id: u64, act: Action<Q>)
    requires RequestInv(client, server, to, back, id) && WellUsed(client, act)
    ensures var t := Act(client, act, back);
            RequestInv(t.node, server, to + t.sent, t.inbox, id)
  {
    hide Flat;
    var t := Act(client, act, back);
    if ServingAction(act) {
      ServingEffect(client, act, back);
      FlatQuietTail(RequestIn(id), to, t.sent);
    } else {
      assert to + [] == to;
      match act
      case SubmitOneshot(message) => SubmitEffect(client, server, to, back, id, AskOneshot(message));
      case SubmitStream(i, data) => SubmitEffect(client, server, to, back, id, AskStream(i, data, |client.submitted|));
      case SubmitRequest(i, data) => ClientSubmits(client, server, to, back, id, i, data);
      case TakeInteraction =>
        if client.service.interaction != [] {
          ClientInteracts(client, server, to, back, id);
        }
      case Receive =>
        if back != [] {
          ClientReceives(client, server, to, back, id);
        }
    }
  }

  lemma ClientSubmits<P, Q>(client: Node<P, Q>, server: Node<Q, P>, to: seq<Message<Q>>, back: seq<Message<P>>,
                            id: u64, i: u64, data: Q)
    requires RequestInv(client, server, to, back, id) && WellUsed(client, SubmitRequest(i, data))
    ensures RequestInv(Submit(client, AskRequest(i, data, |client.submitted|)), server, to, back, id)
  {
    hide Flat;
    SubmitEffect(client, server, to, back, id, AskRequest(i, data, |client.submitted|));
    if i == id {
      var r := RequestsOf(client, server, to, back, id);
      AskedRouted(r, client.service.incomingResponses, id, data, |client.submitted|);
    }
  }

  lemma InteractRegisters<In, Out>(e: Endpoint<In, Out>)
    requires e.interaction != []
    ensures var x := e.interaction[0];
            Interact(e).endpoint.incomingResponses ==
            if x.AskRequest? then e.incomingResponses[x.requestId := x.waiter] else e.incomingResponses
  {
  }

  lemma ClientInteracts<P, Q>(client: Node<P, Q>, server: Node<Q, P>, to: seq<Message<Q>>, back: seq<Message<P>>,
                              id: u64)
    requires RequestInv(client, server, to, back, id) && client.service.interaction != []
    ensures var t := Interact(client.service);
            RequestInv(client.(service := t.endpoint), server, to + t.out, back, id)
  {
    hide Flat;
    var x := client.service.interaction[0];
    InteractEffect(client, server, to, back, id);
    InteractRegisters(client.service);
    if x.AskRequest? && x.requestId == id {
      LeftRouted(RequestsOf(client, server, to, back, id), client.service.incomingResponses, id);
    }
  }

  // ---------------------------------------------------------------- the server acts

  predicate AnsweringAction<T>(act: Action<T>) {
    act.Receive? || act.AcceptRequest? || act.GiveReply? || act.TakeResponse?
  }

  /** What a node does as a client, and with streams, leaves the requests it serves alone. */
  lemma ElseEffect<P, Q>(server: Node<Q, P>, act: Action<P>, inbox: seq<Message<Q>>)
    requires !AnsweringAction(act)
    ensures var t := Act(server, act, inbox);
            && t.inbox == inbox && t.node.handed == server.handed
            && t.node.acceptedRequests == server.acceptedRequests && t.node.replied == server.replied
            && t.node.service.outgoingResponses == server.service.outgoingResponses
            && |t.sent| <= 1 && (t.sent != [] ==> !t.sent[0].Response?)
  {
  }

  /** Only what is handed to the application changes for a server that receives. */
  lemma ReceivingServer<P, Q>(client: Node<P, Q>, server: Node<Q, P>, to: seq<Message<Q>>, later: seq<Message<Q>>,
                              back: seq<Message<P>>, id: u64)
    requires to != []
    ensures var handed := if ForApplication(to[0]) then server.handed + [to[0]] else server.handed;
            RequestsOf(client, Act(server, Receive, to).node, later, back, id) ==
            RequestsOf(client, server.(handed := handed), later, back, id)
  {
    hide Flat;
  }

  lemma PassingEffect<P, Q>(client: Node<P, Q>, server: Node<Q, P>, to: seq<Message<Q>>, back: seq<Message<P>>, id: u64)
    requires to != [] && !ForApplication(to[0])
    ensures RequestsOf(client, server, to[1..], back, id) == RequestsOf(client, server, to, back, id)
  {
  }

  lemma ServerReceives<P, Q>(client: Node<P, Q>, server: Node<Q, P>, to: seq<Message<Q>>, back: seq<Message<P>>,
                             id: u64)
    requires RequestInv(client, server, to, back, id)
    ensures var t := Act(server, Receive, to);
            RequestInv(client, t.node, t.inbox, back + t.sent, id)
  {
    hide Flat;
    assert back + [] == back;
    if to != [] {
      ReceivingServer(client, server, to, to[1..], back, id);
      if ForApplication(to[0]) {
        ArriveEffect(client, server, to, back, id);
        if to[0].Request? && to[0].requestId == id {
          ArrivedRouted(RequestsOf(client, server, to, back, id), client.service.incomingResponses, id);
        }
      } else {
        PassingEffect(client, server, to, back, id);
      }
    }
  }

  lemma ServerAccepts<P, Q>(client: Node<P, Q>, server: Node<Q, P>, to: seq<Message<Q>>, back: seq<Message<P>>,
                            id: u64, i: u64)
    requires RequestInv(client, server, to, back, id) && WellUsed(server, AcceptRequest(i))
    ensures var t := Act(server, AcceptRequest(i), to);
            RequestInv(client, t.node, t.inbox, back + t.sent, id)
  {
    hide Flat;
    assert back + [] == back;
    AcceptEffect(client, server, to, back, id, i);
  }

  lemma ServerReplies<P, Q>(client: Node<P, Q>, server: Node<Q, P>, to: seq<Message<Q>>, back: seq<Message<P>>,
                            id: u64, i: nat, data: P)
    requires RequestInv(client, server, to, back, id)
    ensures var t := Act(server, GiveReply(i, data), to);
            RequestInv(client, t.node, t.inbox, back + t.sent, id)
  {
    hide Flat;
    assert back + [] == back;
    var slots := server.service.outgoingResponses;
    if i < |slots| && slots[i].reply == None {
      assert Act(server, GiveReply(i, data), to).node == Replying(server, i, data);
      ReplyEffect(client, server, to, back, id, i, data);
      if slots[i].requestId == id {
        GivenReplyRouted(RequestsOf(client, server, to, back, id), client.service.incomingResponses, id, data);
      }
    }
  }

  lemma ServerAnswers<P, Q>(client: Node<P, Q>, server: Node<Q, P>, to: seq<Message<Q>>, back: seq<Message<P>>,
                            id: u64, i: nat)
    requires RequestInv(client, server, to, back, id)
    ensures var t := Act(server, TakeResponse(i), to);
            RequestInv(client, t.node, t.inbox, back + t.sent, id)
  {
    hide Flat;
    var slots := server.service.outgoingResponses;
    if i < |slots| && slots[i].reply.Some? {
      AnswerEffect(client, server, to, back, id, i);
      if slots[i].requestId == id {
        SentBackRouted(RequestsOf(client, server, to, back, id), client.service.incomingResponses, id);
      }
    } else {
      assert back + [] == back;
    }
  }

  lemma ServerElse<P, Q>(client: Node<P, Q>, server: Node<Q, P>, to: seq<Message<Q>>, back: seq<Message<P>>,
                         id: u64, act: Action<P>)
    requires RequestInv(client, server, to, back, id) && !AnsweringAction(act)
    ensures var t := Act(server, act, to);
            RequestInv(client, t.node, t.inbox, back + t.sent, id)
  {
    hide Flat;
    ElseEffect(server, act, to);
    FlatQuietTail(ResponseIn(id), back, Act(server, act, to).sent);
  }

  /** Every action of the server keeps the requests it serves routed. */
  lemma ServerKeeps<P, Q>(client: Node<P, Q>, server: Node<Q, P>, to: seq<Message<Q>>, back: seq<Message<P>>,
                          id: u64, act: Action<P>)
    requires RequestInv(client, server, to, back, id) && WellUsed(server, act)
    ensures var t := Act(server, act, to);
            RequestInv(client, t.node, t.inbox, back + t.sent, id)
  {
    hide Flat;
    match act
    case Receive => ServerReceives(client, server, to, back, id);
    case AcceptRequest(i) => ServerAccepts(client, server, to, back, id, i);
    case GiveReply(i, data) => ServerReplies(client, server, to, back, id, i, data);
    case TakeResponse(i) => ServerAnswers(client, server, to, back, id, i);
    case _ => ServerElse(client, server, to, back, id, act);
  }
}
