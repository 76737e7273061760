/** The items of one stream, opened by a client node and fed by a server node. */
module StreamRouting {
  import opened Sequences
  import opened Wire
  import opened Router
  import opened Network

  /** Everything about one stream id between the two applications. */
  datatype Stream<P> = Stream(
    receivers: seq<nat>, queued: seq<nat>,        // opened at the client, and still in the interaction queue
    outgoing: nat, handed: nat, accepted: nat,    // openings on the wire, handed to the server's application, taken up
    outlets: nat, pending: seq<P>,                // at the server, with the items put in and not yet sent
    emitted: seq<P>,                              // all items the server's application has put in
    returning: seq<P>,                            // in the channel back
    delivered: seq<P>, deliveredTo: seq<nat>)     // given to receivers at the client

  function StreamWith<P, Q>(client: Node<P, Q>, server: Node<Q, P>, to: seq<Message<Q>>, back: seq<Message<P>>,
                            id: u64): Stream<P> {
    Stream(
      Flat(ReceiverOf(id), client.submitted), Flat(ReceiverOf(id), client.service.interaction),
      |Flat(OpenIn(id), to)|, |Flat(OpenIn(id), server.handed)|, |Flat(Same(id), server.acceptedStreams)|,
      |Flat(OutletOf(id), server.service.outgoingStreams)|, Flat(PendingOn(id), server.service.outgoingStreams),
      Flat(EmittedOn(id), server.emitted),
      Flat(StreamItemIn(id), back),
      Flat(DeliveryData(id), client.service.streamed), Flat(DeliveryReceiver(id), client.service.streamed))
  }

  /** What is delivered, on the wire and pending is what was put in, in order, and all of it goes to one receiver. */
  ghost predicate InOrder<P>(s: Stream<P>) {
    && s.handed + s.outgoing + |s.queued| == |s.receivers| <= 1
    && s.outlets == s.accepted <= s.handed
    && s.delivered + s.returning + s.pending == s.emitted
    && (s.outlets == 0 ==> s.emitted == [])
    && |s.deliveredTo| == |s.delivered|
    && (forall k :: 0 <= k < |s.deliveredTo| ==> s.receivers == [s.deliveredTo[k]])
    && (s.queued != [] ==> s.queued == s.receivers)
  }

  /** The receiver is registered from the moment the opening is sent. */
  ghost predicate Registered<P>(s: Stream<P>, registered: map<u64, nat>, id: u64) {
    && (id in registered <==> s.receivers != [] && s.queued == [])
    && (id in registered ==> s.receivers == [registered[id]])
  }

  ghost predicate Routed<P>(s: Stream<P>, registered: map<u64, nat>, id: u64) {
    InOrder(s) && Registered(s, registered, id)
  }

  ghost predicate StreamInv<P, Q>(client: Node<P, Q>, server: Node<Q, P>, to: seq<Message<Q>>,
                                  back: seq<Message<P>>, id: u64) {
    Routed(StreamWith(client, server, to, back, id), client.service.incomingStreams, id)
  }

  /** In order, nothing lost, and everything to the one receiver that came with the opening. */
  ghost predicate Matched<P>(s: Stream<P>, registered: map<u64, nat>, id: u64) {
    && s.delivered + s.returning + s.pending == s.emitted
    && |s.deliveredTo| == |s.delivered|
    && (forall k :: 0 <= k < |s.deliveredTo| ==> s.receivers == [s.deliveredTo[k]])
    && (s.emitted != [] ==> id in registered && s.receivers == [registered[id]])
  }

  lemma RoutedMatches<P>(s: Stream<P>, registered: map<u64, nat>, id: u64)
    requires Routed(s, registered, id)
    ensures Matched(s, registered, id)
  {
  }

  predicate NoCloses<T>(channel: seq<Message<T>>) {
    forall i :: 0 <= i < |channel| ==> !channel[i].CloseStream?
  }

  // ---------------------------------------------------------------- the journey of a stream, step by step

  function Opened<P>(s: Stream<P>, receiver: nat): Stream<P> {
    s.(receivers := s.receivers + [receiver], queued := s.queued + [receiver])
  }

  lemma OpenedRouted<P>(s: Stream<P>, registered: map<u64, nat>, id: u64, receiver: nat)
    requires Routed(s, registered, id) && s.receivers == []
    ensures Routed(Opened(s, receiver), registered, id)
  {
  }

  function Left<P>(s: Stream<P>): Stream<P>
    requires s.queued != []
  {
    s.(queued := s.queued[1..], outgoing := s.outgoing + 1)
  }

  lemma LeftRouted<P>(s: Stream<P>, registered: map<u64, nat>, id: u64)
    requires Routed(s, registered, id) && s.queued != []
    ensures Routed(Left(s), registered[id := s.queued[0]], id)
  {
  }

  function Arrived<P>(s: Stream<P>): Stream<P>
    requires s.outgoing > 0
  {
    s.(outgoing := s.outgoing - 1, handed := s.handed + 1)
  }

  function TakenUp<P>(s: Stream<P>): Stream<P> {
    s.(accepted := s.accepted + 1, outlets := s.outlets + 1)
  }

  function PutIn<P>(s: Stream<P>, data: P): Stream<P> {
    s.(pending := s.pending + [data], emitted := s.emitted + [data])
  }

  lemma PutInRouted<P>(s: Stream<P>, registered: map<u64, nat>, id: u64, data: P)
    requires Routed(s, registered, id) && s.outlets > 0
    ensures Routed(PutIn(s, data), registered, id)
  {
  }

  function SentBack<P>(s: Stream<P>): Stream<P>
    requires s.pending != []
  {
    s.(pending := s.pending[1..], returning := s.returning + [s.pending[0]])
  }

  lemma SentBackRouted<P>(s: Stream<P>, registered: map<u64, nat>, id: u64)
    requires Routed(s, registered, id) && s.pending != []
    ensures Routed(SentBack(s), registered, id)
  {
  }

  function Delivered<P>(s: Stream<P>, receiver: nat): Stream<P>
    requires s.returning != []
  {
    s.(returning := s.returning[1..], delivered := s.delivered + [s.returning[0]],
       deliveredTo := s.deliveredTo + [receiver])
  }

  /** An item can only be on the wire for a stream whose receiver is registered. */
  lemma DeliveredRouted<P>(s: Stream<P>, registered: map<u64, nat>, id: u64)
    requires Routed(s, registered, id) && s.returning != []
    ensures id in registered && Routed(Delivered(s, registered[id]), registered, id)
  {
  }

  // ---------------------------------------------------------------- what each action does to one id

  lemma SubmitEffect<P, Q>(client: Node<P, Q>, server: Node<Q, P>, to: seq<Message<Q>>, back: seq<Message<P>>,
                           id: u64, x: Interaction<Q>)
    ensures var s := StreamWith(client, server, to, back, id);
            StreamWith(Submit(client, x), server, to, back, id) ==
            if x.AskStream? && x.streamId == id then Opened(s, x.receiver) else s
  {
    hide Flat;
    FlatSnoc(ReceiverOf(id), client.submitted, x);
    FlatSnoc(ReceiverOf(id), client.service.interaction, x);
  }

  lemma InteractEffect<P, Q>(client: Node<P, Q>, server: Node<Q, P>, to: seq<Message<Q>>, back: seq<Message<P>>,
                             id: u64)
    requires client.service.interaction != []
    ensures var t, x := Interact(client.service), client.service.interaction[0];
            var s := StreamWith(client, server, to, back, id);
            var n := StreamWith(client.(service := t.endpoint), server, to + t.out, back, id);
            if x.AskStream? && x.streamId == id
            then s.queued != [] && s.queued[0] == x.receiver && n == Left(s)
            else n == s
  {
    hide Flat;
    var t := Interact(client.service);
    assert t.out == [t.out[0]];
    FlatSnoc(OpenIn(id), to, t.out[0]);
    FlatHead(ReceiverOf(id), client.service.interaction);
  }

  lemma ItemEffect<P, Q>(client: Node<P, Q>, server: Node<Q, P>, to: seq<Message<Q>>, back: seq<Message<P>>, id: u64)
    requires back != [] && back[0].StreamMessage? && back[0].streamId in client.service.incomingStreams
    ensures var t := Route(client.service, back[0]);
            var s := StreamWith(client, server, to, back, id);
            var n := StreamWith(client.(service := t), server, to, back[1..], id);
            if back[0].streamId == id
            then s.returning != [] && n == Delivered(s, client.service.incomingStreams[id])
            else n == s
  {
    hide Flat;
    var m := back[0];
    var d := Delivery(client.service.incomingStreams[m.streamId], m.streamId, m.data);
    FlatHead(StreamItemIn(id), back);
    FlatSnoc(DeliveryData(id), client.service.streamed, d);
    FlatSnoc(DeliveryReceiver(id), client.service.streamed, d);
  }

  lemma ArriveEffect<P, Q>(client: Node<P, Q>, server: Node<Q, P>, to: seq<Message<Q>>, back: seq<Message<P>>, id: u64)
    requires to != [] && ForApplication(to[0])
    ensures var s := StreamWith(client, server, to, back, id);
            var n := StreamWith(client, server.(handed := server.handed + [to[0]]), to[1..], back, id);
            if to[0].OpenStream? && to[0].streamId == id then s.outgoing > 0 && n == Arrived(s) else n == s
  {
    hide Flat;
    FlatHead(OpenIn(id), to);
    FlatSnoc(OpenIn(id), server.handed, to[0]);
  }

  lemma AcceptEffect<P, Q>(client: Node<P, Q>, server: Node<Q, P>, to: seq<Message<Q>>, back: seq<Message<P>>,
                           id: u64, i: u64)
    ensures var s := StreamWith(client, server, to, back, id);
            StreamWith(client, Act(server, AcceptStream(i), to).node, to, back, id) == if i == id then TakenUp(s) else s
  {
    hide Flat;
    FlatSnoc(Same(id), server.acceptedStreams, i);
    FlatSnoc(OutletOf(id), server.service.outgoingStreams, Outlet(i, []));
    FlatSnoc(PendingOn(id), server.service.outgoingStreams, Outlet(i, []));
  }

  /** The only outlet of a stream holds all its pending items. */
  lemma OnlyOutlet<P>(outlets: seq<Outlet<P>>, i: nat, id: u64)
    requires i < |outlets| && outlets[i].streamId == id && |Flat(OutletOf(id), outlets)| <= 1
    ensures Flat(PendingOn(id), outlets) == outlets[i].pending
    ensures Flat(PendingOn(id), outlets[..i]) == [] && Flat(PendingOn(id), outlets[i + 1..]) == []
  {
    hide Flat;
    FlatAt(OutletOf(id), outlets, i);
    FlatAt(PendingOn(id), outlets, i);
    FlatSilent(OutletOf(id), PendingOn(id), outlets[..i]);
    FlatSilent(OutletOf(id), PendingOn(id), outlets[i + 1..]);
    assert [] + outlets[i].pending + [] == outlets[i].pending;
  }

  lemma ChangedOutlet<P>(outlets: seq<Outlet<P>>, i: nat, o: Outlet<P>, id: u64)
    requires i < |outlets| && outlets[i].streamId == o.streamId
    ensures Flat(OutletOf(id), outlets[i := o]) == Flat(OutletOf(id), outlets)
    ensures o.streamId == id ==> Flat(OutletOf(id), outlets) != []
    ensures o.streamId == id && |Flat(OutletOf(id), outlets)| <= 1 ==>
              Flat(PendingOn(id), outlets) == outlets[i].pending && Flat(PendingOn(id), outlets[i := o]) == o.pending
    ensures o.streamId != id ==> Flat(PendingOn(id), outlets[i := o]) == Flat(PendingOn(id), outlets)
  {
    hide Flat;
    FlatReplace(OutletOf(id), outlets, i, o);
    if o.streamId == id {
      FlatAt(OutletOf(id), outlets, i);
      if |Flat(OutletOf(id), outlets)| <= 1 {
        OnlyOutlet(outlets, i, id);
        OnlyOutlet(outlets[i := o], i, id);
      }
    } else {
      FlatReplace(PendingOn(id), outlets, i, o);
    }
  }

  lemma EmitEffect<P, Q>(client: Node<P, Q>, server: Node<Q, P>, to: seq<Message<Q>>, back: seq<Message<P>>,
                         id: u64, i: nat, data: P)
    requires i < |server.service.outgoingStreams|
    ensures var s := StreamWith(client, server, to, back, id);
            var n := StreamWith(client, Act(server, Emit(i, data), to).node, to, back, id);
            if server.service.outgoingStreams[i].streamId == id
            then s.outlets > 0 && (s.outlets <= 1 ==> n == PutIn(s, data))
            else n == s
  {
    hide Flat;
    var o := server.service.outgoingStreams[i];
    ChangedOutlet(server.service.outgoingStreams, i, o.(pending := o.pending + [data]), id);
    FlatSnoc(EmittedOn(id), server.emitted, Emitted(o.streamId, data));
  }

  lemma TakeItemEffect<P, Q>(client: Node<P, Q>, server: Node<Q, P>, to: seq<Message<Q>>, back: seq<Message<P>>,
                             id: u64, i: nat)
    requires i < |server.service.outgoingStreams| && server.service.outgoingStreams[i].pending != []
    ensures var t := PushStream(server.service, i);
            var s := StreamWith(client, server, to, back, id);
            var n := StreamWith(client, server.(service := t.endpoint), to, back + t.out, id);
            if server.service.outgoingStreams[i].streamId == id
            then s.outlets <= 1 ==> s.pending != [] && n == SentBack(s)
            else n == s
  {
    hide Flat;
    var o, t := server.service.outgoingStreams[i], PushStream(server.service, i);
    ChangedOutlet(server.service.outgoingStreams, i, o.(pending := o.pending[1..]), id);
    FlatSnoc(StreamItemIn(id), back, t.out[0]);
  }

  // ---------------------------------------------------------------- the client acts

  /** What a node does as a server leaves the streams it opened alone. */
  lemma ServingEffect<P, Q>(client: Node<P, Q>, act: Action<Q>, inbox: seq<Message<P>>)
    requires ServingAction(act)
    ensures var t := Act(client, act, inbox);
            && t.inbox == inbox && t.node.submitted == client.submitted
            && t.node.service.interaction == client.service.interaction
            && t.node.service.streamed == client.service.streamed
            && t.node.service.incomingStreams == client.service.incomingStreams
            && |t.sent| <= 1 && (t.sent != [] ==> !t.sent[0].OpenStream?)
  {
  }

  lemma ReceivingClient<P, Q>(client: Node<P, Q>, server: Node<Q, P>, to: seq<Message<Q>>, back: seq<Message<P>>,
                              id: u64)
    requires back != [] && !back[0].CloseStream?
    requires back[0].StreamMessage? ==> back[0].streamId != id && back[0].streamId !in client.service.incomingStreams
    ensures StreamWith(Act(client, Receive, back).node, server, to, back[1..], id) ==
            StreamWith(client, server, to, back, id)
    ensures Act(client, Receive, back).node.service.incomingStreams == client.service.incomingStreams
  {
    hide Flat;
    var node := Act(client, Receive, back).node;
    assert node.submitted == client.submitted && node.service.interaction == client.service.interaction;
    assert node.service.streamed == client.service.streamed;
    FlatHead(StreamItemIn(id), back);
  }

  lemma ReturningHead<T>(back: seq<Message<T>>, id: u64)
    requires back != [] && back[0].StreamMessage? && back[0].streamId == id
    ensures Flat(StreamItemIn(id), back) != []
  {
  }

  lemma RouteOnly<P, Q>(client: Node<P, Q>, back: seq<Message<P>>)
    requires back != [] && back[0].StreamMessage?
    ensures Act(client, Receive, back).node == client.(service := Route(client.service, back[0]))
    ensures Route(client.service, back[0]).incomingStreams == client.service.incomingStreams
  {
  }

  lemma ClientReceives<P, Q>(client: Node<P, Q>, server: Node<Q, P>, to: seq<Message<Q>>, back: seq<Message<P>>,
                             id: u64)
    requires StreamInv(client, server, to, back, id) && back != [] && !back[0].CloseStream?
    ensures StreamInv(Act(client, Receive, back).node, server, to, back[1..], id)
    ensures back[0].StreamMessage? && back[0].streamId == id ==> id in client.service.incomingStreams
  {
    hide Flat;
    var m, s := back[0], StreamWith(client, server, to, back, id);
    if m.StreamMessage? && m.streamId == id {
      ReturningHead(back, id);
      DeliveredRouted(s, client.service.incomingStreams, id);
      ItemEffect(client, server, to, back, id);
      RouteOnly(client, back);
    } else if m.StreamMessage? && m.streamId in client.service.incomingStreams {
      ItemEffect(client, server, to, back, id);
      RouteOnly(client, back);
    } else {
      ReceivingClient(client, server, to, back, id);
    }
  }

  lemma ClientOpens<P, Q>(client: Node<P, Q>, server: Node<Q, P>, to: seq<Message<Q>>, back: seq<Message<P>>,
                          id: u64, i: u64, data: Q)
    requires StreamInv(client, server, to, back, id) && WellUsed(client, SubmitStream(i, data))
    ensures StreamInv(Submit(client, AskStream(i, data, |client.submitted|)), server, to, back, id)
  {
    hide Flat;
    SubmitEffect(client, server, to, back, id, AskStream(i, data, |client.submitted|));
    if i == id {
      OpenedRouted(StreamWith(client, server, to, back, id), client.service.incomingStreams, id, |client.submitted|);
    }
  }

  lemma InteractRegisters<In, Out>(e: Endpoint<In, Out>)
    requires e.interaction != []
    ensures var x := e.interaction[0];
            Interact(e).endpoint.incomingStreams ==
            if x.AskStream? then e.incomingStreams[x.streamId := x.receiver] else e.incomingStreams
  {
  }

  lemma ClientInteracts<P, Q>(client: Node<P, Q>, server: Node<Q, P>, to: seq<Message<Q>>, back: seq<Message<P>>,
                              id: u64)
    requires StreamInv(client, server, to, back, id) && client.service.interaction != []
    ensures var t := Interact(client.service);
            StreamInv(client.(service := t.endpoint), server, to + t.out, back, id)
  {
    hide Flat;
    var x := client.service.interaction[0];
    InteractEffect(client, server, to, back, id);
    InteractRegisters(client.service);
    if x.AskStream? && x.streamId == id {
      LeftRouted(StreamWith(client, server, to, back, id), client.service.incomingStreams, id);
    }
  }

  /** Every action of the client keeps its streams routed. */
  lemma ClientKeeps<P, Q>(client: Node<P, Q>, server: Node<Q, P>, to: seq<Message<Q>>, back: seq<Message<P>>,
                          id: u64, act: Action<Q>)
    requires StreamInv(client, server, to, back, id) && WellUsed(client, act) && NoCloses(back)
    ensures var t := Act(client, act, back);
            StreamInv(t.node, server, to + t.sent, t.inbox, id)
  {
    hide Flat;
    var t := Act(client, act, back);
    if ServingAction(act) {
      ServingEffect(client, act, back);
      FlatQuietTail(OpenIn(id), to, t.sent);
    } else {
      assert to + [] == to;
      match act
      case SubmitOneshot(message) => SubmitEffect(client, server, to, back, id, AskOneshot(message));
      case SubmitRequest(i, data) =>
        SubmitEffect(client, server, to, back, id, AskRequest(i, data, |client.submitted|));
      case SubmitStream(i, data) => ClientOpens(client, server, to, back, id, i, data);
      case TakeInteraction =>
        if client.service.interaction != [] {
          ClientInteracts(client, server, to, back, id);
        }
      case Receive =>
        if back != [] {
          ClientReceives(client, server, to, back, id);
        }
    }
  }

  // ---------------------------------------------------------------- the server acts

  predicate FeedingAction<T>(act: Action<T>) {
    act.Receive? || act.AcceptStream? || act.Emit? || act.TakeStreamItem?
  }

  /** What a node does as a client, and with requests, leaves the streams it feeds alone. */
  lemma ElseEffect<P, Q>(server: Node<Q, P>, act: Action<P>, inbox: seq<Message<Q>>)
    requires !FeedingAction(act)
    ensures var t := Act(server, act, inbox);
            && t.inbox == inbox && t.node.handed == server.handed
            && t.node.acceptedStreams == server.acceptedStreams && t.node.emitted == server.emitted
            && t.node.service.outgoingStreams == server.service.outgoingStreams
            && |t.sent| <= 1 && (t.sent != [] ==> !t.sent[0].StreamMessage?)
  {
  }

  lemma ReceivingServer<P, Q>(client: Node<P, Q>, server: Node<Q, P>, to: seq<Message<Q>>, later: seq<Message<Q>>,
                              back: seq<Message<P>>, id: u64)
    requires to != []
    ensures var handed := if ForApplication(to[0]) then server.handed + [to[0]] else server.handed;
            StreamWith(client, Act(server, Receive, to).node, later, back, id) ==
            StreamWith(client, server.(handed := handed), later, back, id)
  {
    hide Flat;
  }

  lemma PassingEffect<P, Q>(client: Node<P, Q>, server: Node<Q, P>, to: seq<Message<Q>>, back: seq<Message<P>>, id: u64)
    requires to != [] && !ForApplication(to[0])
    ensures StreamWith(client, server, to[1..], back, id) == StreamWith(client, server, to, back, id)
  {
  }

  lemma ServerReceives<P, Q>(client: Node<P, Q>, server: Node<Q, P>, to: seq<Message<Q>>, back: seq<Message<P>>,
                             id: u64)
    requires StreamInv(client, server, to, back, id)
    ensures var t := Act(server, Receive, to);
            StreamInv(client, t.node, t.inbox, back + t.sent, id)
  {
    hide Flat;
    assert back + [] == back;
    if to != [] {
      ReceivingServer(client, server, to, to[1..], back, id);
      if ForApplication(to[0]) {
        ArriveEffect(client, server, to, back, id);
      } else {
        PassingEffect(client, server, to, back, id);
      }
    }
  }

  lemma ServerAccepts<P, Q>(client: Node<P, Q>, server: Node<Q, P>, to: seq<Message<Q>>, back: seq<Message<P>>,
                            id: u64, i: u64)
    requires StreamInv(client, server, to, back, id) && WellUsed(server, AcceptStream(i))
    ensures var t := Act(server, AcceptStream(i), to);
            StreamInv(client, t.node, t.inbox, back + t.sent, id)
  {
    hide Flat;
    assert back + [] == back;
    AcceptEffect(client, server, to, back, id, i);
  }

  lemma ServerEmits<P, Q>(client: Node<P, Q>, server: Node<Q, P>, to: seq<Message<Q>>, back: seq<Message<P>>,
                          id: u64, i: nat, data: P)
    requires StreamInv(client, server, to, back, id)
    ensures var t := Act(server, Emit(i, data), to);
            StreamInv(client, t.node, t.inbox, back + t.sent, id)
  {
    hide Flat;
    assert back + [] == back;
    if i < |server.service.outgoingStreams| {
      EmitEffect(client, server, to, back, id, i, data);
      if server.service.outgoingStreams[i].streamId == id {
        PutInRouted(StreamWith(client, server, to, back, id), client.service.incomingStreams, id, data);
      }
    }
  }

  lemma ServerSends<P, Q>(client: Node<P, Q>, server: Node<Q, P>, to: seq<Message<Q>>, back: seq<Message<P>>,
                          id: u64, i: nat)
    requires StreamInv(client, server, to, back, id)
    ensures var t := Act(server, TakeStreamItem(i), to);
            StreamInv(client, t.node, t.inbox, back + t.sent, id)
  {
    hide Flat;
    var outlets := server.service.outgoingStreams;
    if i < |outlets| && outlets[i].pending != [] {
      TakeItemEffect(client, server, to, back, id, i);
      if outlets[i].streamId == id {
        SentBackRouted(StreamWith(client, server, to, back, id), client.service.incomingStreams, id);
      }
    } else {
      assert back + [] == back;
    }
  }

  lemma ServerElse<P, Q>(client: Node<P, Q>, server: Node<Q, P>, to: seq<Message<Q>>, back: seq<Message<P>>,
                         id: u64, act: Action<P>)
    requires StreamInv(client, server, to, back, id) && !FeedingAction(act)
    ensures var t := Act(server, act, to);
            StreamInv(client, t.node, t.inbox, back + t.sent, id)
  {
    hide Flat;
    ElseEffect(server, act, to);
    FlatQuietTail(StreamItemIn(id), back, Act(server, act, to).sent);
  }

  /** Every action of the server keeps the streams it feeds routed. */
  lemma ServerKeeps<P, Q>(client: Node<P, Q>, server: Node<Q, P>, to: seq<Message<Q>>, back: seq<Message<P>>,
                          id: u64, act: Action<P>)
    requires StreamInv(client, server, to, back, id) && WellUsed(server, act)
    ensures var t := Act(server, act, to);
            StreamInv(client, t.node, t.inbox, back + t.sent, id)
  {
    hide Flat;
    match act
    case Receive => ServerReceives(client, server, to, back, id);
    case AcceptStream(i) => ServerAccepts(client, server, to, back, id, i);
    case Emit(i, data) => ServerEmits(client, server, to, back, id, i, data);
    case TakeStreamItem(i) => ServerSends(client, server, to, back, id, i);
    case _ => ServerElse(client, server, to, back, id, act);
  }
}
