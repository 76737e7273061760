/** The service itself: an endpoint whose methods run the `select!` loop and take up requests and streams. */
module Service {
  import opened Sequences
  import opened Wire
  import opened Router
  import opened Network

  class SansService<In, Out> {
    var writer: seq<Message<Out>>  // everything sent so far
    var interaction: seq<Interaction<Out>>
    var incomingResponses: map<u64, nat>
    var incomingStreams: map<u64, nat>
    var outgoingStreams: seq<Outlet<Out>>
    var outgoingResponses: seq<Slot<Out>>
    var answered: seq<Answer<In>>
    var streamed: seq<Delivery<In>>
    var discarded: seq<Message<In>>
    ghost var node: Node<In, Out>  // this endpoint as a node of the network, with its application's history

    ghost predicate Valid()
      reads this
    {
      node.service == Endpoint(interaction, incomingResponses, incomingStreams, outgoingStreams, outgoingResponses,
                               answered, streamed, discarded)
    }

    constructor ()
      ensures Valid() && node == FreshNode() && writer == []
    {
      writer, interaction, incomingResponses, incomingStreams := [], [], map[], map[];
      outgoingStreams, outgoingResponses := [], [];
      answered, streamed, discarded := [], [], [];
      node := FreshNode();
    }

    method OnMessage(next: Message<In>) returns (r: Option<Outcome<In>>)
      requires Valid()
      modifies this
      ensures Valid()
      ensures var t := Act(old(node), Receive, [next]); node == t.node && writer == old(writer) + t.sent
      ensures r == ResultOf(old(node).service, Arrived(next))
      // Requests, openings and one-shots are handed over; only closing an unknown stream is a panic.
      ensures next.Oneshot? || next.Request? || next.OpenStream? <==> r == Some(Handed(next))
      ensures next.CloseStream? && next.streamId !in old(incomingStreams) <==> r == Some(Panicked)
      ensures r.None? || r == Some(Handed(next)) || r == Some(Panicked)
      ensures node.handed == old(node.handed) + (if r == Some(Handed(next)) then [next] else [])
      ensures r == Some(Panicked) ==> node == old(node)
      // A response goes to the waiter registered for its id, which is then forgotten; a stream item to the receiver.
      ensures outgoingStreams == old(outgoingStreams) && outgoingResponses == old(outgoingResponses)
      ensures interaction == old(interaction)
      ensures incomingResponses ==
                if next.Response? then old(incomingResponses) - {next.requestId} else old(incomingResponses)
      ensures incomingStreams ==
                if next.CloseStream? then old(incomingStreams) - {next.streamId} else old(incomingStreams)
      ensures answered == old(answered) +
                if next.Response? && next.requestId in old(incomingResponses)
                then [Answer(old(incomingResponses)[next.requestId], next.requestId, next.data)] else []
      ensures streamed == old(streamed) +
                if next.StreamMessage? && next.streamId in old(incomingStreams)
                then [Delivery(old(incomingStreams)[next.streamId], next.streamId, next.data)] else []
      ensures discarded == old(discarded) +
                if (next.Response? && next.requestId !in old(incomingResponses))
                   || (next.StreamMessage? && next.streamId !in old(incomingStreams))
                then [next] else []
    {
      node := Act(node, Receive, [next]).node;
      match next
      case Oneshot(_) => return Some(Handed(next));
      case Request(_, _) => return Some(Handed(next));
      case Response(id, data) =>
        if id !in incomingResponses {
          discarded := discarded + [next];
          return None;
        }
        var tx := incomingResponses[id];
        incomingResponses := incomingResponses - {id};
        answered := answered + [Answer(tx, id, data)];
        return None;
      case OpenStream(_, _) => return Some(Handed(next));
      case StreamMessage(id, data) =>
        if id !in incomingStreams {
          discarded := discarded + [next];
          return None;
        }
        streamed := streamed + [Delivery(incomingStreams[id], id, data)];
        return None;
      case CloseStream(id) =>
        if id !in incomingStreams {
          assert incomingStreams - {id} == incomingStreams;
          return Some(Panicked);
        }
        incomingStreams := incomingStreams - {id};
        return None;
    }

    method OnInteraction()
      requires Valid()
      modifies this
      ensures Valid()
      ensures var t := Act(old(node), TakeInteraction, []); node == t.node && writer == old(writer) + t.sent
      // The oldest submission leaves the queue, and its message is sent.
      ensures old(interaction) == [] ==> interaction == [] && writer == old(writer)
      ensures old(interaction) != [] ==>
                && interaction == old(interaction)[1..]
                && writer == old(writer) + [MessageOf(old(interaction)[0])]
      ensures node.handed == old(node.handed)
    {
      node := Act(node, TakeInteraction, []).node;
      if interaction == [] {
        return;
      }
      var next := interaction[0];
      interaction := interaction[1..];
      match next
      case AskStream(id, data, sender) =>
        incomingStreams := incomingStreams[id := sender];
        writer := writer + [OpenStream(id, data)];
      case AskRequest(id, data, sender) =>
        incomingResponses := incomingResponses[id := sender];
        writer := writer + [Request(id, data)];
      case AskOneshot(message) =>
        writer := writer + [Oneshot(message)];
    }

    method OnStreamItem(i: nat)
      requires Valid()
      modifies this
      ensures Valid()
      ensures var t := Act(old(node), TakeStreamItem(i), []); node == t.node && writer == old(writer) + t.sent
      ensures node.handed == old(node.handed)
    {
      node := Act(node, TakeStreamItem(i), []).node;
      if i < |outgoingStreams| && outgoingStreams[i].pending != [] {
        var outlet := outgoingStreams[i];
        outgoingStreams := outgoingStreams[i := outlet.(pending := outlet.pending[1..])];
        writer := writer + [StreamMessage(outlet.streamId, outlet.pending[0])];
      }
    }

    method OnResponse(i: nat)
      requires Valid()
      modifies this
      ensures Valid()
      ensures var t := Act(old(node), TakeResponse(i), []); node == t.node && writer == old(writer) + t.sent
      ensures node.handed == old(node.handed)
    {
      node := Act(node, TakeResponse(i), []).node;
      if i < |outgoingResponses| && outgoingResponses[i].reply.Some? {
        var slot := outgoingResponses[i];
        outgoingResponses := outgoingResponses[..i] + outgoingResponses[i + 1..];
        writer := writer + [Response(slot.requestId, slot.reply.value)];
      }
    }

    /** One outcome of the `select!`; nothing when the loop goes round again. */
    method OnEvent(event: Event<In>) returns (r: Option<Outcome<In>>)
      requires Valid()
      modifies this
      ensures Valid()
      ensures var t := Turn(old(node), event); node == t.node && writer == old(writer) + t.sent
      ensures r == ResultOf(old(node).service, event) && r != Some(Waiting)
      ensures node.handed == old(node.handed) + (if r.Some? && r.value.Handed? then [r.value.m] else [])
      ensures r.Some? && r.value.Handed? ==> event == Arrived(r.value.m)
      ensures r == Some(Ended) <==> event.ReaderEnded?
      ensures r == Some(Failed) <==> event.ReaderFailed?
      ensures r == Some(Panicked) ==> event.Arrived? && event.m.CloseStream?
    {
      hide Act, ResultOf;
      match event {
        case ReaderEnded =>
          r := Some(Ended);
        case ReaderFailed =>
          r := Some(Failed);
        case Arrived(m) =>
          r := OnMessage(m);
        case StreamTurn(i) =>
          OnStreamItem(i);
          r := None;
        case ResponseTurn(i) =>
          OnResponse(i);
          r := None;
        case InteractionTurn =>
          OnInteraction();
          r := None;
      }
      assert old(writer) + [] == old(writer) && old(node.handed) + [] == old(node.handed);
      assert r == ResultOf(old(node).service, event) by { OnlyArrivalsDecide(old(node).service, event); }
    }

    static lemma OnlyArrivalsDecide(e: Endpoint<In, Out>, event: Event<In>)
      ensures event.ReaderEnded? ==> ResultOf(e, event) == Some(Ended)
      ensures event.ReaderFailed? ==> ResultOf(e, event) == Some(Failed)
      ensures event.StreamTurn? || event.ResponseTurn? || event.InteractionTurn? ==> ResultOf(e, event) == None
    {
    }

    /**
     * Waits for the next message for the application, given the events that occur meanwhile. It returns on the first
     * event with a result and not before; up to then each event is an action of the node.
     */
    method NextMessage(events: seq<Event<In>>) returns (r: Outcome<In>, used: nat)
      requires Valid()
      modifies this
      ensures Valid() && used <= |events|
      ensures var t := Turns(old(node), events[..used]); node == t.node && writer == old(writer) + t.sent
      ensures if r.Waiting? then used == |events| else used > 0
      ensures forall i :: 0 <= i < used ==>
                ResultAt(old(node), events, i) == if i == used - 1 && !r.Waiting? then Some(r) else None
      // The message handed over is the one that has just arrived, and the only one.
      ensures node.handed == old(node.handed) + (if r.Handed? then [r.m] else [])
      ensures r.Handed? ==> used > 0 && events[used - 1] == Arrived(r.m)
      ensures r.Ended? <==> used > 0 && events[used - 1].ReaderEnded?
      ensures r.Failed? <==> used > 0 && events[used - 1].ReaderFailed?
      ensures r.Panicked? ==> used > 0 && events[used - 1].Arrived? && events[used - 1].m.CloseStream?
    {
      hide Act, Turn, ResultOf;
      used := 0;
      while used < |events|
        invariant Valid() && used <= |events|
        invariant var t := Turns(old(node), events[..used]); node == t.node && writer == old(writer) + t.sent
        invariant forall i :: 0 <= i < used ==> ResultAt(old(node), events, i) == None
        invariant node.handed == old(node.handed)
        invariant used > 0 ==> !events[used - 1].ReaderEnded? && !events[used - 1].ReaderFailed?
        decreases |events| - used
      {
        ghost var before := Turns(old(node), events[..used]);
        ghost var t := Turn(node, events[used]);
        assert events[..used + 1][..used] == events[..used];
        Regroup(old(writer), before.sent, t.sent);
        var result := OnEvent(events[used]);
        used := used + 1;
        if result.Some? {
          return result.value, used;
        }
      }
      return Waiting, used;
    }

    /** Merges a new stream of items for `streamId` into the outgoing ones. */
    method RecvStream(streamId: u64) returns (outlet: nat)
      requires Valid()
      modifies this`outgoingStreams, this`node
      ensures Valid() && node == Act(old(node), AcceptStream(streamId), []).node
      ensures outlet == |old(outgoingStreams)| < |outgoingStreams| && outgoingStreams[outlet] == Outlet(streamId, [])
    {
      node := Act(node, AcceptStream(streamId), []).node;
      outlet := |outgoingStreams|;
      outgoingStreams := outgoingStreams + [Outlet(streamId, [])];
    }

    /** Merges the one response that will come for `requestId` into the outgoing ones. */
    method RecvRequest(requestId: u64) returns (slot: nat)
      requires Valid()
      modifies this`outgoingResponses, this`node
      ensures Valid() && node == Act(old(node), AcceptRequest(requestId), []).node
      ensures slot == |old(outgoingResponses)| < |outgoingResponses| && outgoingResponses[slot] == Slot(requestId, None)
    {
      node := Act(node, AcceptRequest(requestId), []).node;
      slot := |outgoingResponses|;
      outgoingResponses := outgoingResponses + [Slot(requestId, None)];
    }
  }
}
