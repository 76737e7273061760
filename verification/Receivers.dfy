/** What becomes of the receivers of streams in any run, and exactly what distinct stream ids are needed for. */
module Receivers {
  import opened Sequences
  import opened Wire
  import opened Router
  import opened Network
  import opened NetworkSafety
  import StreamRouting
  import Waiters

  // ---------------------------------------------------------------- where a receiver is

  datatype Place = Queued(i: nat) | Registered(id: u64)

  predicate At<In, Out>(e: Endpoint<In, Out>, p: Place, receiver: nat) {
    match p
    case Queued(i) => i < |e.interaction| && e.interaction[i].AskStream? && e.interaction[i].receiver == receiver
    case Registered(id) => id in e.incomingStreams && e.incomingStreams[id] == receiver
  }

  /** The stream id a place belongs to. */
  function IdAt<In, Out>(e: Endpoint<In, Out>, p: Place, receiver: nat): u64
    requires At(e, p, receiver)
  {
    match p
    case Queued(i) => e.interaction[i].streamId
    case Registered(id) => id
  }

  predicate Opens<In, Out>(n: Node<In, Out>, receiver: nat, id: u64) {
    && receiver < |n.submitted| && n.submitted[receiver].AskStream?
    && n.submitted[receiver].streamId == id && n.submitted[receiver].receiver == receiver
  }

  /** Receivers are queued and registered under the id they were submitted with. */
  ghost predicate Placed<In, Out>(n: Node<In, Out>) {
    forall p, w :: At(n.service, p, w) ==> Opens(n, w, IdAt(n.service, p, w))
  }

  /** Submitted, and nowhere an item could still find it. */
  ghost predicate Displaced<In, Out>(n: Node<In, Out>, receiver: nat) {
    receiver < |n.submitted| && forall p :: !At(n.service, p, receiver)
  }

  function DataTo<T>(receiver: nat): Delivery<T> -> seq<T> {
    (d: Delivery<T>) => if d.receiver == receiver then [d.data] else []
  }

  /** The place from which an action brings a receiver to `p`. */
  function Origin<In, Out>(n: Node<In, Out>, act: Action<Out>, p: Place): Place {
    if act.TakeInteraction? && n.service.interaction != [] then
      var x := n.service.interaction[0];
      match p
      case Queued(i) => Queued(i + 1)
      case Registered(id) => if x.AskStream? && x.streamId == id then Queued(0) else p
    else p
  }

  predicate Arises<In, Out>(n: Node<In, Out>, act: Action<Out>, p: Place, receiver: nat) {
    act.SubmitStream? && p == Queued(|n.service.interaction|) && receiver == |n.submitted|
  }

  /** Receivers come from the place of origin, or are new. */
  lemma ActMoves<In, Out>(n: Node<In, Out>, act: Action<Out>, inbox: seq<Message<In>>, p: Place, receiver: nat)
    requires At(Act(n, act, inbox).node.service, p, receiver) && !Arises(n, act, p, receiver)
    ensures var t, from := Act(n, act, inbox).node, Origin(n, act, p);
            At(n.service, from, receiver) && IdAt(n.service, from, receiver) == IdAt(t.service, p, receiver)
  {
  }

  lemma ActPlaced<In, Out>(n: Node<In, Out>, act: Action<Out>, inbox: seq<Message<In>>)
    requires Placed(n)
    ensures Placed(Act(n, act, inbox).node)
  {
    var t := Act(n, act, inbox).node;
    assert n.submitted <= t.submitted;
    forall p, w | At(t.service, p, w) ensures Opens(t, w, IdAt(t.service, p, w)) {
      if !Arises(n, act, p, w) {
        ActMoves(n, act, inbox, p, w);
      }
    }
  }

  lemma {:induction false} AfterPlaced<P, Q>(n: Net<P, Q>, steps: seq<Step<P, Q>>)
    requires Placed(n.a)
    ensures Placed(After(n, steps).a)
    decreases |steps|
  {
    hide Placed, Act;
    if steps != [] {
      if steps[0].AtA? {
        ActPlaced(n.a, steps[0].atA, n.ba);
      }
      AfterPlaced(Next(n, steps[0]), steps[1..]);
    }
  }

  /** Items go to registered receivers only. */
  lemma ActDelivers<In, Out>(n: Node<In, Out>, act: Action<Out>, inbox: seq<Message<In>>, receiver: nat)
    requires forall p :: !At(n.service, p, receiver)
    ensures Flat(DataTo(receiver), Act(n, act, inbox).node.service.streamed) ==
            Flat(DataTo(receiver), n.service.streamed)
  {
    hide Flat;
    var before, after := n.service.streamed, Act(n, act, inbox).node.service.streamed;
    if after != before {
      var id := inbox[0].streamId;
      assert !At(n.service, Registered(id), receiver);
      FlatSnoc(DataTo(receiver), before, Delivery(n.service.incomingStreams[id], id, inbox[0].data));
    }
  }

  /** A displaced receiver gets nothing any more, however the run goes on. */
  lemma {:induction false} DisplacedForEver<P, Q>(n: Net<P, Q>, more: seq<Step<P, Q>>, receiver: nat)
    requires Displaced(n.a, receiver)
    ensures var z := After(n, more).a;
            && Displaced(z, receiver)
            && Flat(DataTo(receiver), z.service.streamed) == Flat(DataTo(receiver), n.a.service.streamed)
    decreases |more|
  {
    hide Flat;
    if more != [] {
      var m := Next(n, more[0]);
      if more[0].AtA? {
        ActDelivers(n.a, more[0].atA, n.ba, receiver);
        forall p ensures !At(m.a.service, p, receiver) {
          if At(m.a.service, p, receiver) {
            ActMoves(n.a, more[0].atA, n.ba, p, receiver);
          }
        }
      }
      DisplacedForEver(m, more[1..], receiver);
    }
  }

  // ---------------------------------------------------------------- exactly when nobody is displaced

  ghost predicate NoneDisplaced<In, Out>(n: Node<In, Out>, id: u64) {
    forall w :: w in Flat(ReceiverOf(id), n.submitted) ==> !Displaced(n, w)
  }

  /** In a routed network every receiver is somewhere. */
  lemma ReceiverPlace<P, Q>(n: Net<P, Q>, id: u64, w: nat) returns (p: Place)
    requires NetSafe(n) && w in Flat(ReceiverOf(id), n.a.submitted)
    ensures At(n.a.service, p, w) && IdAt(n.a.service, p, w) == id
  {
    hide Flat;
    assert StreamRouting.StreamInv(n.a, n.b, n.ab, n.ba, id);
    var s := StreamRouting.StreamWith(n.a, n.b, n.ab, n.ba, id);
    if s.queued != [] {
      var i := FlatSource(ReceiverOf(id), n.a.service.interaction, w);
      p := Queued(i);
    } else {
      p := Registered(id);
    }
  }

  /** A second stream under a used id: once everything queued has been sent, the first one's receiver is displaced. */
  lemma SecondStreamDisplaces<P, Q>(n: Net<P, Q>, id: u64, data: Q) returns (more: seq<Step<P, Q>>)
    requires NetSafe(n) && Placed(n.a) && !WellUsed(n.a, SubmitStream(id, data))
    ensures var m := Next(n, AtA(SubmitStream(id, data)));
            RunWellUsed(m, more) && !NoneDisplaced(After(m, more).a, id)
  {
    hide Flat;
    var w := Flat(ReceiverOf(id), n.a.submitted)[0];
    var p := ReceiverPlace(n, id, w);
    var m := Next(n, AtA(SubmitStream(id, data)));
    ActPlaced(n.a, SubmitStream(id, data), n.ba);
    more := Waiters.SendAll(m);
    AfterPlaced(m, more);
    var z := After(m, more).a;
    assert At(z.service, Registered(id), |n.a.submitted|);
    forall q ensures !At(z.service, q, w) {
      match q
      case Queued(_) =>
      case Registered(k) => assert At(z.service, q, w) ==> k == id;
    }
    FlatSnoc(ReceiverOf(id), n.a.submitted, AskStream(id, data, |n.a.submitted|));
    assert w in Flat(ReceiverOf(id), z.submitted);
  }

  /**
   * Distinct ids are exactly what it takes for streams, too: after any well-used run, a stream can be opened under an
   * id without some well-used continuation displacing a receiver of that id if and only if none was opened under it.
   */
  lemma DisplacesNoneIffIdUnused<P, Q>(steps: seq<Step<P, Q>>, id: u64, data: Q)
    requires RunWellUsed(Start(), steps)
    ensures var n := After(Start<P, Q>(), steps);
            var m := Next(n, AtA(SubmitStream(id, data)));
            (forall more :: RunWellUsed(m, more) ==> NoneDisplaced(After(m, more).a, id))
            <==> Flat(ReceiverOf(id), n.a.submitted) == []
  {
    hide Flat;
    var n := After(Start<P, Q>(), steps);
    var m := Next(n, AtA(SubmitStream(id, data)));
    StartSafe<P, Q>();
    AfterSafe(Start<P, Q>(), steps);
    AfterPlaced(Start<P, Q>(), steps);
    if WellUsed(n.a, SubmitStream(id, data)) {
      NextSafe(n, AtA(SubmitStream(id, data)));
      forall more | RunWellUsed(m, more) ensures NoneDisplaced(After(m, more).a, id) {
        AfterSafe(m, more);
        var z := After(m, more);
        forall w | w in Flat(ReceiverOf(id), z.a.submitted) ensures !Displaced(z.a, w) {
          var p := ReceiverPlace(z, id, w);
        }
      }
    } else {
      var more := SecondStreamDisplaces(n, id, data);
    }
  }

  // ---------------------------------------------------------------- items for somebody else

  /** Two streams under one id. */
  function OpenTwice<P, Q>(id: u64, first: Q, second: Q): seq<Step<P, Q>> {
    [AtA(SubmitStream(id, first)), AtA(TakeInteraction), AtA(SubmitStream(id, second)), AtA(TakeInteraction)]
  }

  /** The peer takes up both. */
  function TakeUpTwice<P, Q>(id: u64): seq<Step<P, Q>> {
    [AtB(Receive), AtB(Receive), AtB(AcceptStream(id)), AtB(AcceptStream(id))]
  }

  /** It puts `x` in the outlet of the first stream, and `x` arrives. */
  function FeedFirst<P, Q>(x: P): seq<Step<P, Q>> {
    [AtB(Emit(0, x)), AtB(TakeStreamItem(0)), AtA(Receive)]
  }

  lemma BothOpened<In, Out>(id: u64, first: Out, second: Out)
    ensures var one := Act(Act(FreshNode<In, Out>(), SubmitStream(id, first), []).node, TakeInteraction, []);
            var two := Act(Act(one.node, SubmitStream(id, second), []).node, TakeInteraction, []);
            && one.sent == [OpenStream(id, first)] && two.sent == [OpenStream(id, second)]
            && two.node.service == FreshNode<In, Out>().service.(incomingStreams := map[id := 1])
            && |two.node.submitted| == 2 && Displaced(two.node, 0)
  {
    var one := Act(Act(FreshNode<In, Out>(), SubmitStream(id, first), []).node, TakeInteraction, []);
    assert one.node.service == FreshNode<In, Out>().service.(incomingStreams := map[id := 0]);
    var two := Act(Act(one.node, SubmitStream(id, second), []).node, TakeInteraction, []);
    assert two.node.service.incomingStreams == map[id := 1] && two.node.service.interaction == [];
  }

  lemma OpenedTwice<P, Q>(id: u64, first: Q, second: Q)
    ensures var n := After(Start<P, Q>(), OpenTwice(id, first, second));
            && n.a.service == FreshNode<P, Q>().service.(incomingStreams := map[id := 1]) && Displaced(n.a, 0)
            && n.ab == [OpenStream(id, first), OpenStream(id, second)] && n.b == FreshNode() && n.ba == []
  {
    hide After, RunWellUsed, Act, Displaced;
    var steps := OpenTwice<P, Q>(id, first, second);
    var n := Start<P, Q>();
    var n1 := Next(n, steps[0]);
    var n2 := Next(n1, steps[1]);
    var n3 := Next(n2, steps[2]);
    var n4 := Next(n3, steps[3]);
    Waiters.KeepsInbox(n.a, SubmitStream(id, first), n.ba);
    Waiters.KeepsInbox(n1.a, TakeInteraction, n1.ba);
    Waiters.KeepsInbox(n2.a, SubmitStream(id, second), n2.ba);
    Waiters.KeepsInbox(n3.a, TakeInteraction, n3.ba);
    BothOpened<P, Q>(id, first, second);
    assert n4.ab == [OpenStream(id, first), OpenStream(id, second)];
    Waiters.From(n, steps, 0);
    Waiters.From(n1, steps, 1);
    Waiters.From(n2, steps, 2);
    Waiters.From(n3, steps, 3);
    Waiters.NoSteps(n4, steps[4..]);
    assert steps[0..] == steps;
  }

  lemma BothTakenUp<In, Out>(id: u64, first: In, second: In)
    ensures var one := Act(FreshNode<In, Out>(), Receive, [OpenStream(id, first), OpenStream(id, second)]);
            var two := Act(one.node, Receive, one.inbox);
            var three := Act(two.node, AcceptStream(id), two.inbox);
            var four := Act(three.node, AcceptStream(id), three.inbox);
            && one.sent == [] && two.sent == [] && three.sent == [] && four.sent == []
            && WellUsed(FreshNode<In, Out>(), Receive) && WellUsed(one.node, Receive)
            && WellUsed(two.node, AcceptStream(id)) && WellUsed(three.node, AcceptStream(id))
            && four.node.handed == [OpenStream(id, first), OpenStream(id, second)]
            && four.node.emitted == [] && four.node.acceptedStreams == [id, id]
            && four.node.service.outgoingStreams == [Outlet(id, []), Outlet(id, [])]
  {
    hide Flat;
    var inbox: seq<Message<In>> := [OpenStream(id, first), OpenStream(id, second)];
    var one := Act(FreshNode<In, Out>(), Receive, inbox);
    var two := Act(one.node, Receive, one.inbox);
    assert two.node.handed == [inbox[0]] + [inbox[1]] == inbox;
    FlatSnoc(OpenIn(id), [inbox[0]], inbox[1]);
    FlatSnoc(OpenIn(id), [], inbox[0]);
    FlatSnoc(Same(id), [], id);
    assert [] + [inbox[0]] == [inbox[0]] && [] + [id] == [id];
    FlatEmpty(OpenIn<In>(id));
    FlatEmpty(Same(id));
  }

  lemma TakenUpTwice<P, Q>(n: Net<P, Q>, id: u64, first: Q, second: Q)
    requires n.ab == [OpenStream(id, first), OpenStream(id, second)] && n.b == FreshNode()
    ensures RunWellUsed(n, TakeUpTwice(id))
    ensures var m := After(n, TakeUpTwice(id));
            && m.a == n.a && m.ba == n.ba && m.b.handed == n.ab && m.b.emitted == []
            && m.b.acceptedStreams == [id, id] && m.b.service.outgoingStreams == [Outlet(id, []), Outlet(id, [])]
  {
    hide After, RunWellUsed, Act, WellUsed;
    var steps := TakeUpTwice<P, Q>(id);
    var n1 := Next(n, steps[0]);
    var n2 := Next(n1, steps[1]);
    var n3 := Next(n2, steps[2]);
    var n4 := Next(n3, steps[3]);
    BothTakenUp<Q, P>(id, first, second);
    assert forall s: seq<Message<P>> :: s + [] == s;
    Waiters.From(n, steps, 0);
    Waiters.From(n1, steps, 1);
    Waiters.From(n2, steps, 2);
    Waiters.From(n3, steps, 3);
    Waiters.NoSteps(n4, steps[4..]);
    assert steps[0..] == steps;
  }

  lemma FirstFed<P, Q>(n: Net<P, Q>, id: u64, x: P)
    requires n.a.service.incomingStreams == map[id := 1] && n.a.service.streamed == [] && n.ba == []
    requires n.b.service.outgoingStreams == [Outlet(id, []), Outlet(id, [])] && n.b.emitted == []
    ensures RunWellUsed(n, FeedFirst(x))
    ensures var m := After(n, FeedFirst(x));
            && m.b.handed == n.b.handed && m.b.acceptedStreams == n.b.acceptedStreams && m.b.emitted == [Emitted(id, x)]
            && m.a.service.streamed == [Delivery(1, id, x)]
  {
    hide After, RunWellUsed;
    var steps := FeedFirst<P, Q>(x);
    var n1 := Next(n, steps[0]);
    var n2 := Next(n1, steps[1]);
    var n3 := Next(n2, steps[2]);
    assert n1.b.service.outgoingStreams[0] == Outlet(id, [x]);
    assert n2.ba == [StreamMessage(id, x)];
    Waiters.From(n, steps, 0);
    Waiters.From(n1, steps, 1);
    Waiters.From(n2, steps, 2);
    Waiters.NoSteps(n3, steps[3..]);
    assert steps[0..] == steps;
  }

  /** With a peer that behaves, what it puts in the first of two streams under one id goes to the second's receiver. */
  lemma DuplicateIdMisdelivers<P, Q>(id: u64, first: Q, second: Q, x: P)
    ensures var twice := After(Start<P, Q>(), OpenTwice(id, first, second));
            var takenUp := After(twice, TakeUpTwice(id));
            var n := After(takenUp, FeedFirst(x));
            && RunWellUsed(twice, TakeUpTwice(id)) && RunWellUsed(takenUp, FeedFirst(x))
            && n.b.handed == [OpenStream(id, first), OpenStream(id, second)] && n.b.emitted == [Emitted(id, x)]
            && n.a.service.streamed == [Delivery(1, id, x)] && Displaced(twice.a, 0)
  {
    OpenedTwice<P, Q>(id, first, second);
    var twice := After(Start<P, Q>(), OpenTwice(id, first, second));
    TakenUpTwice(twice, id, first, second);
    FirstFed(After(twice, TakeUpTwice(id)), id, x);
  }
}
