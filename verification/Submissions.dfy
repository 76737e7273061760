/** What handles submit arrives at the peer's application, in order, in every run whatsoever. */
module Submissions {
  import opened Sequences
  import opened Wire
  import opened Router
  import opened Network

  /** The message a submission is sent as. */
  function Telling<T>(): Interaction<T> -> seq<Message<T>> {
    (x: Interaction<T>) => [MessageOf(x)]
  }

  /** Messages that are not routed to a waiter or receiver. */
  function Submitted<T>(): Message<T> -> seq<Message<T>> {
    (m: Message<T>) => if m.Oneshot? || m.Request? || m.OpenStream? then [m] else []
  }

  /** Handed over, in the channel, and in the interaction queue: together what was submitted, in order. */
  ghost predicate Arriving<P, Q>(client: Node<P, Q>, server: Node<Q, P>, to: seq<Message<Q>>) {
    server.handed + Flat(Submitted(), to) + Flat(Telling(), client.service.interaction)
    == Flat(Telling(), client.submitted)
  }

  lemma SubmitArrives<P, Q>(client: Node<P, Q>, server: Node<Q, P>, to: seq<Message<Q>>, x: Interaction<Q>)
    requires Arriving(client, server, to)
    ensures Arriving(Submit(client, x), server, to)
  {
    hide Flat;
    FlatSnoc(Telling(), client.submitted, x);
    FlatSnoc(Telling(), client.service.interaction, x);
  }

  lemma SendArrives<P, Q>(client: Node<P, Q>, server: Node<Q, P>, to: seq<Message<Q>>, inbox: seq<Message<P>>)
    requires Arriving(client, server, to)
    ensures var t := Act(client, TakeInteraction, inbox); Arriving(t.node, server, to + t.sent)
  {
    hide Flat;
    if client.service.interaction == [] {
      assert to + [] == to;
    } else {
      var x := client.service.interaction[0];
      FlatHead(Telling(), client.service.interaction);
      FlatSnoc(Submitted(), to, MessageOf(x));
      Regroup(server.handed, Flat(Submitted(), to), [MessageOf(x)]);
    }
  }

  predicate Submits<T>(act: Action<T>) {
    act.SubmitOneshot? || act.SubmitRequest? || act.SubmitStream?
  }

  /** No other action of the client sends a message for the application. */
  lemma OtherActs<P, Q>(client: Node<P, Q>, act: Action<Q>, inbox: seq<Message<P>>)
    requires !Submits(act) && !act.TakeInteraction?
    ensures var t := Act(client, act, inbox);
            && t.node.submitted == client.submitted && t.node.service.interaction == client.service.interaction
            && |t.sent| <= 1 && (t.sent != [] ==> Submitted()(t.sent[0]) == [])
  {
  }

  lemma ClientArrives<P, Q>(client: Node<P, Q>, server: Node<Q, P>, to: seq<Message<Q>>, inbox: seq<Message<P>>,
                            act: Action<Q>)
    requires Arriving(client, server, to)
    ensures var t := Act(client, act, inbox); Arriving(t.node, server, to + t.sent)
  {
    hide Flat;
    assert to + [] == to;
    match act
    case SubmitOneshot(message) => SubmitArrives(client, server, to, AskOneshot(message));
    case SubmitRequest(id, data) => SubmitArrives(client, server, to, AskRequest(id, data, |client.submitted|));
    case SubmitStream(id, data) => SubmitArrives(client, server, to, AskStream(id, data, |client.submitted|));
    case TakeInteraction => SendArrives(client, server, to, inbox);
    case _ =>
      OtherActs(client, act, inbox);
      FlatQuietTail(Submitted(), to, Act(client, act, inbox).sent);
  }

  lemma ServerArrives<P, Q>(client: Node<P, Q>, server: Node<Q, P>, to: seq<Message<Q>>, act: Action<P>)
    requires Arriving(client, server, to)
    ensures var t := Act(server, act, to); Arriving(client, t.node, t.inbox)
  {
    hide Flat;
    if act.Receive? && to != [] {
      FlatHead(Submitted(), to);
      Regroup(server.handed, [to[0]], Flat(Submitted(), to[1..]));
    }
  }

  lemma {:induction false} AfterArriving<P, Q>(n: Net<P, Q>, steps: seq<Step<P, Q>>)
    requires Arriving(n.a, n.b, n.ab) && Arriving(n.b, n.a, n.ba)
    ensures var z := After(n, steps); Arriving(z.a, z.b, z.ab) && Arriving(z.b, z.a, z.ba)
    decreases |steps|
  {
    hide Arriving, Act;
    if steps != [] {
      match steps[0] {
        case AtA(act) =>
          ClientArrives(n.a, n.b, n.ab, n.ba, act);
          ServerArrives(n.b, n.a, n.ba, act);
        case AtB(act) =>
          ClientArrives(n.b, n.a, n.ba, n.ab, act);
          ServerArrives(n.a, n.b, n.ab, act);
      }
      AfterArriving(Next(n, steps[0]), steps[1..]);
    }
  }

  /**
   * In every run, well used or not, and in both directions: one-shots, requests and openings reach the peer's
   * application with their data in the order of submission, none lost, repeated or overtaking another.
   */
  lemma SubmissionsArriveInOrder<P, Q>(steps: seq<Step<P, Q>>)
    ensures var n := After(Start<P, Q>(), steps);
            && n.b.handed + Flat(Submitted(), n.ab) + Flat(Telling(), n.a.service.interaction)
               == Flat(Telling(), n.a.submitted)
            && n.a.handed + Flat(Submitted(), n.ba) + Flat(Telling(), n.b.service.interaction)
               == Flat(Telling(), n.b.submitted)
  {
    AfterArriving(Start<P, Q>(), steps);
  }

  // ---------------------------------------------------------------- one kind of submission

  lemma {:induction false} FlatTwice<X, Y, Z>(inner: X -> seq<Y>, outer: Y -> seq<Z>, both: X -> seq<Z>, s: seq<X>)
    requires forall x :: x in s ==> Flat(outer, inner(x)) == both(x)
    ensures Flat(outer, Flat(inner, s)) == Flat(both, s)
  {
    if s != [] {
      assert s[0] in s;
      FlatTwice(inner, outer, both, s[1..]);
      FlatAppend(outer, inner(s[0]), Flat(inner, s[1..]));
    }
  }

  function OneshotIn<T>(): Message<T> -> seq<T> {
    (m: Message<T>) => if m.Oneshot? then [m.message] else []
  }

  function OneshotOf<T>(): Interaction<T> -> seq<T> {
    (x: Interaction<T>) => if x.AskOneshot? then [x.message] else []
  }

  function StreamOf<T>(id: u64): Interaction<T> -> seq<T> {
    (x: Interaction<T>) => if x.AskStream? && x.streamId == id then [x.data] else []
  }

  lemma OfKind<P, Q>(client: Node<P, Q>, server: Node<Q, P>, to: seq<Message<Q>>,
                     wanted: Message<Q> -> seq<Q>, asked: Interaction<Q> -> seq<Q>)
    requires Arriving(client, server, to)
    requires forall m :: Flat(wanted, Submitted()(m)) == wanted(m)
    requires forall x :: Flat(wanted, [MessageOf(x)]) == asked(x)
    ensures Flat(wanted, server.handed) + Flat(wanted, to) + Flat(asked, client.service.interaction)
            == Flat(asked, client.submitted)
  {
    hide Flat;
    var channel, queue := Flat(Submitted(), to), Flat(Telling(), client.service.interaction);
    FlatTwice(Submitted(), wanted, wanted, to);
    FlatTwice(Telling(), wanted, asked, client.service.interaction);
    FlatTwice(Telling(), wanted, asked, client.submitted);
    FlatAppend(wanted, server.handed + channel, queue);
    FlatAppend(wanted, server.handed, channel);
  }

  /** One-shots, in every run. */
  lemma OneshotsArriveInOrder<P, Q>(steps: seq<Step<P, Q>>)
    ensures var n := After(Start<P, Q>(), steps);
            Flat(OneshotIn(), n.b.handed) + Flat(OneshotIn(), n.ab) + Flat(OneshotOf(), n.a.service.interaction)
            == Flat(OneshotOf(), n.a.submitted)
  {
    var n := After(Start<P, Q>(), steps);
    AfterArriving(Start<P, Q>(), steps);
    OfKind(n.a, n.b, n.ab, OneshotIn<Q>(), OneshotOf<Q>());
  }

  /** What streams are opened with, in every run and for every id. */
  lemma OpeningsArriveInOrder<P, Q>(steps: seq<Step<P, Q>>, id: u64)
    ensures var n := After(Start<P, Q>(), steps);
            Flat(OpenIn(id), n.b.handed) + Flat(OpenIn(id), n.ab) + Flat(StreamOf(id), n.a.service.interaction)
            == Flat(StreamOf(id), n.a.submitted)
  {
    var n := After(Start<P, Q>(), steps);
    AfterArriving(Start<P, Q>(), steps);
    OfKind(n.a, n.b, n.ab, OpenIn<Q>(id), StreamOf<Q>(id));
  }
}
