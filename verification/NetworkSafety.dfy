/** Safety of the multiplexer over every run of two endpoints. */
module NetworkSafety {
  import opened Sequences
  import opened Wire
  import opened Router
  import opened Network
  import RequestRouting
  import StreamRouting

  /** Each side's requests and streams are routed, for every id. */
  ghost predicate Routed<P, Q>(x: Node<P, Q>, y: Node<Q, P>, xy: seq<Message<Q>>, yx: seq<Message<P>>) {
    forall id: u64 ::
      RequestRouting.RequestInv(x, y, xy, yx, id) && StreamRouting.StreamInv(x, y, xy, yx, id)
  }

  ghost predicate Safe<P, Q>(x: Node<P, Q>, y: Node<Q, P>, xy: seq<Message<Q>>, yx: seq<Message<P>>) {
    && Routed(x, y, xy, yx) && Routed(y, x, yx, xy)
    && StreamRouting.NoCloses(xy) && StreamRouting.NoCloses(yx)
    && x.service.discarded == [] && y.service.discarded == []
  }

  lemma ClientRouted<P, Q>(x: Node<P, Q>, y: Node<Q, P>, xy: seq<Message<Q>>, yx: seq<Message<P>>, act: Action<Q>)
    requires Routed(x, y, xy, yx) && WellUsed(x, act) && StreamRouting.NoCloses(yx)
    ensures var t := Act(x, act, yx); Routed(t.node, y, xy + t.sent, t.inbox)
  {
    var t := Act(x, act, yx);
    forall id: u64
      ensures RequestRouting.RequestInv(t.node, y, xy + t.sent, t.inbox, id)
           && StreamRouting.StreamInv(t.node, y, xy + t.sent, t.inbox, id)
    {
      RequestRouting.ClientKeeps(x, y, xy, yx, id, act);
      StreamRouting.ClientKeeps(x, y, xy, yx, id, act);
    }
  }

  lemma ServerRouted<P, Q>(x: Node<P, Q>, y: Node<Q, P>, xy: seq<Message<Q>>, yx: seq<Message<P>>, act: Action<Q>)
    requires Routed(y, x, yx, xy) && WellUsed(x, act)
    ensures var t := Act(x, act, yx); Routed(y, t.node, t.inbox, xy + t.sent)
  {
    var t := Act(x, act, yx);
    forall id: u64
      ensures RequestRouting.RequestInv(y, t.node, t.inbox, xy + t.sent, id)
           && StreamRouting.StreamInv(y, t.node, t.inbox, xy + t.sent, id)
    {
      RequestRouting.ServerKeeps(y, x, yx, xy, id, act);
      StreamRouting.ServerKeeps(y, x, yx, xy, id, act);
    }
  }

  /** A routed endpoint knows the id of every response and stream item it receives. */
  lemma NothingUnknown<P, Q>(x: Node<P, Q>, y: Node<Q, P>, xy: seq<Message<Q>>, yx: seq<Message<P>>)
    requires Routed(x, y, xy, yx) && StreamRouting.NoCloses(yx) && yx != []
    ensures Route(x.service, yx[0]).discarded == x.service.discarded && !Panics(x.service, yx[0])
  {
    var m := yx[0];
    if m.Response? {
      RequestRouting.ClientReceives(x, y, xy, yx, m.requestId);
    } else if m.StreamMessage? {
      StreamRouting.ClientReceives(x, y, xy, yx, m.streamId);
    }
  }

  lemma ActSafe<P, Q>(x: Node<P, Q>, y: Node<Q, P>, xy: seq<Message<Q>>, yx: seq<Message<P>>, act: Action<Q>)
    requires Safe(x, y, xy, yx) && WellUsed(x, act)
    ensures var t := Act(x, act, yx); Safe(t.node, y, xy + t.sent, t.inbox)
  {
    ClientRouted(x, y, xy, yx, act);
    ServerRouted(x, y, xy, yx, act);
    if act.Receive? && yx != [] {
      NothingUnknown(x, y, xy, yx);
    }
  }

  ghost predicate NetSafe<P, Q>(n: Net<P, Q>) {
    Safe(n.a, n.b, n.ab, n.ba)
  }

  ghost predicate StepWellUsed<P, Q>(n: Net<P, Q>, s: Step<P, Q>) {
    match s
    case AtA(act) => WellUsed(n.a, act)
    case AtB(act) => WellUsed(n.b, act)
  }

  /** A run in which both applications keep to what is expected of them. */
  ghost predicate RunWellUsed<P, Q>(n: Net<P, Q>, steps: seq<Step<P, Q>>)
    decreases |steps|
  {
    steps == [] || (StepWellUsed(n, steps[0]) && RunWellUsed(Next(n, steps[0]), steps[1..]))
  }

  lemma NextSafe<P, Q>(n: Net<P, Q>, s: Step<P, Q>)
    requires NetSafe(n) && StepWellUsed(n, s)
    ensures NetSafe(Next(n, s))
  {
    match s
    case AtA(act) => ActSafe(n.a, n.b, n.ab, n.ba, act);
    case AtB(act) => ActSafe(n.b, n.a, n.ba, n.ab, act);
  }

  lemma {:induction false} AfterSafe<P, Q>(n: Net<P, Q>, steps: seq<Step<P, Q>>)
    requires NetSafe(n) && RunWellUsed(n, steps)
    ensures NetSafe(After(n, steps))
    decreases |steps|
  {
    if steps != [] {
      NextSafe(n, steps[0]);
      AfterSafe(Next(n, steps[0]), steps[1..]);
    }
  }

  lemma StartSafe<P, Q>()
    ensures NetSafe<P, Q>(Start())
  {
    forall id: u64
      ensures RequestRouting.RequestInv<P, Q>(FreshNode(), FreshNode(), [], [], id)
           && StreamRouting.StreamInv<P, Q>(FreshNode(), FreshNode(), [], [], id)
    {
    }
    forall id: u64
      ensures RequestRouting.RequestInv<Q, P>(FreshNode(), FreshNode(), [], [], id)
           && StreamRouting.StreamInv<Q, P>(FreshNode(), FreshNode(), [], [], id)
    {
    }
  }

  // ---------------------------------------------------------------- what every run guarantees

  /** No message is dropped for an unknown id, and no stream that is not registered is ever closed. */
  lemma NothingDiscarded<P, Q>(steps: seq<Step<P, Q>>)
    requires RunWellUsed(Start(), steps)
    ensures var n := After(Start<P, Q>(), steps);
            && n.a.service.discarded == [] && n.b.service.discarded == []
            && (n.ba != [] ==> !Panics(n.a.service, n.ba[0]))
            && (n.ab != [] ==> !Panics(n.b.service, n.ab[0]))
  {
    StartSafe<P, Q>();
    AfterSafe(Start<P, Q>(), steps);
  }

  /** Requests and responses, for every id: see `Matched`. */
  lemma ResponsesReachTheirWaiters<P, Q>(steps: seq<Step<P, Q>>, id: u64)
    requires RunWellUsed(Start(), steps)
    ensures var n := After(Start<P, Q>(), steps);
            RequestRouting.Matched(
              RequestRouting.RequestsOf(n.a, n.b, n.ab, n.ba, id), n.a.service.incomingResponses, id)
    ensures var n := After(Start<P, Q>(), steps);
            RequestRouting.Matched(
              RequestRouting.RequestsOf(n.b, n.a, n.ba, n.ab, id), n.b.service.incomingResponses, id)
  {
    StartSafe<P, Q>();
    AfterSafe(Start<P, Q>(), steps);
    var n := After(Start<P, Q>(), steps);
    RequestsMatch(n.a, n.b, n.ab, n.ba, id);
    RequestsMatch(n.b, n.a, n.ba, n.ab, id);
  }

  lemma RequestsMatch<P, Q>(x: Node<P, Q>, y: Node<Q, P>, xy: seq<Message<Q>>, yx: seq<Message<P>>, id: u64)
    requires Routed(x, y, xy, yx)
    ensures RequestRouting.Matched(RequestRouting.RequestsOf(x, y, xy, yx, id), x.service.incomingResponses, id)
  {
    assert RequestRouting.RequestInv(x, y, xy, yx, id);
    RequestRouting.RoutedMatches(RequestRouting.RequestsOf(x, y, xy, yx, id), x.service.incomingResponses, id);
  }

  /** Stream items, for every id and both directions: see `Matched`. */
  lemma StreamsArriveInOrder<P, Q>(steps: seq<Step<P, Q>>, id: u64)
    requires RunWellUsed(Start(), steps)
    ensures var n := After(Start<P, Q>(), steps);
            StreamRouting.Matched(StreamRouting.StreamWith(n.a, n.b, n.ab, n.ba, id), n.a.service.incomingStreams, id)
    ensures var n := After(Start<P, Q>(), steps);
            StreamRouting.Matched(StreamRouting.StreamWith(n.b, n.a, n.ba, n.ab, id), n.b.service.incomingStreams, id)
  {
    StartSafe<P, Q>();
    AfterSafe(Start<P, Q>(), steps);
    var n := After(Start<P, Q>(), steps);
    StreamsMatch(n.a, n.b, n.ab, n.ba, id);
    StreamsMatch(n.b, n.a, n.ba, n.ab, id);
  }

  lemma StreamsMatch<P, Q>(x: Node<P, Q>, y: Node<Q, P>, xy: seq<Message<Q>>, yx: seq<Message<P>>, id: u64)
    requires Routed(x, y, xy, yx)
    ensures StreamRouting.Matched(StreamRouting.StreamWith(x, y, xy, yx, id), x.service.incomingStreams, id)
  {
    assert StreamRouting.StreamInv(x, y, xy, yx, id);
    StreamRouting.RoutedMatches(StreamRouting.StreamWith(x, y, xy, yx, id), x.service.incomingStreams, id);
  }
}
