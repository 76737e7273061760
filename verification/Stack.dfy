/**
 * The whole stack: two service endpoints over two framed byte pipes. Every run of it is, seen from the endpoints,
 * a run of the network of FIFO channels, so what holds there holds over the wire.
 */
module Stack {
  import opened Sequences
  import opened Wire
  import opened ConnectionState
  import opened Router
  import opened Network
  import Pipe
  import Writer
  import NetworkSafety
  import RequestRouting
  import StreamRouting
  import Submissions

  datatype Config<!P, !Q> = Config(ab: Pipe.Config<Message<Q>>, ba: Pipe.Config<Message<P>>)

  datatype Stack<P, Q> = Stack(a: Node<P, Q>, b: Node<Q, P>, ab: Pipe.Pipe<Message<Q>>, ba: Pipe.Pipe<Message<P>>)

  /** Actions of the nodes, and the calls that move frames and bytes along a pipe. */
  datatype Step<+P, +Q> =
    | AtA(atA: Action<Q>)
    | AtB(atB: Action<P>)
    | AlongAB(ab: Pipe.Step<Message<Q>>)
    | AlongBA(ba: Pipe.Step<Message<P>>)

  datatype Side<In, Out> = Side(node: Node<In, Out>, out: Pipe.Pipe<Message<Out>>, inp: Pipe.Pipe<Message<In>>)

  /** A service receives what has been decoded, and sends what its connection has room for and can encode. */
  predicate Enabled<In, Out>(c: Pipe.Config<Message<Out>>, s: Side<In, Out>, act: Action<Out>) {
    if act.Receive? then s.inp.r.side.queue != []
    else
      var sent := Act(s.node, act, []).sent;
      sent == [] || (|sent| == 1 && HasRoom(c.write, s.out.w.side) && c.write.encode(sent[0]).Some?)
  }

  function ActOver<In, Out>(c: Pipe.Config<Message<Out>>, d: Pipe.Config<Message<In>>, s: Side<In, Out>,
                            act: Action<Out>)
    : Side<In, Out>
  {
    if !Enabled(c, s, act) then s
    else if act.Receive? then
      Side(Act(s.node, Receive, s.inp.r.side.queue[..1]).node, s.out, Pipe.Next(d, s.inp, Pipe.ConsumeItem))
    else
      var t := Act(s.node, act, []);
      Side(t.node,
           if t.sent == [] then s.out else Pipe.Next(c, s.out, Pipe.Write(Writer.FeedItem(t.sent[0]))),
           s.inp)
  }

  /** A call along a pipe neither feeds nor consumes an item: those are the nodes' doing. */
  function Move<M>(c: Pipe.Config<M>, p: Pipe.Pipe<M>, s: Pipe.Step<M>): Pipe.Pipe<M> {
    if Pipe.Feeds(s) || s.ConsumeItem? then p else Pipe.Next(c, p, s)
  }

  function Next<P, Q>(c: Config<P, Q>, s: Stack<P, Q>, step: Step<P, Q>): Stack<P, Q> {
    match step
    case AtA(act) => var t := ActOver(c.ab, c.ba, Side(s.a, s.ab, s.ba), act); Stack(t.node, s.b, t.out, t.inp)
    case AtB(act) => var t := ActOver(c.ba, c.ab, Side(s.b, s.ba, s.ab), act); Stack(s.a, t.node, t.inp, t.out)
    case AlongAB(m) => s.(ab := Move(c.ab, s.ab, m))
    case AlongBA(m) => s.(ba := Move(c.ba, s.ba, m))
  }

  function After<P, Q>(c: Config<P, Q>, s: Stack<P, Q>, steps: seq<Step<P, Q>>): Stack<P, Q>
    decreases |steps|
  {
    if steps == [] then s else After(c, Next(c, s, steps[0]), steps[1..])
  }

  function Start<P, Q>(): Stack<P, Q> {
    Stack(FreshNode(), FreshNode(), Pipe.Start(), Pipe.Start())
  }

  // ---------------------------------------------------------------- the network it refines

  /** The nodes, and the items on their way in each pipe. */
  function Abstract<P, Q>(c: Config<P, Q>, s: Stack<P, Q>): Net<P, Q> {
    Net(s.a, s.b, Pipe.Contents(c.ab, s.ab), Pipe.Contents(c.ba, s.ba))
  }

  ghost predicate Sound<P(!new), Q(!new)>(c: Config<P, Q>) {
    && Faithful(c.ab.write.encode, c.ab.read.decode)
    && Faithful(c.ba.write.encode, c.ba.read.decode)
  }

  ghost predicate Coherent<P, Q>(c: Config<P, Q>, s: Stack<P, Q>) {
    Pipe.Coherent(c.ab, s.ab) && Pipe.Coherent(c.ba, s.ba)
  }

  lemma MoveKeepsContents<M(!new)>(c: Pipe.Config<M>, p: Pipe.Pipe<M>, s: Pipe.Step<M>)
    requires Faithful(c.write.encode, c.read.decode) && Pipe.Coherent(c, p)
    ensures Pipe.Coherent(c, Move(c, p, s)) && Pipe.Contents(c, Move(c, p, s)) == Pipe.Contents(c, p)
  {
    if !Pipe.Feeds(s) && !s.ConsumeItem? {
      Pipe.NextCoherent(c, p, s);
      Pipe.RefinesQueue(c, p, s);
      assert Pipe.Contents(c, p) + [] == Pipe.Contents(c, p);
    }
  }

  /** Apart from receiving, an action does not look at the channel. */
  lemma InboxIrrelevant<In, Out>(n: Node<In, Out>, act: Action<Out>, inbox: seq<Message<In>>)
    requires !act.Receive?
    ensures var t, u := Act(n, act, []), Act(n, act, inbox);
            t.node == u.node && t.sent == u.sent && u.inbox == inbox
  {
  }

  lemma ReceiveLooksAtHead<In, Out>(n: Node<In, Out>, inbox: seq<Message<In>>, head: seq<Message<In>>)
    requires inbox != [] && head == [inbox[0]]
    ensures var u := Act(n, Receive, inbox);
            Act(n, Receive, head).node == u.node && u.sent == [] && u.inbox == inbox[1..]
  {
  }

  /** An enabled action does to node and channels exactly what it does in the network. */
  lemma ActOverSimulates<In(!new), Out(!new)>(c: Pipe.Config<Message<Out>>, d: Pipe.Config<Message<In>>,
                                              s: Side<In, Out>, act: Action<Out>)
    requires Faithful(c.write.encode, c.read.decode) && Faithful(d.write.encode, d.read.decode)
    requires Pipe.Coherent(c, s.out) && Pipe.Coherent(d, s.inp)
    requires Enabled(c, s, act)
    ensures var n := ActOver(c, d, s, act);
            var t := Act(s.node, act, Pipe.Contents(d, s.inp));
            && Pipe.Coherent(c, n.out) && Pipe.Coherent(d, n.inp)
            && n.node == t.node
            && Pipe.Contents(c, n.out) == Pipe.Contents(c, s.out) + t.sent
            && Pipe.Contents(d, n.inp) == t.inbox
  {
    hide Pipe.Contents, Pipe.Coherent, Act;
    var contents := Pipe.Contents(d, s.inp);
    if act.Receive? {
      Pipe.NextCoherent(d, s.inp, Pipe.ConsumeItem);
      Pipe.RefinesQueue(d, s.inp, Pipe.ConsumeItem);
      Pipe.HeadOfContents(d, s.inp);
      ReceiveLooksAtHead(s.node, contents, s.inp.r.side.queue[..1]);
      assert Pipe.Contents(c, s.out) + [] == Pipe.Contents(c, s.out);
    } else {
      InboxIrrelevant(s.node, act, contents);
      var sent := Act(s.node, act, []).sent;
      if sent == [] {
        assert Pipe.Contents(c, s.out) + [] == Pipe.Contents(c, s.out);
      } else {
        var feed := Pipe.Write(Writer.FeedItem(sent[0]));
        Pipe.NextCoherent(c, s.out, feed);
        Pipe.RefinesQueue(c, s.out, feed);
        assert sent == [sent[0]];
      }
    }
  }

  /** The network step that a step of the stack amounts to, if any. */
  function Visible<P, Q>(c: Config<P, Q>, s: Stack<P, Q>, step: Step<P, Q>): Option<Network.Step<P, Q>> {
    match step
    case AtA(act) => if Enabled(c.ab, Side(s.a, s.ab, s.ba), act) then Some(Network.AtA(act)) else None
    case AtB(act) => if Enabled(c.ba, Side(s.b, s.ba, s.ab), act) then Some(Network.AtB(act)) else None
    case _ => None
  }

  /** Refinement: each step of the stack is a step of the network, or invisible in it. */
  lemma RefinesNetwork<P(!new), Q(!new)>(c: Config<P, Q>, s: Stack<P, Q>, step: Step<P, Q>)
    requires Sound(c) && Coherent(c, s)
    ensures Coherent(c, Next(c, s, step))
    ensures Abstract(c, Next(c, s, step)) ==
            match Visible(c, s, step)
            case Some(seen) => Network.Next(Abstract(c, s), seen)
            case None => Abstract(c, s)
  {
    match step
    case AtA(act) =>
      if Enabled(c.ab, Side(s.a, s.ab, s.ba), act) {
        ActOverSimulates(c.ab, c.ba, Side(s.a, s.ab, s.ba), act);
      }
    case AtB(act) =>
      if Enabled(c.ba, Side(s.b, s.ba, s.ab), act) {
        ActOverSimulates(c.ba, c.ab, Side(s.b, s.ba, s.ab), act);
      }
    case AlongAB(m) => MoveKeepsContents(c.ab, s.ab, m);
    case AlongBA(m) => MoveKeepsContents(c.ba, s.ba, m);
  }

  ghost predicate StepWellUsed<P, Q>(s: Stack<P, Q>, step: Step<P, Q>) {
    match step
    case AtA(act) => WellUsed(s.a, act)
    case AtB(act) => WellUsed(s.b, act)
    case _ => true
  }

  ghost predicate RunWellUsed<P, Q>(c: Config<P, Q>, s: Stack<P, Q>, steps: seq<Step<P, Q>>)
    decreases |steps|
  {
    steps == [] || (StepWellUsed(s, steps[0]) && RunWellUsed(c, Next(c, s, steps[0]), steps[1..]))
  }

  /** The network run behind a run of the stack. */
  lemma {:induction false} Behind<P(!new), Q(!new)>(c: Config<P, Q>, s: Stack<P, Q>, steps: seq<Step<P, Q>>)
    returns (seen: seq<Network.Step<P, Q>>)
    requires Sound(c) && Coherent(c, s)
    ensures RunWellUsed(c, s, steps) ==> NetworkSafety.RunWellUsed(Abstract(c, s), seen)
    ensures Network.After(Abstract(c, s), seen) == Abstract(c, After(c, s, steps))
    decreases |steps|
  {
    if steps == [] {
      seen := [];
    } else {
      RefinesNetwork(c, s, steps[0]);
      var later := Behind(c, Next(c, s, steps[0]), steps[1..]);
      match Visible(c, s, steps[0])
      case None =>
        seen := later;
      case Some(first) =>
        seen := [first] + later;
        assert seen[1..] == later;
    }
  }

  /**
   * End to end: over framed bytes, with every chunking, interleaving and backpressure, requests of both endpoints are
   * matched to their responses and stream items arrive in order, for every id, and nothing is discarded as unknown.
   */
  lemma RoutingOverTheWire<P(!new), Q(!new)>(c: Config<P, Q>, steps: seq<Step<P, Q>>, id: u64)
    requires Sound(c) && RunWellUsed(c, Start(), steps)
    ensures var n := Abstract(c, After(c, Start(), steps));
            && n.a.service.discarded == [] && n.b.service.discarded == []
            && RequestRouting.Matched(
                 RequestRouting.RequestsOf(n.a, n.b, n.ab, n.ba, id), n.a.service.incomingResponses, id)
            && StreamRouting.Matched(
                 StreamRouting.StreamWith(n.a, n.b, n.ab, n.ba, id), n.a.service.incomingStreams, id)
            && RequestRouting.Matched(
                 RequestRouting.RequestsOf(n.b, n.a, n.ba, n.ab, id), n.b.service.incomingResponses, id)
            && StreamRouting.Matched(
                 StreamRouting.StreamWith(n.b, n.a, n.ba, n.ab, id), n.b.service.incomingStreams, id)
  {
    EmptyPipe(c.ab);
    EmptyPipe(c.ba);
    assert Abstract(c, Start()) == Network.Start();
    var seen := Behind(c, Start(), steps);
    NetworkSafety.NothingDiscarded(seen);
    NetworkSafety.ResponsesReachTheirWaiters(seen, id);
    NetworkSafety.StreamsArriveInOrder(seen, id);
  }

  /**
   * The same for what handles submit, in every run, well used or not: over framed bytes it reaches the peer's
   * application in order and with its data, nothing lost or repeated.
   */
  lemma SubmissionsOverTheWire<P(!new), Q(!new)>(c: Config<P, Q>, steps: seq<Step<P, Q>>)
    requires Sound(c)
    ensures var n := Abstract(c, After(c, Start(), steps));
            && Submissions.Arriving(n.a, n.b, n.ab) && Submissions.Arriving(n.b, n.a, n.ba)
            && n.b.handed <= Flat(Submissions.Telling(), n.a.submitted)
            && n.a.handed <= Flat(Submissions.Telling(), n.b.submitted)
  {
    EmptyPipe(c.ab);
    EmptyPipe(c.ba);
    assert Abstract(c, Start()) == Network.Start();
    var seen := Behind(c, Start(), steps);
    Submissions.SubmissionsArriveInOrder(seen);
  }

  lemma EmptyPipe<M>(c: Pipe.Config<M>)
    ensures Pipe.Coherent(c, Pipe.Start()) && Pipe.Contents(c, Pipe.Start()) == []
  {
  }
}
