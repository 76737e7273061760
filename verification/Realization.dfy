/** The converse of the refinement: each run of the network of FIFO channels is a run of the stack, if frames fit. */
module Realization {
  import opened Sequences
  import opened Wire
  import opened ConnectionState
  import opened Router
  import opened Network
  import opened S = Stack
  import Pipe
  import Writer

  ghost predicate Fit<M>(c: Pipe.Config<M>, sent: seq<M>) {
    && (forall m :: m in sent ==> c.write.encode(m).Some?)
    && FramesFit(c.write.encode, sent, c.read.bufferSize)
  }

  /** Every message sent in the run encodes, and its frame fits the peer's receive buffer. */
  ghost predicate AllFit<P, Q>(c: Config<P, Q>, n: Net<P, Q>, steps: seq<Network.Step<P, Q>>)
    decreases |steps|
  {
    steps == [] ||
    (match steps[0] {
       case AtA(act) => Fit(c.ab, Act(n.a, act, n.ba).sent)
       case AtB(act) => Fit(c.ba, Act(n.b, act, n.ab).sent)
     } && AllFit(c, Network.Next(n, steps[0]), steps[1..]))
  }

  /** A pipe in order, that has accepted only items whose frames fit. */
  ghost predicate Sane<M>(c: Pipe.Config<M>, p: Pipe.Pipe<M>) {
    Pipe.Coherent(c, p) && FramesFit(c.write.encode, p.w.accepted, c.read.bufferSize)
  }

  ghost predicate BothSane<P, Q>(c: Config<P, Q>, s: Stack<P, Q>) {
    Sane(c.ab, s.ab) && Sane(c.ba, s.ba)
  }

  lemma {:induction false} AfterAppend<P, Q>(c: Config<P, Q>, s: Stack<P, Q>, a: seq<S.Step<P, Q>>,
                                             b: seq<S.Step<P, Q>>)
    ensures S.After(c, s, a + b) == S.After(c, S.After(c, s, a), b)
    decreases |a|
  {
    hide S.Next;
    if a == [] {
      assert a + b == b;
    } else {
      AfterAppend(c, S.Next(c, s, a[0]), a[1..], b);
      assert (a + b)[1..] == a[1..] + b;
    }
  }

  lemma AfterOne<P, Q>(c: Config<P, Q>, s: Stack<P, Q>, step: S.Step<P, Q>)
    ensures S.After(c, s, [step]) == S.Next(c, s, step)
  {
    hide S.Next;
    assert S.After(c, s, [step]) == S.After(c, S.Next(c, s, step), []);
  }

  // ---------------------------------------------------------------- one side of the stack

  /** A side can make room in its outgoing pipe by framing what is queued there. */
  lemma MakeRoom<M(!new)>(c: Pipe.Config<M>, p: Pipe.Pipe<M>)
    requires Faithful(c.write.encode, c.read.decode) && Sane(c, p)
    ensures var z := Pipe.Next(c, p, Pipe.Write(Writer.Process));
            Sane(c, z) && HasRoom(c.write, z.w.side) && Pipe.Contents(c, z) == Pipe.Contents(c, p)
  {
    hide Pipe.Contents, Pipe.Coherent;
    var step := Pipe.Write(Writer.Process);
    Pipe.NextCoherent(c, p, step);
    Pipe.RefinesQueue(c, p, step);
    Pipe.FlushLightens(c.write, p.w.side);
    assert Pipe.Contents(c, p) + [] == Pipe.Contents(c, p);
    assert |p.w.side.queue| <= c.write.queueSize by { QueueBound(c, p); }
  }

  lemma QueueBound<M>(c: Pipe.Config<M>, p: Pipe.Pipe<M>)
    requires Pipe.Coherent(c, p)
    ensures |p.w.side.queue| <= c.write.queueSize
  {
  }

  lemma ReceiveNothing<In, Out>(n: Node<In, Out>)
    ensures Act(n, Receive, []) == Acted(n, [], [])
  {
  }

  lemma SendsOne<In, Out>(n: Node<In, Out>, act: Action<Out>, inbox: seq<Message<In>>)
    ensures |Act(n, act, inbox).sent| <= 1
  {
  }

  /** An enabled action keeps both pipes sane, if what it sends fits. */
  lemma ActOverSane<In(!new), Out(!new)>(c: Pipe.Config<Message<Out>>, d: Pipe.Config<Message<In>>, s: Side<In, Out>,
                                         act: Action<Out>)
    requires Faithful(c.write.encode, c.read.decode) && Faithful(d.write.encode, d.read.decode)
    requires Sane(c, s.out) && Sane(d, s.inp) && Enabled(c, s, act)
    requires Fit(c, Act(s.node, act, Pipe.Contents(d, s.inp)).sent)
    ensures var n := ActOver(c, d, s, act); Sane(c, n.out) && Sane(d, n.inp)
  {
    hide Pipe.Contents, Pipe.Coherent, Act;
    ActOverSimulates(c, d, s, act);
    if !act.Receive? {
      InboxIrrelevant(s.node, act, Pipe.Contents(d, s.inp));
    }
  }

  // ---------------------------------------------------------------- calls along a pipe, seen from the stack

  function AllAlongBA<P, Q>(moves: seq<Pipe.Step<Message<P>>>): (steps: seq<S.Step<P, Q>>)
    ensures |steps| == |moves| && forall i :: 0 <= i < |moves| ==> steps[i] == AlongBA(moves[i])
  {
    if moves == [] then [] else [AlongBA(moves[0])] + AllAlongBA(moves[1..])
  }

  lemma {:induction false} MovesBA<P, Q>(c: Config<P, Q>, s: Stack<P, Q>, moves: seq<Pipe.Step<Message<P>>>)
    requires Pipe.Moves(moves)
    ensures S.After(c, s, AllAlongBA(moves)) == s.(ba := Pipe.After(c.ba, s.ba, moves))
    decreases |moves|
  {
    hide Pipe.Next;
    if moves != [] {
      var steps := AllAlongBA<P, Q>(moves);
      assert steps[1..] == AllAlongBA(moves[1..]);
      assert S.Next(c, s, steps[0]) == s.(ba := Pipe.Next(c.ba, s.ba, moves[0]));
      MovesBA(c, S.Next(c, s, steps[0]), moves[1..]);
    }
  }

  // ---------------------------------------------------------------- one action of endpoint `a`

  lemma EnabledActs<P(!new), Q(!new)>(c: Config<P, Q>, s: Stack<P, Q>, act: Action<Q>)
    requires Sound(c) && BothSane(c, s) && Enabled(c.ab, Side(s.a, s.ab, s.ba), act)
    requires var n := Abstract(c, s); Fit(c.ab, Act(n.a, act, n.ba).sent)
    ensures var z := S.Next(c, s, S.AtA(act));
            BothSane(c, z) && Abstract(c, z) == Network.Next(Abstract(c, s), Network.AtA(act))
  {
    hide Pipe.Contents, Pipe.Coherent, Act, ActOver, Enabled;
    RefinesNetwork(c, s, S.AtA(act));
    ActOverSane(c.ab, c.ba, Side(s.a, s.ab, s.ba), act);
  }

  lemma RealizeReceive<P(!new), Q(!new)>(c: Config<P, Q>, s: Stack<P, Q>) returns (more: seq<S.Step<P, Q>>)
    requires Sound(c) && BothSane(c, s)
    ensures var z := S.After(c, s, more);
            BothSane(c, z) && Abstract(c, z) == Network.Next(Abstract(c, s), Network.AtA(Receive))
  {
    hide Pipe.Contents, Pipe.Coherent, Pipe.After, Act, ActOver, S.Next;
    if Pipe.Contents(c.ba, s.ba) == [] {
      more := [];
      ReceiveNothing(s.a);
      assert Pipe.Contents(c.ab, s.ab) + [] == Pipe.Contents(c.ab, s.ab);
    } else {
      var moves := Pipe.Bring(c.ba, s.ba);
      var brought := s.(ba := Pipe.After(c.ba, s.ba, moves));
      MovesBA(c, s, moves);
      ReceiveSendsNothing(s.a, Pipe.Contents(c.ba, s.ba));
      EnabledActs(c, brought, Receive);
      more := AllAlongBA(moves) + [S.AtA(Receive)];
      AfterAppend(c, s, AllAlongBA(moves), [S.AtA(Receive)]);
      AfterOne(c, brought, S.AtA(Receive));
    }
  }

  lemma ReceiveSendsNothing<In, Out>(n: Node<In, Out>, inbox: seq<Message<In>>)
    ensures Act(n, Receive, inbox).sent == []
  {
  }

  lemma RealizeOther<P(!new), Q(!new)>(c: Config<P, Q>, s: Stack<P, Q>, act: Action<Q>)
    returns (more: seq<S.Step<P, Q>>)
    requires Sound(c) && BothSane(c, s) && !act.Receive?
    requires var n := Abstract(c, s); Fit(c.ab, Act(n.a, act, n.ba).sent)
    ensures var z := S.After(c, s, more);
            BothSane(c, z) && Abstract(c, z) == Network.Next(Abstract(c, s), Network.AtA(act))
  {
    hide Pipe.Contents, Pipe.Coherent, Pipe.After, Act, ActOver, S.After;
    var process := Pipe.Write(Writer.Process);
    var roomy := s.(ab := Pipe.Next(c.ab, s.ab, process));
    MakeRoom(c.ab, s.ab);
    assert S.Next(c, s, AlongAB(process)) == roomy;
    InboxIrrelevant(s.a, act, Pipe.Contents(c.ba, s.ba));
    SendsOne(s.a, act, []);
    EnabledActs(c, roomy, act);
    more := [AlongAB(process)] + [S.AtA(act)];
    AfterAppend(c, s, [AlongAB(process)], [S.AtA(act)]);
    AfterOne(c, s, AlongAB(process));
    AfterOne(c, roomy, S.AtA(act));
  }

  // ---------------------------------------------------------------- the other endpoint, by symmetry

  function Turned<P, Q>(s: Stack<P, Q>): Stack<Q, P> {
    Stack(s.b, s.a, s.ba, s.ab)
  }

  function TurnedConfig<P, Q>(c: Config<P, Q>): Config<Q, P> {
    Config(c.ba, c.ab)
  }

  function TurnedStep<P, Q>(step: S.Step<P, Q>): S.Step<Q, P> {
    match step
    case AtA(act) => S.AtB(act)
    case AtB(act) => S.AtA(act)
    case AlongAB(m) => AlongBA(m)
    case AlongBA(m) => AlongAB(m)
  }

  function TurnedSteps<P, Q>(steps: seq<S.Step<P, Q>>): seq<S.Step<Q, P>> {
    if steps == [] then [] else [TurnedStep(steps[0])] + TurnedSteps(steps[1..])
  }

  lemma {:induction false} AfterTurned<P, Q>(c: Config<P, Q>, s: Stack<P, Q>, steps: seq<S.Step<P, Q>>)
    ensures S.After(TurnedConfig(c), Turned(s), TurnedSteps(steps)) == Turned(S.After(c, s, steps))
    decreases |steps|
  {
    hide ActOver, Move;
    if steps != [] {
      var turned := TurnedSteps(steps);
      assert turned[0] == TurnedStep(steps[0]) && turned[1..] == TurnedSteps(steps[1..]);
      assert S.Next(TurnedConfig(c), Turned(s), turned[0]) == Turned(S.Next(c, s, steps[0]));
      AfterTurned(c, S.Next(c, s, steps[0]), steps[1..]);
    }
  }

  lemma RealizeA<P(!new), Q(!new)>(c: Config<P, Q>, s: Stack<P, Q>, act: Action<Q>) returns (more: seq<S.Step<P, Q>>)
    requires Sound(c) && BothSane(c, s)
    requires var n := Abstract(c, s); Fit(c.ab, Act(n.a, act, n.ba).sent)
    ensures var z := S.After(c, s, more);
            BothSane(c, z) && Abstract(c, z) == Network.Next(Abstract(c, s), Network.AtA(act))
  {
    if act.Receive? {
      more := RealizeReceive(c, s);
    } else {
      more := RealizeOther(c, s, act);
    }
  }

  lemma RealizeB<P(!new), Q(!new)>(c: Config<P, Q>, s: Stack<P, Q>, act: Action<P>) returns (more: seq<S.Step<P, Q>>)
    requires Sound(c) && BothSane(c, s)
    requires var n := Abstract(c, s); Fit(c.ba, Act(n.b, act, n.ab).sent)
    ensures var z := S.After(c, s, more);
            BothSane(c, z) && Abstract(c, z) == Network.Next(Abstract(c, s), Network.AtB(act))
  {
    hide Pipe.Contents, Pipe.Coherent, Act, S.After;
    var turned := RealizeA(TurnedConfig(c), Turned(s), act);
    more := TurnedSteps(turned);
    AfterTurned(TurnedConfig(c), Turned(s), turned);
    assert TurnedConfig(TurnedConfig(c)) == c && Turned(Turned(s)) == s;
  }

  lemma {:induction false} RealizeFrom<P(!new), Q(!new)>(c: Config<P, Q>, s: Stack<P, Q>,
                                                         steps: seq<Network.Step<P, Q>>)
    returns (run: seq<S.Step<P, Q>>)
    requires Sound(c) && BothSane(c, s) && AllFit(c, Abstract(c, s), steps)
    ensures Abstract(c, S.After(c, s, run)) == Network.After(Abstract(c, s), steps)
    decreases |steps|
  {
    hide Sane, Abstract, Fit, Network.Next, S.Next;
    if steps == [] {
      run := [];
    } else {
      var first;
      match steps[0] {
        case AtA(act) =>
          NodesSame(c, s);
          first := RealizeA(c, s, act);
        case AtB(act) =>
          NodesSame(c, s);
          first := RealizeB(c, s, act);
      }
      var z := S.After(c, s, first);
      var later := RealizeFrom(c, z, steps[1..]);
      run := first + later;
      AfterAppend(c, s, first, later);
    }
  }

  lemma NodesSame<P, Q>(c: Config<P, Q>, s: Stack<P, Q>)
    ensures Abstract(c, s).a == s.a && Abstract(c, s).b == s.b
  {
  }

  /**
   * Every run of the network whose messages encode and fit is what some run of the stack looks like: over framed bytes
   * with bounded buffers the endpoints can do whatever they can do over FIFO channels.
   */
  lemma RealizesNetwork<P(!new), Q(!new)>(c: Config<P, Q>, steps: seq<Network.Step<P, Q>>)
    returns (run: seq<S.Step<P, Q>>)
    requires Sound(c) && AllFit(c, Network.Start(), steps)
    ensures Abstract(c, S.After(c, S.Start(), run)) == Network.After(Network.Start(), steps)
  {
    EmptyPipe(c.ab);
    EmptyPipe(c.ba);
    assert Abstract(c, S.Start()) == Network.Start();
    run := RealizeFrom(c, S.Start(), steps);
  }
}
