/** What becomes of the waiters of requests in any run, and exactly what distinct request ids are needed for. */
module Waiters {
  import opened Sequences
  import opened Wire
  import opened Router
  import opened Network
  import opened NetworkSafety
  import RequestRouting

  // ---------------------------------------------------------------- where a waiter is

  datatype Place = Queued(i: nat) | Registered(id: u64) | Answered(k: nat)

  predicate At<In, Out>(e: Endpoint<In, Out>, p: Place, waiter: nat) {
    match p
    case Queued(i) => i < |e.interaction| && e.interaction[i].AskRequest? && e.interaction[i].waiter == waiter
    case Registered(id) => id in e.incomingResponses && e.incomingResponses[id] == waiter
    case Answered(k) => k < |e.answered| && e.answered[k].waiter == waiter
  }

  /** The request id a place belongs to. */
  function IdAt<In, Out>(e: Endpoint<In, Out>, p: Place, waiter: nat): u64
    requires At(e, p, waiter)
  {
    match p
    case Queued(i) => e.interaction[i].requestId
    case Registered(id) => id
    case Answered(k) => e.answered[k].requestId
  }

  predicate Asks<In, Out>(n: Node<In, Out>, waiter: nat, id: u64) {
    && waiter < |n.submitted| && n.submitted[waiter].AskRequest?
    && n.submitted[waiter].requestId == id && n.submitted[waiter].waiter == waiter
  }

  /** Each waiter is in one place at most, under the id it was submitted with. */
  ghost predicate Placed<In, Out>(n: Node<In, Out>) {
    && (forall p, w :: At(n.service, p, w) ==> Asks(n, w, IdAt(n.service, p, w)))
    && (forall p, q, w :: At(n.service, p, w) && At(n.service, q, w) ==> p == q)
  }

  /** Submitted, and neither answered nor anywhere an answer could still find it. */
  ghost predicate Lost<In, Out>(n: Node<In, Out>, waiter: nat) {
    waiter < |n.submitted| && forall p :: !At(n.service, p, waiter)
  }

  /** The action routes a response that comes for a registered waiter of the id. */
  predicate Answers<In, Out>(n: Node<In, Out>, act: Action<Out>, inbox: seq<Message<In>>, id: u64) {
    && act.Receive? && inbox != [] && inbox[0].Response?
    && inbox[0].requestId == id && id in n.service.incomingResponses
  }

  /** The action sends a request under the id. */
  predicate Registers<In, Out>(n: Node<In, Out>, act: Action<Out>, id: u64) {
    && act.TakeInteraction? && n.service.interaction != []
    && n.service.interaction[0].AskRequest? && n.service.interaction[0].requestId == id
  }

  /** The place from which an action brings a waiter to `p`. */
  function Origin<In, Out>(n: Node<In, Out>, act: Action<Out>, inbox: seq<Message<In>>, p: Place): Place {
    match p
    case Queued(i) => if act.TakeInteraction? && n.service.interaction != [] then Queued(i + 1) else p
    case Registered(id) => if Registers(n, act, id) then Queued(0) else p
    case Answered(k) =>
      if k == |n.service.answered| && act.Receive? && inbox != [] && inbox[0].Response?
      then Registered(inbox[0].requestId)
      else p
  }

  predicate Arises<In, Out>(n: Node<In, Out>, act: Action<Out>, p: Place, waiter: nat) {
    act.SubmitRequest? && p == Queued(|n.service.interaction|) && waiter == |n.submitted|
  }

  /** Waiters come from the place of origin, or are new. */
  lemma ActMoves<In, Out>(n: Node<In, Out>, act: Action<Out>, inbox: seq<Message<In>>, p: Place, waiter: nat)
    requires At(Act(n, act, inbox).node.service, p, waiter) && !Arises(n, act, p, waiter)
    ensures var t, from := Act(n, act, inbox).node, Origin(n, act, inbox, p);
            At(n.service, from, waiter) && IdAt(n.service, from, waiter) == IdAt(t.service, p, waiter)
  {
  }

  lemma OriginsDiffer<In, Out>(n: Node<In, Out>, act: Action<Out>, inbox: seq<Message<In>>, p: Place, q: Place,
                               waiter: nat)
    requires var t := Act(n, act, inbox).node; At(t.service, p, waiter) && At(t.service, q, waiter)
    requires Origin(n, act, inbox, p) == Origin(n, act, inbox, q)
    ensures p == q
  {
  }

  lemma ActPlaced<In, Out>(n: Node<In, Out>, act: Action<Out>, inbox: seq<Message<In>>)
    requires Placed(n)
    ensures Placed(Act(n, act, inbox).node)
  {
    var t := Act(n, act, inbox).node;
    assert n.submitted <= t.submitted;
    forall p, w | At(t.service, p, w) ensures Asks(t, w, IdAt(t.service, p, w)) {
      if !Arises(n, act, p, w) {
        ActMoves(n, act, inbox, p, w);
      }
    }
    forall p, q, w | At(t.service, p, w) && At(t.service, q, w) ensures p == q {
      if !Arises(n, act, p, w) {
        ActMoves(n, act, inbox, p, w);
      }
      if !Arises(n, act, q, w) {
        ActMoves(n, act, inbox, q, w);
      }
      if !Arises(n, act, p, w) && !Arises(n, act, q, w) {
        OriginsDiffer(n, act, inbox, p, q, w);
      }
    }
  }

  lemma {:induction false} AfterPlaced<P, Q>(n: Net<P, Q>, steps: seq<Step<P, Q>>)
    requires Placed(n.a)
    ensures Placed(After(n, steps).a)
    decreases |steps|
  {
    hide Placed, Act;
    if steps != [] {
      if steps[0].AtA? {
        ActPlaced(n.a, steps[0].atA, n.ba);
      }
      AfterPlaced(Next(n, steps[0]), steps[1..]);
    }
  }

  /** Whatever applications do, a waiter is never in two places, and never under another id than its own. */
  lemma OnePlaceAlways<P, Q>(steps: seq<Step<P, Q>>)
    ensures Placed(After(Start<P, Q>(), steps).a)
  {
    AfterPlaced(Start<P, Q>(), steps);
  }

  /** Once lost, lost for ever. */
  lemma {:induction false} LostForEver<P, Q>(n: Net<P, Q>, more: seq<Step<P, Q>>, waiter: nat)
    requires Lost(n.a, waiter)
    ensures Lost(After(n, more).a, waiter)
    decreases |more|
  {
    if more != [] {
      var m := Next(n, more[0]);
      if more[0].AtA? {
        forall p ensures !At(m.a.service, p, waiter) {
          if At(m.a.service, p, waiter) {
            ActMoves(n.a, more[0].atA, n.ba, p, waiter);
          }
        }
      }
      LostForEver(m, more[1..], waiter);
    }
  }

  // ---------------------------------------------------------------- the fate of a registered waiter

  datatype Fate<+T> = Remaining | Given(data: T) | Displaced

  /** The first action of the run that concerns the id decides: a response under it is routed, or a request sent. */
  function FateOf<P, Q>(n: Net<P, Q>, more: seq<Step<P, Q>>, id: u64): Fate<P>
    decreases |more|
  {
    if more == [] then Remaining
    else if more[0].AtA? && Answers(n.a, more[0].atA, n.ba, id) then Given(n.ba[0].data)
    else if more[0].AtA? && Registers(n.a, more[0].atA, id) then Displaced
    else FateOf(Next(n, more[0]), more[1..], id)
  }

  lemma StaysRegistered<In, Out>(n: Node<In, Out>, act: Action<Out>, inbox: seq<Message<In>>, id: u64, waiter: nat)
    requires At(n.service, Registered(id), waiter)
    requires !Answers(n, act, inbox, id) && !Registers(n, act, id)
    ensures At(Act(n, act, inbox).node.service, Registered(id), waiter)
  {
  }

  lemma IsDisplaced<In, Out>(n: Node<In, Out>, act: Action<Out>, inbox: seq<Message<In>>, id: u64, waiter: nat)
    requires Placed(n) && At(n.service, Registered(id), waiter) && Registers(n, act, id)
    ensures Lost(Act(n, act, inbox).node, waiter)
  {
    var t := Act(n, act, inbox).node;
    assert t.submitted == n.submitted;
    forall p ensures !At(t.service, p, waiter) {
      if At(t.service, p, waiter) {
        ActMoves(n, act, inbox, p, waiter);
      }
    }
  }

  lemma IsAnswered<In, Out>(n: Node<In, Out>, act: Action<Out>, inbox: seq<Message<In>>, id: u64, waiter: nat)
    requires At(n.service, Registered(id), waiter) && Answers(n, act, inbox, id)
    ensures Answer(waiter, id, inbox[0].data) in Act(n, act, inbox).node.service.answered
  {
    var t := Act(n, act, inbox).node;
    assert t.service.answered[|n.service.answered|] == Answer(waiter, id, inbox[0].data);
  }

  lemma ActAnswers<In, Out>(n: Node<In, Out>, act: Action<Out>, inbox: seq<Message<In>>)
    ensures n.service.answered <= Act(n, act, inbox).node.service.answered
  {
  }

  lemma {:induction false} AnswersStay<P, Q>(n: Net<P, Q>, more: seq<Step<P, Q>>, a: Answer<P>)
    requires a in n.a.service.answered
    ensures a in After(n, more).a.service.answered
    decreases |more|
  {
    hide Act;
    if more != [] {
      if more[0].AtA? {
        ActAnswers(n.a, more[0].atA, n.ba);
      }
      AnswersStay(Next(n, more[0]), more[1..], a);
    }
  }

  lemma {:induction false} FateFrom<P, Q>(n: Net<P, Q>, more: seq<Step<P, Q>>, id: u64, waiter: nat)
    requires Placed(n.a) && At(n.a.service, Registered(id), waiter)
    ensures var z := After(n, more).a;
            match FateOf(n, more, id)
            case Remaining => At(z.service, Registered(id), waiter)
            case Given(data) => Answer(waiter, id, data) in z.service.answered
            case Displaced => Lost(z, waiter)
    decreases |more|
  {
    hide Act, Placed, Lost;
    if more != [] {
      var m, later := Next(n, more[0]), more[1..];
      match more[0] {
        case AtA(act) =>
          if Answers(n.a, act, n.ba, id) {
            IsAnswered(n.a, act, n.ba, id, waiter);
            AnswersStay(m, later, Answer(waiter, id, n.ba[0].data));
          } else if Registers(n.a, act, id) {
            IsDisplaced(n.a, act, n.ba, id, waiter);
            LostForEver(m, later, waiter);
          } else {
            StaysRegistered(n.a, act, n.ba, id, waiter);
            ActPlaced(n.a, act, n.ba);
            FateFrom(m, later, id, waiter);
          }
        case AtB(_) => FateFrom(m, later, id, waiter);
      }
    }
  }

  /**
   * In every run, well used or not, a registered waiter waits exactly until a response under its id is routed,
   * whichever request that answers, or another request is sent under its id. In the first case it has been given that
   * response, and only that one; in the second it is lost.
   */
  lemma WaiterFate<P, Q>(steps: seq<Step<P, Q>>, id: u64, more: seq<Step<P, Q>>)
    requires id in After(Start<P, Q>(), steps).a.service.incomingResponses
    ensures var n := After(Start<P, Q>(), steps);
            var w, z, fate := n.a.service.incomingResponses[id], After(n, more).a, FateOf(n, more, id);
            && (fate.Remaining? <==> At(z.service, Registered(id), w))
            && (fate.Given? <==> exists k: nat :: At(z.service, Answered(k), w))
            && (forall k: nat :: At(z.service, Answered(k), w) ==>
                  fate.Given? && z.service.answered[k] == Answer(w, id, fate.data))
            && (fate.Displaced? <==> Lost(z, w))
  {
    var n := After(Start<P, Q>(), steps);
    var w, z, fate := n.a.service.incomingResponses[id], After(n, more).a, FateOf(n, more, id);
    OnePlaceAlways(steps);
    FateFrom(n, more, id, w);
    AfterPlaced(n, more);
    if fate.Given? {
      var k :| 0 <= k < |z.service.answered| && z.service.answered[k] == Answer(w, id, fate.data);
      assert At(z.service, Answered(k), w);
    }
  }

  // ---------------------------------------------------------------- exactly when nobody is lost

  ghost predicate NoneLost<In, Out>(n: Node<In, Out>, id: u64) {
    forall w :: w in Flat(WaiterOf(id), n.submitted) ==> !Lost(n, w)
  }

  /** In a routed network every waiter is somewhere; the waiter of an outstanding request has not been answered. */
  lemma WaiterPlace<P, Q>(n: Net<P, Q>, id: u64, j: nat) returns (p: Place)
    requires NetSafe(n) && j < |Flat(WaiterOf(id), n.a.submitted)|
    ensures var w := Flat(WaiterOf(id), n.a.submitted)[j];
            At(n.a.service, p, w) && IdAt(n.a.service, p, w) == id
    ensures p.Answered? <==> j < |Flat(AnswerWaiter(id), n.a.service.answered)|
  {
    hide Flat;
    assert RequestRouting.RequestInv(n.a, n.b, n.ab, n.ba, id);
    var r := RequestRouting.RequestsOf(n.a, n.b, n.ab, n.ba, id);
    if j < |r.answeredWaiters| {
      var k := FlatSource(AnswerWaiter(id), n.a.service.answered, r.waiters[j]);
      p := Answered(k);
    } else if r.queued != [] {
      var i := FlatSource(WaiterOf(id), n.a.service.interaction, r.waiters[j]);
      p := Queued(i);
    } else {
      p := Registered(id);
    }
  }

  lemma SafeLosesNone<P, Q>(n: Net<P, Q>, id: u64)
    requires NetSafe(n)
    ensures NoneLost(n.a, id)
  {
    hide Flat;
    forall w | w in Flat(WaiterOf(id), n.a.submitted) ensures !Lost(n.a, w) {
      var j :| 0 <= j < |Flat(WaiterOf(id), n.a.submitted)| && Flat(WaiterOf(id), n.a.submitted)[j] == w;
      var p := WaiterPlace(n, id, j);
    }
  }

  ghost predicate Sent<In, Out>(e: Endpoint<In, Out>, x: Interaction<Out>) {
    && (x.AskRequest? ==> At(e, Registered(x.requestId), x.waiter))
    && (x.AskStream? ==> x.streamId in e.incomingStreams && e.incomingStreams[x.streamId] == x.receiver)
  }

  lemma SendOne<In, Out>(n: Node<In, Out>, inbox: seq<Message<In>>)
    requires n.service.interaction != []
    ensures var t := Act(n, TakeInteraction, inbox).node;
            && t.submitted == n.submitted && t.service.answered == n.service.answered
            && t.service.interaction == n.service.interaction[1..] && Sent(t.service, n.service.interaction[0])
  {
  }

  /** Sending everything that is queued: what was queued last ends up registered. */
  lemma {:induction false} SendAll<P, Q>(n: Net<P, Q>) returns (more: seq<Step<P, Q>>)
    ensures RunWellUsed(n, more) && (n.a.service.interaction == [] ==> more == [])
    ensures var z := After(n, more).a;
            && z.submitted == n.a.submitted && z.service.answered == n.a.service.answered && z.service.interaction == []
            && (n.a.service.interaction != [] ==>
                  Sent(z.service, n.a.service.interaction[|n.a.service.interaction| - 1]))
    decreases |n.a.service.interaction|
  {
    hide Act, Sent;
    if n.a.service.interaction == [] {
      more := [];
    } else {
      var m := Next(n, AtA(TakeInteraction));
      SendOne(n.a, n.ba);
      var later := SendAll(m);
      more := [AtA(TakeInteraction)] + later;
      assert more[1..] == later;
    }
  }

  /** A second request under an outstanding id: once everything queued has been sent, the first one's waiter is lost. */
  lemma SecondRequestLoses<P, Q>(n: Net<P, Q>, id: u64, data: Q) returns (more: seq<Step<P, Q>>)
    requires NetSafe(n) && Placed(n.a) && !WellUsed(n.a, SubmitRequest(id, data))
    ensures var m := Next(n, AtA(SubmitRequest(id, data)));
            RunWellUsed(m, more) && !NoneLost(After(m, more).a, id)
  {
    hide Flat;
    var waiters, answered := Flat(WaiterOf(id), n.a.submitted), |Flat(AnswerWaiter(id), n.a.service.answered)|;
    var w := waiters[answered];
    var p := WaiterPlace(n, id, answered);
    var m := Next(n, AtA(SubmitRequest(id, data)));
    ActPlaced(n.a, SubmitRequest(id, data), n.ba);
    more := SendAll(m);
    AfterPlaced(m, more);
    var z := After(m, more).a;
    assert At(z.service, Registered(id), |n.a.submitted|);
    forall q ensures !At(z.service, q, w) {
      match q
      case Queued(_) =>
      case Registered(k) => assert At(z.service, q, w) ==> k == id;
      case Answered(_) => assert At(z.service, q, w) ==> At(n.a.service, q, w);
    }
    FlatSnoc(WaiterOf(id), n.a.submitted, AskRequest(id, data, |n.a.submitted|));
    assert w in Flat(WaiterOf(id), z.submitted);
  }

  /**
   * Distinct ids are exactly what it takes: after any well-used run, a request can be submitted under an id without
   * some well-used continuation losing a waiter of that id if and only if no request under it is outstanding.
   */
  lemma LosesNoneIffIdFree<P, Q>(steps: seq<Step<P, Q>>, id: u64, data: Q)
    requires RunWellUsed(Start(), steps)
    ensures var n := After(Start<P, Q>(), steps);
            var m := Next(n, AtA(SubmitRequest(id, data)));
            (forall more :: RunWellUsed(m, more) ==> NoneLost(After(m, more).a, id))
            <==> |Flat(WaiterOf(id), n.a.submitted)| <= |Flat(AnswerWaiter(id), n.a.service.answered)|
  {
    hide Flat;
    var n := After(Start<P, Q>(), steps);
    var m := Next(n, AtA(SubmitRequest(id, data)));
    StartSafe<P, Q>();
    AfterSafe(Start<P, Q>(), steps);
    OnePlaceAlways(steps);
    if WellUsed(n.a, SubmitRequest(id, data)) {
      NextSafe(n, AtA(SubmitRequest(id, data)));
      forall more | RunWellUsed(m, more) ensures NoneLost(After(m, more).a, id) {
        AfterSafe(m, more);
        SafeLosesNone(After(m, more), id);
      }
    } else {
      var more := SecondRequestLoses(n, id, data);
    }
  }

  // ---------------------------------------------------------------- a reply for somebody else

  /** Two requests under one id, both sent before either is answered. */
  function AskTwice<P, Q>(id: u64, first: Q, second: Q): seq<Step<P, Q>> {
    [AtA(SubmitRequest(id, first)), AtA(TakeInteraction), AtA(SubmitRequest(id, second)), AtA(TakeInteraction)]
  }

  /** The peer takes up both. */
  function TakeUpTwice<P, Q>(id: u64): seq<Step<P, Q>> {
    [AtB(Receive), AtB(Receive), AtB(AcceptRequest(id)), AtB(AcceptRequest(id))]
  }

  /** It replies `x` to the first and `y` to the second, and both replies arrive. */
  function ReplyTwice<P, Q>(x: P, y: P): seq<Step<P, Q>> {
    [AtB(GiveReply(0, x)), AtB(GiveReply(1, y)), AtB(TakeResponse(0)), AtB(TakeResponse(0)), AtA(Receive), AtA(Receive)]
  }

  lemma From<P, Q>(n: Net<P, Q>, steps: seq<Step<P, Q>>, i: nat)
    requires i < |steps|
    ensures After(n, steps[i..]) == After(Next(n, steps[i]), steps[i + 1..])
    ensures RunWellUsed(n, steps[i..]) <==> StepWellUsed(n, steps[i]) && RunWellUsed(Next(n, steps[i]), steps[i + 1..])
  {
    assert steps[i..][1..] == steps[i + 1..];
  }

  lemma BothAsked<In, Out>(id: u64, first: Out, second: Out)
    ensures var one := Act(Act(FreshNode<In, Out>(), SubmitRequest(id, first), []).node, TakeInteraction, []);
            var two := Act(Act(one.node, SubmitRequest(id, second), []).node, TakeInteraction, []);
            && one.sent == [Request(id, first)] && two.sent == [Request(id, second)]
            && two.node.service == FreshNode<In, Out>().service.(incomingResponses := map[id := 1])
            && |two.node.submitted| == 2 && Lost(two.node, 0)
  {
    var one := Act(Act(FreshNode<In, Out>(), SubmitRequest(id, first), []).node, TakeInteraction, []);
    assert one.node.service == FreshNode<In, Out>().service.(incomingResponses := map[id := 0]);
    var two := Act(Act(one.node, SubmitRequest(id, second), []).node, TakeInteraction, []);
    assert two.node.service.incomingResponses == map[id := 1] && two.node.service.interaction == [];
  }

  /** What the four steps leave: the second waiter registered, the first one lost, both requests on their way. */
  lemma AskedTwice<P, Q>(id: u64, first: Q, second: Q)
    ensures var n := After(Start<P, Q>(), AskTwice(id, first, second));
            && n.a.service == FreshNode<P, Q>().service.(incomingResponses := map[id := 1]) && Lost(n.a, 0)
            && n.ab == [Request(id, first), Request(id, second)] && n.b == FreshNode() && n.ba == []
  {
    hide After, RunWellUsed, Act, Lost;
    var steps := AskTwice<P, Q>(id, first, second);
    var n := Start<P, Q>();
    var n1 := Next(n, steps[0]);
    var n2 := Next(n1, steps[1]);
    var n3 := Next(n2, steps[2]);
    var n4 := Next(n3, steps[3]);
    KeepsInbox(n.a, SubmitRequest(id, first), n.ba);
    KeepsInbox(n1.a, TakeInteraction, n1.ba);
    KeepsInbox(n2.a, SubmitRequest(id, second), n2.ba);
    KeepsInbox(n3.a, TakeInteraction, n3.ba);
    BothAsked<P, Q>(id, first, second);
    assert n4.ab == [Request(id, first), Request(id, second)];
    From(n, steps, 0);
    From(n1, steps, 1);
    From(n2, steps, 2);
    From(n3, steps, 3);
    NoSteps(n4, steps[4..]);
    assert steps[0..] == steps;
  }

  lemma BothTakenUp<In, Out>(id: u64, first: In, second: In)
    ensures var one := Act(FreshNode<In, Out>(), Receive, [Request(id, first), Request(id, second)]);
            var two := Act(one.node, Receive, one.inbox);
            var three := Act(two.node, AcceptRequest(id), two.inbox);
            var four := Act(three.node, AcceptRequest(id), three.inbox);
            && one.sent == [] && two.sent == [] && three.sent == [] && four.sent == []
            && WellUsed(FreshNode<In, Out>(), Receive) && WellUsed(one.node, Receive)
            && WellUsed(two.node, AcceptRequest(id)) && WellUsed(three.node, AcceptRequest(id))
            && four.node.handed == [Request(id, first), Request(id, second)]
            && four.node.replied == [] && four.node.service.outgoingResponses == [Slot(id, None), Slot(id, None)]
  {
    hide Flat;
    var inbox: seq<Message<In>> := [Request(id, first), Request(id, second)];
    var one := Act(FreshNode<In, Out>(), Receive, inbox);
    var two := Act(one.node, Receive, one.inbox);
    assert two.node.handed == [inbox[0]] + [inbox[1]] == inbox;
    FlatSnoc(RequestIn(id), [inbox[0]], inbox[1]);
    FlatSnoc(RequestIn(id), [], inbox[0]);
    FlatSnoc(Same(id), [], id);
    assert [] + [inbox[0]] == [inbox[0]] && [] + [id] == [id];
    FlatEmpty(RequestIn<In>(id));
    FlatEmpty(Same(id));
  }

  lemma TakenUpTwice<P, Q>(n: Net<P, Q>, id: u64, first: Q, second: Q)
    requires n.ab == [Request(id, first), Request(id, second)] && n.b == FreshNode()
    ensures RunWellUsed(n, TakeUpTwice(id))
    ensures var m := After(n, TakeUpTwice(id));
            && m.a == n.a && m.ba == n.ba && m.b.handed == n.ab && m.b.replied == []
            && m.b.service.outgoingResponses == [Slot(id, None), Slot(id, None)]
  {
    hide After, RunWellUsed, Act, WellUsed;
    var steps := TakeUpTwice<P, Q>(id);
    var n1 := Next(n, steps[0]);
    var n2 := Next(n1, steps[1]);
    var n3 := Next(n2, steps[2]);
    var n4 := Next(n3, steps[3]);
    BothTakenUp<Q, P>(id, first, second);
    assert forall s: seq<Message<P>> :: s + [] == s;
    From(n, steps, 0);
    From(n1, steps, 1);
    From(n2, steps, 2);
    From(n3, steps, 3);
    NoSteps(n4, steps[4..]);
    assert steps[0..] == steps;
  }

  lemma NoSteps<P, Q>(n: Net<P, Q>, steps: seq<Step<P, Q>>)
    requires steps == []
    ensures After(n, steps) == n && RunWellUsed(n, steps)
  {
  }

  lemma BothReplied<In, Out>(b: Node<In, Out>, id: u64, x: Out, y: Out)
    requires b.service.outgoingResponses == [Slot(id, None), Slot(id, None)] && b.replied == []
    ensures var m := Act(Act(b, GiveReply(0, x), []).node, GiveReply(1, y), []).node;
            var first := Act(m, TakeResponse(0), []);
            var second := Act(first.node, TakeResponse(0), []);
            && first.sent == [Response(id, x)] && second.sent == [Response(id, y)]
            && second.node.handed == b.handed && second.node.replied == [Reply(id, x), Reply(id, y)]
  {
    var m := Act(Act(b, GiveReply(0, x), []).node, GiveReply(1, y), []).node;
    assert m.service.outgoingResponses == [Slot(id, Some(x)), Slot(id, Some(y))];
    assert Act(m, TakeResponse(0), []).node.service.outgoingResponses == [Slot(id, Some(y))];
  }

  lemma BothReceived<In, Out>(a: Node<In, Out>, id: u64, x: In, y: In)
    requires a.service.incomingResponses == map[id := 1] && a.service.answered == [] && a.service.discarded == []
    ensures var m := Act(a, Receive, [Response(id, x), Response(id, y)]);
            var n := Act(m.node, Receive, m.inbox);
            n.node.service.answered == [Answer(1, id, x)] && n.node.service.discarded == [Response(id, y)]
  {
    var m := Act(a, Receive, [Response(id, x), Response(id, y)]);
    assert m.node.service.incomingResponses == map[] && m.inbox == [Response(id, y)];
  }

  lemma KeepsInbox<In, Out>(n: Node<In, Out>, act: Action<Out>, inbox: seq<Message<In>>)
    requires !act.Receive?
    ensures var t, u := Act(n, act, inbox), Act(n, act, []);
            && t.node == u.node && t.sent == u.sent && t.inbox == inbox
            && (act.GiveReply? || act.SubmitRequest? || act.SubmitStream? || act.Emit? ==> t.sent == [])
  {
  }

  lemma SixSteps<P, Q>(n: Net<P, Q>, steps: seq<Step<P, Q>>)
    requires |steps| == 6
    ensures var n1 := Next(n, steps[0]);
            var n2 := Next(n1, steps[1]);
            var n3 := Next(n2, steps[2]);
            var n4 := Next(n3, steps[3]);
            var n5 := Next(n4, steps[4]);
            && After(n, steps) == Next(n5, steps[5])
            && (RunWellUsed(n, steps) <==>
                  && StepWellUsed(n, steps[0]) && StepWellUsed(n1, steps[1]) && StepWellUsed(n2, steps[2])
                  && StepWellUsed(n3, steps[3]) && StepWellUsed(n4, steps[4]) && StepWellUsed(n5, steps[5]))
  {
    hide After, RunWellUsed, Next, StepWellUsed;
    var n1 := Next(n, steps[0]);
    var n2 := Next(n1, steps[1]);
    var n3 := Next(n2, steps[2]);
    var n4 := Next(n3, steps[3]);
    var n5 := Next(n4, steps[4]);
    From(n, steps, 0);
    From(n1, steps, 1);
    From(n2, steps, 2);
    From(n3, steps, 3);
    From(n4, steps, 4);
    From(n5, steps, 5);
    NoSteps(Next(n5, steps[5]), steps[6..]);
    assert steps[0..] == steps;
  }

  lemma RepliedTwice<P, Q>(n: Net<P, Q>, id: u64, x: P, y: P)
    requires n.a.service.incomingResponses == map[id := 1] && n.a.service.answered == [] && n.a.service.discarded == []
    requires n.b.service.outgoingResponses == [Slot(id, None), Slot(id, None)] && n.b.replied == [] && n.ba == []
    ensures RunWellUsed(n, ReplyTwice(x, y))
    ensures var m := After(n, ReplyTwice(x, y));
            && m.b.handed == n.b.handed && m.b.replied == [Reply(id, x), Reply(id, y)]
            && m.a.service.answered == [Answer(1, id, x)] && m.a.service.discarded == [Response(id, y)]
  {
    hide After, RunWellUsed, Act;
    var steps := ReplyTwice<P, Q>(x, y);
    var n1 := Next(n, steps[0]);
    var n2 := Next(n1, steps[1]);
    var n3 := Next(n2, steps[2]);
    var n4 := Next(n3, steps[3]);
    var n5 := Next(n4, steps[4]);
    var n6 := Next(n5, steps[5]);
    KeepsInbox(n.b, GiveReply(0, x), n.ab);
    KeepsInbox(n1.b, GiveReply(1, y), n1.ab);
    KeepsInbox(n2.b, TakeResponse(0), n2.ab);
    KeepsInbox(n3.b, TakeResponse(0), n3.ab);
    BothReplied(n.b, id, x, y);
    assert n4.ba == [Response(id, x), Response(id, y)] && n4.a == n.a;
    BothReceived(n4.a, id, x, y);
    SixSteps(n, steps);
  }

  /** A second request under an outstanding id, once sent, loses the first one's waiter in every continuation. */
  lemma DuplicateIdLosesWaiter<P, Q>(id: u64, first: Q, second: Q, more: seq<Step<P, Q>>)
    ensures Lost(After(After(Start<P, Q>(), AskTwice(id, first, second)), more).a, 0)
  {
    AskedTwice<P, Q>(id, first, second);
    LostForEver(After(Start<P, Q>(), AskTwice(id, first, second)), more, 0);
  }

  /**
   * Worse, with a peer that behaves: the reply to the first request goes to the waiter of the second one, whose own
   * reply is then dropped as unknown.
   */
  lemma DuplicateIdMisdelivers<P, Q>(id: u64, first: Q, second: Q, x: P, y: P)
    ensures var asked := After(Start<P, Q>(), AskTwice(id, first, second));
            var takenUp := After(asked, TakeUpTwice(id));
            var n := After(takenUp, ReplyTwice(x, y));
            && RunWellUsed(asked, TakeUpTwice(id)) && RunWellUsed(takenUp, ReplyTwice(x, y))
            && n.b.handed == [Request(id, first), Request(id, second)] && n.b.replied == [Reply(id, x), Reply(id, y)]
            && n.a.service.answered == [Answer(1, id, x)] && n.a.service.discarded == [Response(id, y)]
  {
    AskedTwice<P, Q>(id, first, second);
    var asked := After(Start<P, Q>(), AskTwice(id, first, second));
    TakenUpTwice(asked, id, first, second);
    RepliedTwice(After(asked, TakeUpTwice(id)), id, x, y);
  }
}
