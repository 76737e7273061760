/** Polls of `next_message` inside the network: what the service does there, and that it never panics. */
module Serving {
  import opened Sequences
  import opened Router
  import opened Network
  import opened NetworkSafety
  import Service

  /** Actions that are turns of the `select!`, in the loop of `next_message`. */
  predicate IsTurn<P, Q>(act: Action<Q>, inbox: seq<Message<P>>) {
    act.TakeInteraction? || act.TakeStreamItem? || act.TakeResponse? || (act.Receive? && inbox != [])
  }

  function EventOf<P, Q>(act: Action<Q>, inbox: seq<Message<P>>): Event<P>
    requires IsTurn(act, inbox)
  {
    match act
    case TakeStreamItem(i) => StreamTurn(i)
    case TakeResponse(i) => ResponseTurn(i)
    case Receive => Arrived(inbox[0])
    case _ => InteractionTurn
  }

  /** Endpoint `a` takes turns only; `b` does anything meanwhile, and may react to what `a` sends. */
  predicate Polling<P, Q>(n: Net<P, Q>, steps: seq<Step<P, Q>>)
    decreases |steps|
  {
    steps == [] || ((steps[0].AtA? ==> IsTurn(steps[0].atA, n.ba)) && Polling(Next(n, steps[0]), steps[1..]))
  }

  /** The events `a` sees in such a run. */
  function Events<P, Q>(n: Net<P, Q>, steps: seq<Step<P, Q>>): seq<Event<P>>
    requires Polling(n, steps)
    decreases |steps|
  {
    if steps == [] then [] else
      var later := Events(Next(n, steps[0]), steps[1..]);
      if steps[0].AtA? then [EventOf(steps[0].atA, n.ba)] + later else later
  }

  /** The messages from `a` that `b` receives in it. */
  function Taken<P, Q>(n: Net<P, Q>, steps: seq<Step<P, Q>>): seq<Message<Q>>
    decreases |steps|
  {
    if steps == [] then [] else
      var later := Taken(Next(n, steps[0]), steps[1..]);
      if steps[0].AtB? && steps[0].atB.Receive? && n.ab != [] then [n.ab[0]] + later else later
  }

  lemma TurnIsAct<P, Q>(n: Node<P, Q>, act: Action<Q>, inbox: seq<Message<P>>)
    requires IsTurn(act, inbox)
    ensures var t, u := Turn(n, EventOf(act, inbox)), Act(n, act, inbox);
            t.node == u.node && t.sent == u.sent
  {
  }

  lemma {:induction false} TurnsCons<In, Out>(n: Node<In, Out>, first: Event<In>, later: seq<Event<In>>)
    ensures var t := Turn(n, first);
            var l := Turns(t.node, later);
            Turns(n, [first] + later) == Acted(l.node, t.sent + l.sent, [])
  {
    hide Turn;
    var all, last := [first] + later, |later| - 1;
    if later == [] {
      assert all == [first] && Turns(n, []).sent + Turn(n, first).sent == Turn(n, first).sent;
      assert Turns(n, all[..0]) == Acted(n, [], []);
    } else {
      TurnsCons(n, first, later[..last]);
      assert all[..|later|] == [first] + later[..last];
      var before := Turns(Turn(n, first).node, later[..last]);
      Regroup(Turn(n, first).sent, before.sent, Turn(before.node, later[last]).sent);
    }
  }

  /** What `b` does leaves `a` alone, but for what it takes from the channel. */
  lemma OtherSide<P, Q>(n: Net<P, Q>, act: Action<P>)
    ensures var m := Next(n, AtB(act));
            m.a == n.a && n.ab == (if act.Receive? && n.ab != [] then [n.ab[0]] else []) + m.ab
  {
  }

  /** The turns of a poll do to the node, and send, exactly what the actions in the run do. */
  lemma {:induction false} PollIsRun<P, Q>(n: Net<P, Q>, steps: seq<Step<P, Q>>)
    requires Polling(n, steps)
    ensures var t := Turns(n.a, Events(n, steps));
            t.node == After(n, steps).a && n.ab + t.sent == Taken(n, steps) + After(n, steps).ab
    decreases |steps|
  {
    hide Turn, Act;
    if steps != [] {
      var m, later := Next(n, steps[0]), steps[1..];
      PollIsRun(m, later);
      var sent := Turns(m.a, Events(m, later)).sent;
      match steps[0]
      case AtA(act) =>
        TurnsCons(n.a, EventOf(act, n.ba), Events(m, later));
        TurnIsAct(n.a, act, n.ba);
        Regroup(n.ab, Act(n.a, act, n.ba).sent, sent);
      case AtB(act) =>
        OtherSide(n, act);
        var head := if act.Receive? && n.ab != [] then [n.ab[0]] else [];
        Regroup(head, m.ab, sent);
        Regroup(head, Taken(m, later), After(m, later).ab);
    }
  }

  // ---------------------------------------------------------------- safety of a poll

  /** Nothing has been dropped and nothing panics, up to every event. */
  ghost predicate Unharmed<In, Out>(n: Node<In, Out>, events: seq<Event<In>>) {
    && (forall i :: 0 <= i <= |events| ==> Turns(n, events[..i]).node.service.discarded == [])
    && (forall i :: 0 <= i < |events| ==> ResultAt(n, events, i) != Some(Panicked))
  }

  lemma UnharmedCons<In, Out>(n: Node<In, Out>, first: Event<In>, later: seq<Event<In>>)
    requires n.service.discarded == [] && ResultOf(n.service, first) != Some(Panicked)
    requires Unharmed(Turn(n, first).node, later)
    ensures Unharmed(n, [first] + later)
  {
    hide Turn, ResultOf;
    var all := [first] + later;
    forall i | 0 < i <= |all|
      ensures Turns(n, all[..i]).node == Turns(Turn(n, first).node, later[..i - 1]).node
    {
      assert all[..i] == [first] + later[..i - 1];
      TurnsCons(n, first, later[..i - 1]);
    }
    forall i | 0 <= i < |all| ensures ResultAt(n, all, i) != Some(Panicked) {
      if i > 0 {
        assert ResultAt(n, all, i) == ResultAt(Turn(n, first).node, later, i - 1);
      }
    }
  }

  lemma {:induction false} PollUnharmed<P, Q>(n: Net<P, Q>, steps: seq<Step<P, Q>>)
    requires NetSafe(n) && RunWellUsed(n, steps) && Polling(n, steps)
    ensures Unharmed(n.a, Events(n, steps))
    decreases |steps|
  {
    hide Turn, Act, Routed;
    if steps != [] {
      var m, later := Next(n, steps[0]), steps[1..];
      NextSafe(n, steps[0]);
      PollUnharmed(m, later);
      if steps[0].AtA? {
        var act := steps[0].atA;
        TurnIsAct(n.a, act, n.ba);
        if act.Receive? {
          NothingUnknown(n.a, n.b, n.ab, n.ba);
        }
        UnharmedCons(n.a, EventOf(act, n.ba), Events(m, later));
      }
    }
  }

  /** The part of a run in which its first `used` events occur. */
  lemma {:induction false} UpTo<P, Q>(n: Net<P, Q>, steps: seq<Step<P, Q>>, used: nat) returns (k: nat)
    requires Polling(n, steps) && used <= |Events(n, steps)|
    ensures k <= |steps| && Polling(n, steps[..k]) && Events(n, steps[..k]) == Events(n, steps)[..used]
    ensures used == |Events(n, steps)| ==> k == |steps|
    decreases |steps|
  {
    hide Act;
    if used == |Events(n, steps)| {
      k := |steps|;
      assert steps[..k] == steps;
    } else if used == 0 {
      k := 0;
    } else {
      k := UpTo(Next(n, steps[0]), steps[1..], if steps[0].AtA? then used - 1 else used);
      k := k + 1;
      assert steps[..k][0] == steps[0] && steps[..k][1..] == steps[1..][..k - 1];
    }
  }

  /**
   * One poll of `next_message`, on an endpoint of a network in which applications have behaved: it never panics and
   * drops nothing, and service and channel are where the run, up to the last event used, brings its node and channel.
   */
  method PollSafely<P, Q>(s: Service.SansService<P, Q>, events: seq<Event<P>>,
                          ghost n: Net<P, Q>, ghost steps: seq<Step<P, Q>>)
    returns (r: Outcome<P>, used: nat, ghost k: nat)
    requires s.Valid() && s.node == n.a
    requires NetSafe(n) && RunWellUsed(n, steps) && Polling(n, steps) && events == Events(n, steps)
    modifies s
    ensures s.Valid() && !r.Panicked? && s.discarded == []
    ensures used <= |events| && k <= |steps| && (used == |events| ==> k == |steps|)
    ensures Polling(n, steps[..k]) && Events(n, steps[..k]) == events[..used]
    ensures s.node == After(n, steps[..k]).a
    ensures After(n, steps[..k]).a.handed == n.a.handed + (if r.Handed? then [r.m] else [])
    ensures old(s.writer) <= s.writer
    ensures n.ab + s.writer[old(|s.writer|)..] == Taken(n, steps[..k]) + After(n, steps[..k]).ab
  {
    hide Turns, Polling, Events, After, Taken;
    PollUnharmed(n, steps);
    r, used := s.NextMessage(events);
    k := UpTo(n, steps, used);
    PollIsRun(n, steps[..k]);
    assert r.Waiting? || ResultAt(n.a, events, used - 1) == Some(r);
  }
}
