/** Every schedule of calls on the read side: what can be popped is the batch parse of what was accepted. */
module Reader {
  import opened Sequences
  import opened Wire
  import opened ConnectionState

  datatype Step<+M> = FeedBytes(chunk: bytes) | Process | ConsumeItem

  /** A read side together with everything it accepted and everything popped from it. */
  datatype Run<M> = Run(side: ReadSide<M>, accepted: bytes, popped: seq<M>)

  function Next<M>(c: ReadConfig<M>, r: Run<M>, s: Step<M>): Run<M> {
    match s
    case FeedBytes(chunk) =>
      Run(Fed(c, r.side, chunk), if Accepts(c, r.side) then r.accepted + chunk else r.accepted, r.popped)
    case Process => r.(side := Processed(c, r.side))
    case ConsumeItem =>
      if r.side.queue == [] then r
      else Run(r.side.(queue := r.side.queue[1..]), r.accepted, r.popped + [r.side.queue[0]])
  }

  function After<M>(c: ReadConfig<M>, r: Run<M>, steps: seq<Step<M>>): Run<M>
    decreases |steps|
  {
    if steps == [] then r else After(c, Next(c, r, steps[0]), steps[1..])
  }

  function Start<M>(): Run<M> {
    Run(ReadSide([], []), [], [])
  }

  /** A call on the object itself is a step of a run. */
  method PerformStep<M>(r: ConnectionReadState<M>, s: Step<M>, accepted: bytes, popped: seq<M>)
    returns (nowAccepted: bytes, nowPopped: seq<M>)
    requires r.Valid()
    modifies r
    ensures r.Valid()
    ensures Run(r.View(), nowAccepted, nowPopped) == Next(r.config, Run(old(r.View()), accepted, popped), s)
  {
    hide Processed;
    nowAccepted, nowPopped := accepted, popped;
    assert accepted + [] == accepted;
    match s
    case FeedBytes(chunk) =>
      var fed := r.FeedBytes(chunk);
      nowAccepted := accepted + chunk[..fed];
    case Process =>
      var _ := r.Process();
    case ConsumeItem =>
      var item := r.ConsumeItem();
      nowPopped := if item.Some? then popped + [item.value] else popped;
  }

  /** Any calls on the object, one after the other, are a run. */
  method Perform<M>(r: ConnectionReadState<M>, steps: seq<Step<M>>) returns (accepted: bytes, popped: seq<M>)
    requires r.Valid() && r.View() == ReadSide([], [])
    modifies r
    ensures r.Valid() && Run(r.View(), accepted, popped) == After(r.config, Start(), steps)
  {
    hide Next;
    accepted, popped := [], [];
    for i := 0 to |steps|
      invariant r.Valid()
      invariant After(r.config, Run(r.View(), accepted, popped), steps[i..]) == After(r.config, Start(), steps)
    {
      accepted, popped := PerformStep(r, steps[i], accepted, popped);
      assert steps[i..][1..] == steps[i + 1..];
    }
    assert steps[|steps|..] == [];
  }

  /** Popped and queued items are the frames in front of the buffered bytes. */
  ghost predicate Following<M>(c: ReadConfig<M>, r: Run<M>) {
    Tracks(c.decode, r.accepted, r.popped + r.side.queue, r.side.buffer)
  }

  lemma NextFollows<M>(c: ReadConfig<M>, r: Run<M>, s: Step<M>)
    requires Following(c, r)
    ensures Following(c, Next(c, r, s))
  {
    hide Tracks, Parse;
    var n := Next(c, r, s);
    match s
    case FeedBytes(chunk) =>
      TracksExtend(c.decode, r.accepted, r.popped + r.side.queue, r.side.buffer, chunk);
    case Process =>
      var free := FreeSlots(c, r.side);
      var p := ParseUpTo(c.decode, r.side.buffer, free);
      assert r.side.buffer + [] == r.side.buffer && p.rest + [] == p.rest;
      TracksTake(c.decode, r.accepted, r.popped + r.side.queue, r.side.buffer, [], free);
      assert n.popped + n.side.queue == r.popped + r.side.queue + p.items;
    case ConsumeItem =>
      assert n.popped + n.side.queue == r.popped + r.side.queue;
  }

  lemma {:induction false} AfterFollows<M>(c: ReadConfig<M>, r: Run<M>, steps: seq<Step<M>>)
    requires Following(c, r)
    ensures Following(c, After(c, r, steps))
    decreases |steps|
  {
    if steps != [] {
      NextFollows(c, r, steps[0]);
      AfterFollows(c, Next(c, r, steps[0]), steps[1..]);
    }
  }

  /**
   * Incremental parsing equals batch parsing: however the accepted bytes were split into feeds, and however
   * feeds, processing and popping were interleaved, nothing is lost, repeated or reordered.
   */
  lemma IncrementalEqualsBatch<M>(c: ReadConfig<M>, steps: seq<Step<M>>)
    ensures var r := After(c, Start(), steps);
            var q := Parse(c.decode, r.side.buffer);
            Parse(c.decode, r.accepted) == Parsed(r.popped + r.side.queue + q.items, q.rest)
  {
    AfterFollows(c, Start(), steps);
    var r := After(c, Start(), steps);
    TracksMeans(c.decode, r.accepted, r.popped + r.side.queue, r.side.buffer);
  }

  // ---------------------------------------------------------------- one call of process

  lemma {:induction false} ParseUpToStops<M>(decode: Decoder<M>, b: bytes, n: nat)
    ensures var p := ParseUpTo(decode, b, n);
            |p.items| < n ==> !Peek(decode, p.rest).Complete?
    decreases n
  {
    var f := Peek(decode, b);
    if f.Complete? && n > 0 {
      ParseUpToStops(decode, b[f.total..], n - 1);
    }
  }

  /**
   * Processing moves exactly as many frames as there are free slots and complete frames, in order. It leaves the
   * queue full or no complete frame in front, doing it again changes nothing, and it fails exactly when
   * an undecodable frame is reached while a slot is still free.
   */
  lemma ProcessExactly<M>(c: ReadConfig<M>, r: ReadSide<M>)
    ensures var s := Processed(c, r);
            var all := Parse(c.decode, r.buffer);
            var k := Min(FreeSlots(c, r), |all.items|);
            && s.queue == r.queue + all.items[..k]
            && Parse(c.decode, s.buffer) == Parsed(all.items[k..], all.rest)
            && |s.buffer| + 8 * k <= |r.buffer|
            && (|s.queue| >= c.queueSize || !Peek(c.decode, s.buffer).Complete?)
            && Processed(c, s) == s
            && (Broken(c, s) <==> k < FreeSlots(c, r) && Peek(c.decode, all.rest).Bad?)
  {
    var free := FreeSlots(c, r);
    var p := ParseUpTo(c.decode, r.buffer, free);
    ParseUpToIsPrefix(c.decode, r.buffer, free);
    ParseUpToStops(c.decode, r.buffer, free);
    ParseStops(c.decode, p.rest);
    var s := Processed(c, r);
    assert s.queue + [] == s.queue;
    if |p.items| < free {
      assert Parse(c.decode, p.rest) == Parsed([], p.rest);
    }
  }

  // ---------------------------------------------------------------- decode errors

  lemma NextKeepsBroken<M>(c: ReadConfig<M>, r: Run<M>, s: Step<M>)
    requires Peek(c.decode, r.side.buffer).Bad?
    ensures var n := Next(c, r, s);
            && r.side.buffer <= n.side.buffer
            && Peek(c.decode, n.side.buffer) == Peek(c.decode, r.side.buffer)
            && n.popped + n.side.queue == r.popped + r.side.queue
  {
    if s.FeedBytes? {
      PeekExtends(c.decode, r.side.buffer, s.chunk);
    } else if s.Process? {
      assert r.side.queue + [] == r.side.queue;
    }
  }

  lemma {:induction false} AfterKeepsBroken<M>(c: ReadConfig<M>, r: Run<M>, more: seq<Step<M>>)
    requires Peek(c.decode, r.side.buffer).Bad?
    ensures var n := After(c, r, more);
            && r.side.buffer <= n.side.buffer
            && Peek(c.decode, n.side.buffer) == Peek(c.decode, r.side.buffer)
            && n.popped + n.side.queue == r.popped + r.side.queue
    decreases |more|
  {
    if more != [] {
      NextKeepsBroken(c, r, more[0]);
      AfterKeepsBroken(c, Next(c, r, more[0]), more[1..]);
    }
  }

  /**
   * A decode error is final: once processing has failed, the offending frame stays at the front of the buffer,
   * and the items obtainable by any later schedule are exactly the frames before it.
   */
  lemma BadFrameIsFinal<M>(c: ReadConfig<M>, steps: seq<Step<M>>, more: seq<Step<M>>)
    requires Broken(c, After(c, Start(), steps).side)
    ensures var r, n := After(c, Start(), steps), After(c, After(c, Start(), steps), more);
            && r.side.buffer <= n.side.buffer
            && Peek(c.decode, n.side.buffer) == Peek(c.decode, r.side.buffer)
            && n.popped + n.side.queue == Parse(c.decode, r.accepted).items == Parse(c.decode, n.accepted).items
  {
    var r := After(c, Start(), steps);
    IncrementalEqualsBatch(c, steps);
    AfterKeepsBroken(c, r, more);
    var n := After(c, r, more);
    AfterFollows(c, Start(), steps);
    AfterFollows(c, r, more);
    TracksMeans(c.decode, n.accepted, n.popped + n.side.queue, n.side.buffer);
    assert r.popped + r.side.queue + [] == r.popped + r.side.queue;
    assert n.popped + n.side.queue + [] == n.popped + n.side.queue;
  }

  // ---------------------------------------------------------------- what a driver loses behind a decode error

  /** Polls of a driver that need no more bytes: what they returned, and what is left. */
  datatype Polls<M> = Polls(returned: seq<M>, side: ReadSide<M>)

  /** The head of a driver's loop: process, and pop an item unless processing failed. */
  function Poll<M>(c: ReadConfig<M>, p: Polls<M>): Polls<M> {
    var s := Processed(c, p.side);
    if Broken(c, s) || s.queue == [] then p.(side := s)
    else Polls(p.returned + [s.queue[0]], s.(queue := s.queue[1..]))
  }

  function PollTimes<M>(c: ReadConfig<M>, p: Polls<M>, n: nat): Polls<M>
    decreases n
  {
    if n == 0 then p else PollTimes(c, Poll(c, p), n - 1)
  }

  /** The items in front of the first incomplete or undecodable frame. */
  function Obtainable<M>(c: ReadConfig<M>, r: ReadSide<M>): seq<M> {
    r.queue + Parse(c.decode, r.buffer).items
  }

  /** One of the frames buffered does not decode. */
  predicate Doomed<M>(c: ReadConfig<M>, r: ReadSide<M>) {
    |r.queue| <= c.queueSize && Peek(c.decode, Parse(c.decode, r.buffer).rest).Bad?
  }

  /** As long as the items fill the queue the bad frame is not reached, and a poll returns the first of them. */
  lemma PollStep<M>(c: ReadConfig<M>, p: Polls<M>)
    requires Doomed(c, p.side)
    ensures var t, n := Obtainable(c, p.side), Poll(c, p);
            && Doomed(c, n.side)
            && (Broken(c, Processed(c, p.side)) <==> |t| < c.queueSize)
            && if |t| < c.queueSize then n.returned == p.returned && n.side.queue == t && Broken(c, n.side)
               else n.returned == p.returned + [t[0]] && Obtainable(c, n.side) == t[1..]
  {
    hide Parse, Processed;
    ProcessExactly(c, p.side);
    var all, s := Parse(c.decode, p.side.buffer), Processed(c, p.side);
    var k := Min(FreeSlots(c, p.side), |all.items|);
    assert s.queue + all.items[k..] == Obtainable(c, p.side);
    if |Obtainable(c, p.side)| < c.queueSize {
      assert all.items[..k] == all.items;
    } else {
      assert s.queue[1..] + all.items[k..] == Obtainable(c, p.side)[1..];
    }
  }

  lemma {:induction false} PollsUntilError<M>(c: ReadConfig<M>, p: Polls<M>, n: nat)
    requires Doomed(c, p.side)
    ensures var t, z := Obtainable(c, p.side), PollTimes(c, p, n);
            var m := |t| - Min(|t|, c.queueSize - 1);
            && z.returned == p.returned + t[..Min(n, m)]
            && (n > m ==> Broken(c, z.side) && z.side.queue == t[m..])
    decreases n
  {
    hide Processed, Obtainable, Doomed, Poll;
    var t := Obtainable(c, p.side);
    if n > 0 {
      PollStep(c, p);
      PollsUntilError(c, Poll(c, p), n - 1);
      if |t| < c.queueSize {
        SettledAtError(c, Poll(c, p));
      } else {
        var m := |t| - Min(|t|, c.queueSize - 1);
        assert t[1..][..Min(n - 1, m - 1)] == t[1..Min(n, m)];
        assert p.returned + [t[0]] + t[1..Min(n, m)] == p.returned + t[..Min(n, m)];
      }
    }
  }

  lemma SettledAtError<M>(c: ReadConfig<M>, p: Polls<M>)
    requires Broken(c, p.side)
    ensures Doomed(c, p.side) && Obtainable(c, p.side) == p.side.queue
  {
  }

  /**
   * A driver returns the error before it pops what is queued, and the error stays. With a bad frame somewhere in the
   * buffer, polls return the items in front of it while these fill the queue; the last `queueSize - 1` of them, or all
   * when there are fewer, are never returned. So nothing is lost exactly when there is nothing or the queue holds one.
   */
  lemma LostBehindError<M>(c: ReadConfig<M>, r: ReadSide<M>, n: nat)
    requires |r.queue| <= c.queueSize && Peek(c.decode, Parse(c.decode, r.buffer).rest).Bad?
    ensures var t, z := r.queue + Parse(c.decode, r.buffer).items, PollTimes(c, Polls([], r), n);
            var m := |t| - Min(|t|, c.queueSize - 1);
            && z.returned == t[..Min(n, m)]
            && (n > m ==> Broken(c, z.side) && z.side.queue == t[m..])
            && (n > |t| ==> (z.returned == t <==> t == [] || c.queueSize == 1))
  {
    PollsUntilError(c, Polls([], r), n);
    assert forall s: seq<M> :: [] + s == s;
  }

  // ---------------------------------------------------------------- bounds

  ghost predicate ChunksUpTo<M>(steps: seq<Step<M>>, largest: nat) {
    forall i :: 0 <= i < |steps| && steps[i].FeedBytes? ==> |steps[i].chunk| <= largest
  }

  ghost predicate Bounded<M>(c: ReadConfig<M>, r: ReadSide<M>, largest: nat) {
    |r.queue| <= c.queueSize && |r.buffer| <= c.bufferSize - 1 + largest
  }

  lemma {:induction false} AfterBounded<M>(c: ReadConfig<M>, r: Run<M>, steps: seq<Step<M>>, largest: nat)
    requires ChunksUpTo(steps, largest) && Bounded(c, r.side, largest)
    ensures Bounded(c, After(c, r, steps).side, largest)
    decreases |steps|
  {
    if steps != [] {
      ParseUpToIsPrefix(c.decode, r.side.buffer, FreeSlots(c, r.side));
      AfterBounded(c, Next(c, r, steps[0]), steps[1..], largest);
    }
  }

  /** The queue never exceeds its size, and the buffer overshoots its size by less than one chunk. */
  lemma BoundsHold<M>(c: ReadConfig<M>, steps: seq<Step<M>>, largest: nat)
    requires ChunksUpTo(steps, largest)
    ensures var r := After(c, Start(), steps).side;
            |r.queue| <= c.queueSize && |r.buffer| <= c.bufferSize - 1 + largest
  {
    AfterBounded(c, Start(), steps, largest);
  }
}
