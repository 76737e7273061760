/**
 * A writer, bytes in transit and a reader, under every interleaving of their calls.
 * The pipe refines a FIFO queue of items, and it can always be drained exactly when frames fit the reader's buffer.
 */
module Pipe {
  import opened Sequences
  import opened Wire
  import opened ConnectionState
  import Reader
  import Writer

  datatype Config<!M> = Config(write: WriteConfig<M>, read: ReadConfig<M>)

  datatype Step<+M> =
    | Write(call: Writer.Step<M>)
    | Carry(n: nat)  // offer the reader the next `n` bytes in transit
    | ProcessRead
    | ConsumeItem

  datatype Pipe<M> = Pipe(w: Writer.Run<M>, transit: bytes, r: Reader.Run<M>)

  function Next<M>(c: Config<M>, p: Pipe<M>, s: Step<M>): Pipe<M> {
    match s
    case Write(call) =>
      Pipe(Writer.Next(c.write, p.w, call), p.transit + Writer.Handed(p.w.side, call), p.r)
    case Carry(n) =>
      var k := Min(n, |p.transit|);
      Pipe(p.w,
           if Accepts(c.read, p.r.side) then p.transit[k..] else p.transit,
           Reader.Next(c.read, p.r, Reader.FeedBytes(p.transit[..k])))
    case ProcessRead => p.(r := Reader.Next(c.read, p.r, Reader.Process))
    case ConsumeItem => p.(r := Reader.Next(c.read, p.r, Reader.ConsumeItem))
  }

  function After<M>(c: Config<M>, p: Pipe<M>, steps: seq<Step<M>>): Pipe<M>
    decreases |steps|
  {
    if steps == [] then p else After(c, Next(c, p, steps[0]), steps[1..])
  }

  function Start<M>(): Pipe<M> {
    Pipe(Writer.Start(), [], Reader.Start())
  }

  ghost predicate Coherent<M>(c: Config<M>, p: Pipe<M>) {
    && Writer.Conserves(c.write, p.w)
    && Reader.Following(c.read, p.r)
    && p.w.sent == p.r.accepted + p.transit
    && |p.r.side.queue| <= c.read.queueSize
  }

  lemma NextCoherent<M>(c: Config<M>, p: Pipe<M>, s: Step<M>)
    requires Coherent(c, p)
    ensures Coherent(c, Next(c, p, s))
  {
    match s
    case Write(call) =>
      Writer.NextConserves(c.write, p.w, call);
      Regroup(p.r.accepted, p.transit, Writer.Handed(p.w.side, call));
    case Carry(n) =>
      var k := Min(n, |p.transit|);
      Reader.NextFollows(c.read, p.r, Reader.FeedBytes(p.transit[..k]));
      Regroup(p.r.accepted, p.transit[..k], p.transit[k..]);
      assert p.transit == p.transit[..k] + p.transit[k..];
    case ProcessRead =>
      Reader.NextFollows(c.read, p.r, Reader.Process);
      ParseUpToIsPrefix(c.read.decode, p.r.side.buffer, FreeSlots(c.read, p.r.side));
    case ConsumeItem =>
      Reader.NextFollows(c.read, p.r, Reader.ConsumeItem);
  }

  lemma {:induction false} AfterCoherent<M>(c: Config<M>, p: Pipe<M>, steps: seq<Step<M>>)
    requires Coherent(c, p)
    ensures Coherent(c, After(c, p, steps))
    decreases |steps|
  {
    if steps != [] {
      NextCoherent(c, p, steps[0]);
      AfterCoherent(c, Next(c, p, steps[0]), steps[1..]);
    }
  }

  // ---------------------------------------------------------------- end-to-end safety

  /** The bytes between the writer's queue and the reader's queue, oldest first. */
  function Ahead<M>(p: Pipe<M>): bytes {
    p.transit + p.w.side.buffer
  }

  /** The items on their way: queued at the reader, framed in the bytes in between, queued at the writer. */
  function Contents<M>(c: Config<M>, p: Pipe<M>): seq<M> {
    p.r.side.queue
    + Parse(c.read.decode, p.r.side.buffer + Ahead(p)).items
    + Encodable(c.write.encode, p.w.side.queue)
  }

  /** The reader is at a frame boundary of what the writer has framed so far. */
  lemma BytesTracked<M>(c: Config<M>, p: Pipe<M>)
    requires Coherent(c, p)
    ensures var framed := p.w.accepted[..|p.w.accepted| - |p.w.side.queue|];
            Tracks(c.read.decode, WireOf(c.write.encode, framed),
                   p.r.popped + p.r.side.queue, p.r.side.buffer + Ahead(p))
  {
    hide Parse, WireOf;
    TracksExtend(c.read.decode, p.r.accepted, p.r.popped + p.r.side.queue, p.r.side.buffer, Ahead(p));
    assert p.r.accepted + Ahead(p) == p.w.sent + p.w.side.buffer;
  }

  lemma BytesParse<M(!new)>(c: Config<M>, p: Pipe<M>)
    requires Faithful(c.write.encode, c.read.decode) && Coherent(c, p)
    ensures var framed := p.w.accepted[..|p.w.accepted| - |p.w.side.queue|];
            var q := Parse(c.read.decode, p.r.side.buffer + Ahead(p));
            q.rest == [] && p.r.popped + p.r.side.queue + q.items == Encodable(c.write.encode, framed)
  {
    var framed := p.w.accepted[..|p.w.accepted| - |p.w.side.queue|];
    BytesTracked(c, p);
    TracksMeans(c.read.decode, WireOf(c.write.encode, framed), p.r.popped + p.r.side.queue, p.r.side.buffer + Ahead(p));
    ParseWire(c.write.encode, c.read.decode, framed);
  }

  lemma Conserved<M(!new)>(c: Config<M>, p: Pipe<M>)
    requires Faithful(c.write.encode, c.read.decode) && Coherent(c, p)
    ensures p.r.popped + Contents(c, p) == Encodable(c.write.encode, p.w.accepted)
    ensures Parse(c.read.decode, p.r.side.buffer + Ahead(p)).rest == []
  {
    var framed := p.w.accepted[..|p.w.accepted| - |p.w.side.queue|];
    BytesParse(c, p);
    FlatAppend(Keeping(c.write.encode), framed, p.w.side.queue);
    assert p.w.accepted == framed + p.w.side.queue;
    var items := Parse(c.read.decode, p.r.side.buffer + Ahead(p)).items;
    var rest := Encodable(c.write.encode, p.w.side.queue);
    Regroup(p.r.popped, p.r.side.queue, items);
    Regroup(p.r.popped, p.r.side.queue + items, rest);
  }

  /**
   * End-to-end safety: for every schedule, the consumed items followed by the items in the reader's queue, in the
   * bytes under way and in the writer's queue are exactly the encodable accepted items, in order.
   */
  lemma NothingLostOrReordered<M(!new)>(c: Config<M>, steps: seq<Step<M>>)
    requires Faithful(c.write.encode, c.read.decode)
    ensures var p := After(c, Start(), steps);
            && p.r.popped + Contents(c, p) == Encodable(c.write.encode, p.w.accepted)
            && p.r.popped <= Encodable(c.write.encode, p.w.accepted)
  {
    AfterCoherent(c, Start(), steps);
    Conserved(c, After(c, Start(), steps));
  }

  /** The abstract queue. */
  datatype Fifo<M> = Fifo(contents: seq<M>, consumed: seq<M>)

  function Abstract<M>(c: Config<M>, p: Pipe<M>): Fifo<M> {
    Fifo(Contents(c, p), p.r.popped)
  }

  function Push<M>(q: Fifo<M>, items: seq<M>): Fifo<M> {
    q.(contents := q.contents + items)
  }

  function Pop<M>(q: Fifo<M>): Fifo<M>
    requires q.contents != []
  {
    Fifo(q.contents[1..], q.consumed + [q.contents[0]])
  }

  predicate Pops<M>(p: Pipe<M>, s: Step<M>) {
    s.ConsumeItem? && p.r.side.queue != []
  }

  /** What a call adds: an item that is accepted and that encodes. */
  function Pushes<M>(c: Config<M>, p: Pipe<M>, s: Step<M>): seq<M> {
    if Feeds(s) && HasRoom(c.write, p.w.side) then Keeping(c.write.encode)(s.call.item) else []
  }

  /**
   * Refinement of a FIFO queue: an accepted encodable item is pushed, a consumed item is popped,
   * and every other call leaves the queue as it is.
   */
  lemma RefinesQueue<M(!new)>(c: Config<M>, p: Pipe<M>, s: Step<M>)
    requires Faithful(c.write.encode, c.read.decode) && Coherent(c, p)
    ensures Pops(p, s) ==> Contents(c, p) != []
    ensures Abstract(c, Next(c, p, s)) ==
            if Pops(p, s) then Pop(Abstract(c, p)) else Push(Abstract(c, p), Pushes(c, p, s))
  {
    NextCoherent(c, p, s);
    Conserved(c, p);
    Conserved(c, Next(c, p, s));
    NextEffect(c, p, s);
    HeadOfContents(c, p);
    if Pops(p, s) {
      Popped(Abstract(c, p), Abstract(c, Next(c, p, s)));
    } else {
      Pushed(Abstract(c, p), Abstract(c, Next(c, p, s)), Pushes(c, p, s));
    }
  }

  lemma NextEffect<M>(c: Config<M>, p: Pipe<M>, s: Step<M>)
    ensures var n := Next(c, p, s);
            && Encodable(c.write.encode, n.w.accepted) == Encodable(c.write.encode, p.w.accepted) + Pushes(c, p, s)
            && n.r.popped == if Pops(p, s) then p.r.popped + [p.r.side.queue[0]] else p.r.popped
  {
    if Feeds(s) && HasRoom(c.write, p.w.side) {
      WireSnoc(c.write.encode, p.w.accepted, s.call.item);
    }
  }

  lemma HeadOfContents<M>(c: Config<M>, p: Pipe<M>)
    ensures p.r.side.queue != [] ==> Contents(c, p) != [] && Contents(c, p)[0] == p.r.side.queue[0]
  {
  }

  lemma Popped<M>(q: Fifo<M>, n: Fifo<M>)
    requires q.contents != [] && n.consumed == q.consumed + [q.contents[0]]
    requires n.consumed + n.contents == q.consumed + q.contents
    ensures n == Pop(q)
  {
    assert q.contents == [q.contents[0]] + q.contents[1..];
    Regroup(q.consumed, [q.contents[0]], q.contents[1..]);
    Cancel(n.consumed, n.contents, q.contents[1..]);
  }

  lemma Pushed<M>(q: Fifo<M>, n: Fifo<M>, items: seq<M>)
    requires n.consumed == q.consumed
    requires n.consumed + n.contents == q.consumed + q.contents + items
    ensures n == Push(q, items)
  {
    Regroup(q.consumed, q.contents, items);
    Cancel(q.consumed, n.contents, q.contents + items);
  }

  // ---------------------------------------------------------------- progress

  /** Every byte and item weighs less the further it has got. */
  function Weight<M>(c: Config<M>, p: Pipe<M>): nat {
    3 * |WireOf(c.write.encode, p.w.side.queue)| + |p.w.side.queue|
    + 3 * |p.w.side.buffer| + 2 * |p.transit| + |p.r.side.buffer| + |p.r.side.queue|
  }

  predicate Feeds<M>(s: Step<M>) {
    s.Write? && s.call.FeedItem?
  }

  lemma FlushLightens<M>(c: WriteConfig<M>, w: WriteSide<M>)
    ensures var f := Flushed(c, w);
            && |WireOf(c.encode, f.queue)| + |f.buffer| == |WireOf(c.encode, w.queue)| + |w.buffer|
            && |f.queue| <= |w.queue|
            && (w.queue != [] ==> |f.queue| < |w.queue|)
  {
    var k := GoodRun(c.encode, w.queue);
    assert w.queue == w.queue[..k] + w.queue[k..];
    FlatAppend(Framing(c.encode), w.queue[..k], w.queue[k..]);
    if k < |w.queue| {
      assert WireOf(c.encode, w.queue[k..]) == [] + WireOf(c.encode, w.queue[k + 1..]);
    }
  }

  lemma NeverHeavier<M>(c: Config<M>, p: Pipe<M>, s: Step<M>)
    requires !Feeds(s)
    ensures Weight(c, Next(c, p, s)) <= Weight(c, p)
  {
    if s.Write? && s.call.Process? {
      FlushLightens(c.write, p.w.side);
    } else if s.ProcessRead? {
      ParseUpToIsPrefix(c.read.decode, p.r.side.buffer, FreeSlots(c.read, p.r.side));
    }
  }

  /** A call that makes progress, wherever there is something left to do. */
  function Move<M>(c: Config<M>, p: Pipe<M>): Step<M> {
    if p.w.side.queue != [] then Write(Writer.Process)
    else if p.w.side.buffer != [] then Write(Writer.ConsumeAll)
    else if p.r.side.queue != [] then ConsumeItem
    else if Peek(c.read.decode, p.r.side.buffer).Complete? then ProcessRead
    else Carry(|p.transit|)
  }

  /** With frames that fit, a full buffer holds a whole frame, so there is always a call that helps. */
  lemma MoveHelps<M(!new)>(c: Config<M>, p: Pipe<M>)
    requires Faithful(c.write.encode, c.read.decode) && Coherent(c, p)
    requires FramesFit(c.write.encode, p.w.accepted, c.read.bufferSize)
    requires Weight(c, p) > 0
    ensures Weight(c, Next(c, p, Move(c, p))) < Weight(c, p)
  {
    if p.w.side.queue != [] {
      FlushLightens(c.write, p.w.side);
    } else if p.w.side.buffer == [] && p.r.side.queue == [] {
      NeverBad(c, p);
      if Peek(c.read.decode, p.r.side.buffer).Complete? {
        ProcessHelps(c.read, p.r.side);
      } else {
        CarryHelps(c, p);
      }
    }
  }

  lemma NeverBad<M(!new)>(c: Config<M>, p: Pipe<M>)
    requires Faithful(c.write.encode, c.read.decode) && Coherent(c, p)
    ensures !Peek(c.read.decode, p.r.side.buffer).Bad?
  {
    BytesParse(c, p);
    if Peek(c.read.decode, p.r.side.buffer).Bad? {
      PeekExtends(c.read.decode, p.r.side.buffer, Ahead(p));
    }
  }

  lemma ProcessHelps<M>(c: ReadConfig<M>, r: ReadSide<M>)
    requires r.queue == [] && Peek(c.decode, r.buffer).Complete?
    ensures |Processed(c, r).buffer| + |Processed(c, r).queue| < |r.buffer|
  {
    ParseUpToIsPrefix(c.decode, r.buffer, FreeSlots(c, r));
    ParseStops(c.decode, r.buffer);
  }

  lemma CarryHelps<M(!new)>(c: Config<M>, p: Pipe<M>)
    requires Faithful(c.write.encode, c.read.decode) && Coherent(c, p)
    requires FramesFit(c.write.encode, p.w.accepted, c.read.bufferSize)
    requires p.w.side == WriteSide([], []) && p.r.side.queue == []
    requires Peek(c.read.decode, p.r.side.buffer).Incomplete? && Weight(c, p) > 0
    ensures p.transit != [] && Accepts(c.read, p.r.side)
  {
    BytesParse(c, p);
    assert p.r.side.buffer + Ahead(p) == p.r.side.buffer + p.transit;
    assert p.r.side.buffer + [] == p.r.side.buffer;
    if p.transit != [] {
      var framed := p.w.accepted[..|p.w.accepted| - |p.w.side.queue|];
      var total := WireOf(c.write.encode, framed);
      WireFits(c.write.encode, c.read.decode, framed, c.read.bufferSize);
      BytesTracked(c, p);
      if !Accepts(c.read, p.r.side) {
        FullWithoutFrame(c.read.decode, total, p.r.popped, p.r.side.buffer, Ahead(p), c.read.bufferSize);
      }
    }
  }

  ghost predicate NoFeeds<M>(steps: seq<Step<M>>) {
    forall i :: 0 <= i < |steps| ==> !Feeds(steps[i])
  }

  /** Everything accepted so far can still be delivered without feeding anything more. */
  ghost predicate Drainable<M(!new)>(c: Config<M>, p: Pipe<M>) {
    exists more: seq<Step<M>> :: NoFeeds(more) && After(c, p, more).r.popped == Encodable(c.write.encode, p.w.accepted)
  }

  lemma AfterCons<M>(c: Config<M>, p: Pipe<M>, s: Step<M>, rest: seq<Step<M>>)
    ensures After(c, p, [s] + rest) == After(c, Next(c, p, s), rest)
    ensures !Feeds(s) && NoFeeds(rest) ==> NoFeeds([s] + rest)
  {
  }

  /** A schedule that empties the pipe. */
  lemma {:induction false} Drain<M(!new)>(c: Config<M>, p: Pipe<M>) returns (more: seq<Step<M>>)
    requires Faithful(c.write.encode, c.read.decode) && Coherent(c, p)
    requires FramesFit(c.write.encode, p.w.accepted, c.read.bufferSize)
    ensures NoFeeds(more) && |more| <= Weight(c, p)
    ensures After(c, p, more).r.popped == Encodable(c.write.encode, p.w.accepted)
    decreases Weight(c, p)
  {
    if Weight(c, p) == 0 {
      more := [];
      WeightlessIsDelivered(c, p);
    } else {
      var s := Move(c, p);
      MoveHelps(c, p);
      NextCoherent(c, p, s);
      var rest := Drain(c, Next(c, p, s));
      more := [s] + rest;
      AfterCons(c, p, s, rest);
    }
  }

  lemma WeightlessIsDelivered<M(!new)>(c: Config<M>, p: Pipe<M>)
    requires Faithful(c.write.encode, c.read.decode) && Coherent(c, p)
    requires Weight(c, p) == 0
    ensures p.r.popped == Encodable(c.write.encode, p.w.accepted)
  {
    Conserved(c, p);
    assert p.r.side.buffer + Ahead(p) == [];
    assert Contents(c, p) == [];
  }

  /** Calls that neither feed nor consume an item. */
  ghost predicate Moves<M>(steps: seq<Step<M>>) {
    forall i :: 0 <= i < |steps| ==> !Feeds(steps[i]) && !steps[i].ConsumeItem?
  }

  /** Whatever is under way can be brought into the reader's queue, without consuming anything. */
  lemma {:induction false} Bring<M(!new)>(c: Config<M>, p: Pipe<M>) returns (more: seq<Step<M>>)
    requires Faithful(c.write.encode, c.read.decode) && Coherent(c, p)
    requires FramesFit(c.write.encode, p.w.accepted, c.read.bufferSize)
    requires Contents(c, p) != []
    ensures Moves(more)
    ensures var z := After(c, p, more);
            && z.r.side.queue != [] && Contents(c, z) == Contents(c, p)
            && z.w.accepted == p.w.accepted && Coherent(c, z)
    decreases Weight(c, p)
  {
    hide Contents, Coherent;
    if p.r.side.queue != [] {
      more := [];
    } else {
      if Weight(c, p) == 0 {
        WeightlessIsEmpty(c, p);
      }
      var s := Move(c, p);
      MoveHelps(c, p);
      NextCoherent(c, p, s);
      RefinesQueue(c, p, s);
      assert Contents(c, p) + [] == Contents(c, p);
      var rest := Bring(c, Next(c, p, s));
      more := [s] + rest;
      AfterCons(c, p, s, rest);
    }
  }

  lemma WeightlessIsEmpty<M>(c: Config<M>, p: Pipe<M>)
    requires Weight(c, p) == 0
    ensures Contents(c, p) == []
  {
    assert p.r.side.buffer + Ahead(p) == [];
  }

  // ---------------------------------------------------------------- when frames do not fit

  /** The buffer is full with the beginning of one frame: nothing goes in and nothing comes out. */
  ghost predicate Stuck<M>(c: Config<M>, r: ReadSide<M>) {
    r.queue == [] && |r.buffer| >= c.read.bufferSize && Peek(c.read.decode, r.buffer).Incomplete?
  }

  lemma {:induction false} StuckForEver<M>(c: Config<M>, p: Pipe<M>, more: seq<Step<M>>)
    requires Stuck(c, p.r.side)
    ensures After(c, p, more).r == p.r
    decreases |more|
  {
    if more != [] {
      assert p.r.side.queue + [] == p.r.side.queue;
      StuckForEver(c, Next(c, p, more[0]), more[1..]);
    }
  }

  function Oversizing<M>(c: Config<M>, m: M): seq<Step<M>> {
    [Write(Writer.FeedItem(m)), Write(Writer.Process), Write(Writer.ConsumeAll), Carry(c.read.bufferSize)]
  }

  /** One item with too long a frame is enough to block the pipe, whatever is done afterwards. */
  lemma OversizedFrameBlocks<M(!new)>(c: Config<M>, m: M)
    requires Faithful(c.write.encode, c.read.decode)
    requires c.write.encode(m).Some? && |FrameOf(c.write.encode, m)| > c.read.bufferSize
    ensures var steps := Oversizing(c, m);
            !Drainable(c, After(c, Start(), steps))
  {
    var frame := FrameOf(c.write.encode, m);
    var steps := Oversizing(c, m);
    var p1 := Next(c, Start(), steps[0]);
    var p2 := Next(c, p1, steps[1]);
    var p3 := Next(c, p2, steps[2]);
    var p4 := Next(c, p3, steps[3]);
    assert p4 == After(c, Start(), steps) by {
      assert After(c, p3, steps[3..]) == p4;
      assert After(c, p2, steps[2..]) == p4 by { assert steps[2..][1..] == steps[3..]; }
      assert After(c, p1, steps[1..]) == p4 by { assert steps[1..][1..] == steps[2..]; }
    }
    WireSnoc(c.write.encode, [], m);
    assert [] + [m] == [m] && [] + frame == frame;
    assert p2.w.side.buffer == frame && p3.transit == frame;
    assert p4.r.side == ReadSide([], frame[..c.read.bufferSize]) && p4.w.accepted == [m];
    FramesArePrefixFree(c.write.encode, c.read.decode, m, c.read.bufferSize);
    forall more: seq<Step<M>> ensures After(c, p4, more).r.popped != Encodable(c.write.encode, p4.w.accepted) {
      StuckForEver(c, p4, more);
    }
  }

  ghost predicate Sends<M>(steps: seq<Step<M>>, allowed: M -> bool) {
    forall i :: 0 <= i < |steps| && Feeds(steps[i]) ==> allowed(steps[i].call.item)
  }

  lemma {:induction false} AcceptedAllowed<M>(c: Config<M>, p: Pipe<M>, steps: seq<Step<M>>, allowed: M -> bool)
    requires Sends(steps, allowed)
    requires forall m :: m in p.w.accepted ==> allowed(m)
    ensures forall m :: m in After(c, p, steps).w.accepted ==> allowed(m)
    decreases |steps|
  {
    if steps != [] {
      AcceptedAllowed(c, Next(c, p, steps[0]), steps[1..], allowed);
    }
  }

  /**
   * Deadlock freedom, exactly: an application that sends items from `allowed` can drain the pipe from every state
   * any schedule reaches if and only if each of those items that encodes has a frame that fits the receive buffer.
   */
  lemma DrainableIffFramesFit<M(!new)>(c: Config<M>, allowed: M -> bool)
    requires Faithful(c.write.encode, c.read.decode)
    ensures (forall steps: seq<Step<M>> :: Sends(steps, allowed) ==> Drainable(c, After(c, Start(), steps)))
       <==> (forall m :: allowed(m) && c.write.encode(m).Some? ==> |FrameOf(c.write.encode, m)| <= c.read.bufferSize)
  {
    if forall m :: allowed(m) && c.write.encode(m).Some? ==> |FrameOf(c.write.encode, m)| <= c.read.bufferSize {
      forall steps: seq<Step<M>> | Sends(steps, allowed) ensures Drainable(c, After(c, Start(), steps)) {
        AfterCoherent(c, Start(), steps);
        AcceptedAllowed(c, Start(), steps, allowed);
        var more := Drain(c, After(c, Start(), steps));
      }
    } else {
      var m :| allowed(m) && c.write.encode(m).Some? && |FrameOf(c.write.encode, m)| > c.read.bufferSize;
      OversizedFrameBlocks(c, m);
      var steps := Oversizing(c, m);
      assert Sends(steps, allowed);
    }
  }
}
