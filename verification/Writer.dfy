/** Every schedule of calls on the write side: the bytes handed out are the frames of the items taken in. */
module Writer {
  import opened Sequences
  import opened Wire
  import opened ConnectionState

  datatype Step<+M> = FeedItem(item: M) | Process | ConsumeBytes(len: nat) | ConsumeAll

  /** A write side together with every item it accepted and every byte taken from it. */
  datatype Run<M> = Run(side: WriteSide<M>, accepted: seq<M>, sent: bytes)

  function Next<M>(c: WriteConfig<M>, r: Run<M>, s: Step<M>): Run<M> {
    match s
    case FeedItem(item) =>
      Run(Offered(c, r.side, item), if HasRoom(c, r.side) then r.accepted + [item] else r.accepted, r.sent)
    case Process => r.(side := Flushed(c, r.side))
    case ConsumeBytes(len) =>
      r.(side := r.side.(buffer := r.side.buffer[Min(len, |r.side.buffer|)..]), sent := r.sent + Handed(r.side, s))
    case ConsumeAll => r.(side := r.side.(buffer := []), sent := r.sent + Handed(r.side, s))
  }

  function After<M>(c: WriteConfig<M>, r: Run<M>, steps: seq<Step<M>>): Run<M>
    decreases |steps|
  {
    if steps == [] then r else After(c, Next(c, r, steps[0]), steps[1..])
  }

  function Start<M>(): Run<M> {
    Run(WriteSide([], []), [], [])
  }

  /** The bytes a call hands over. */
  function Handed<M>(w: WriteSide<M>, s: Step<M>): bytes {
    match s
    case ConsumeBytes(len) => w.buffer[..Min(len, |w.buffer|)]
    case ConsumeAll => w.buffer
    case _ => []
  }

  /**
   * `out` holds whole frames only: those of the accepted items that are no longer queued, in order,
   * each item the encoder refuses contributing nothing.
   */
  ghost predicate Emits<M>(encode: Encoder<M>, accepted: seq<M>, queue: seq<M>, out: bytes) {
    && |queue| <= |accepted|
    && queue == accepted[|accepted| - |queue|..]
    && out == WireOf(encode, accepted[..|accepted| - |queue|])
  }

  lemma EmitsMore<M>(encode: Encoder<M>, accepted: seq<M>, queue: seq<M>, out: bytes, item: M)
    requires Emits(encode, accepted, queue, out)
    ensures Emits(encode, accepted + [item], queue + [item], out)
  {
    assert (accepted + [item])[..|accepted| - |queue|] == accepted[..|accepted| - |queue|];
  }

  lemma EmitsNext<M>(encode: Encoder<M>, accepted: seq<M>, queue: seq<M>, out: bytes, n: nat)
    requires Emits(encode, accepted, queue, out) && n <= |queue|
    ensures Emits(encode, accepted, queue[n..], out + WireOf(encode, queue[..n]))
  {
    hide Flat;
    var handled := |accepted| - |queue|;
    FlatAppend(Framing(encode), accepted[..handled], queue[..n]);
    assert accepted[..handled + n] == accepted[..handled] + queue[..n];
    assert queue[n..] == accepted[handled + n..];
  }

  /** Flushing takes the items up to and including the first refused one, which adds nothing. */
  lemma FlushedTakes<M>(c: WriteConfig<M>, w: WriteSide<M>)
    ensures var n := Min(GoodRun(c.encode, w.queue) + 1, |w.queue|);
            Flushed(c, w) == WriteSide(w.queue[n..], w.buffer + WireOf(c.encode, w.queue[..n]))
  {
    var k := GoodRun(c.encode, w.queue);
    if k < |w.queue| {
      assert w.queue[..k + 1] == w.queue[..k] + [w.queue[k]];
      WireSnoc(c.encode, w.queue[..k], w.queue[k]);
      assert WireOf(c.encode, w.queue[..k]) + [] == WireOf(c.encode, w.queue[..k]);
    }
  }

  /** Processing the queue appends whole frames, also when it stops at a refused item. */
  lemma EmitsFlushed<M>(c: WriteConfig<M>, w: WriteSide<M>, accepted: seq<M>, before: bytes)
    requires Emits(c.encode, accepted, w.queue, before + w.buffer)
    ensures Emits(c.encode, accepted, Flushed(c, w).queue, before + Flushed(c, w).buffer)
  {
    var n := Min(GoodRun(c.encode, w.queue) + 1, |w.queue|);
    FlushedTakes(c, w);
    EmitsNext(c.encode, accepted, w.queue, before + w.buffer, n);
    Regroup(before, w.buffer, WireOf(c.encode, w.queue[..n]));
  }

  ghost predicate Conserves<M>(c: WriteConfig<M>, r: Run<M>) {
    && Emits(c.encode, r.accepted, r.side.queue, r.sent + r.side.buffer)
    && |r.side.queue| <= c.queueSize
  }

  lemma TakingKeepsBytes<M>(c: WriteConfig<M>, r: Run<M>, s: Step<M>)
    requires s.ConsumeBytes? || s.ConsumeAll?
    ensures var n := Next(c, r, s);
            n.sent + n.side.buffer == r.sent + r.side.buffer && n.side.queue == r.side.queue && n.accepted == r.accepted
  {
  }

  lemma NextConserves<M>(c: WriteConfig<M>, r: Run<M>, s: Step<M>)
    requires Conserves(c, r)
    ensures Conserves(c, Next(c, r, s))
  {
    if s.ConsumeBytes? || s.ConsumeAll? {
      TakingKeepsBytes(c, r, s);
    } else if s.FeedItem? {
      EmitsMore(c.encode, r.accepted, r.side.queue, r.sent + r.side.buffer, s.item);
    } else {
      EmitsFlushed(c, r.side, r.accepted, r.sent);
    }
  }

  /**
   * Conservation with failures: for every mix of calls, what was taken out followed by what is buffered is the
   * concatenation of the frames of the handled items. An encode error drops the failing item alone.
   */
  lemma {:induction false} AfterConserves<M>(c: WriteConfig<M>, r: Run<M>, steps: seq<Step<M>>)
    requires Conserves(c, r)
    ensures Conserves(c, After(c, r, steps))
    decreases |steps|
  {
    if steps != [] {
      NextConserves(c, r, steps[0]);
      AfterConserves(c, Next(c, r, steps[0]), steps[1..]);
    }
  }

  lemma WriterConserves<M>(c: WriteConfig<M>, steps: seq<Step<M>>)
    ensures var r := After(c, Start(), steps);
            && |r.side.queue| <= |r.accepted| && r.side.queue == r.accepted[|r.accepted| - |r.side.queue|..]
            && r.sent + r.side.buffer == WireOf(c.encode, r.accepted[..|r.accepted| - |r.side.queue|])
            && |r.side.queue| <= c.queueSize
  {
    AfterConserves(c, Start(), steps);
  }

  /** A call on the object itself is a step of a run. */
  method PerformStep<M>(w: ConnectionWriteState<M>, s: Step<M>, accepted: seq<M>, sent: bytes)
    returns (nowAccepted: seq<M>, nowSent: bytes)
    requires w.Valid()
    modifies w
    ensures w.Valid() && Run(w.View(), nowAccepted, nowSent) == Next(w.config, Run(old(w.View()), accepted, sent), s)
  {
    hide Flushed;
    nowAccepted, nowSent := accepted, sent;
    assert sent + [] == sent;
    match s
    case FeedItem(item) =>
      var back := w.FeedItem(item);
      nowAccepted := if back.None? then accepted + [item] else accepted;
    case Process =>
      var _ := w.Process();
    case ConsumeBytes(len) =>
      var out := w.ConsumeBytes(len);
      nowSent := if out.Some? then sent + out.value else sent;
    case ConsumeAll =>
      var out := w.ConsumeAll();
      nowSent := if out.Some? then sent + out.value else sent;
  }

  /** Any calls on the object, one after the other, are a run. */
  method Perform<M>(w: ConnectionWriteState<M>, steps: seq<Step<M>>) returns (accepted: seq<M>, sent: bytes)
    requires w.Valid() && w.View() == WriteSide([], [])
    modifies w
    ensures w.Valid() && Run(w.View(), accepted, sent) == After(w.config, Start(), steps)
  {
    hide Next;
    accepted, sent := [], [];
    for i := 0 to |steps|
      invariant w.Valid()
      invariant After(w.config, Run(w.View(), accepted, sent), steps[i..]) == After(w.config, Start(), steps)
    {
      accepted, sent := PerformStep(w, steps[i], accepted, sent);
      assert steps[i..][1..] == steps[i + 1..];
    }
    assert steps[|steps|..] == [];
  }
}
