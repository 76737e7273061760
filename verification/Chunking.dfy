/** What a read driver does with the chunks it reads: settle what the buffer holds, then offer the next chunk. */
module Chunking {
  import opened Sequences
  import opened Wire
  import opened ConnectionState

  /** After settling, the buffer starts with no complete frame. `refused` remembers a chunk that did not go in. */
  datatype Driver<M> = Driver(items: seq<M>, buffer: bytes, refused: bool)

  /** A driver feeds only while nothing undecodable is in front, and gets no further once a chunk was refused. */
  function Offer<M>(c: ReadConfig<M>, d: Driver<M>, chunk: bytes): Driver<M> {
    if d.refused || Peek(c.decode, d.buffer).Bad? then d
    else if |d.buffer| >= c.bufferSize then d.(refused := true)
    else
      var p := Parse(c.decode, d.buffer + chunk);
      Driver(d.items + p.items, p.rest, false)
  }

  function OfferAll<M>(c: ReadConfig<M>, d: Driver<M>, chunks: seq<bytes>): Driver<M>
    decreases |chunks|
  {
    if chunks == [] then d else OfferAll(c, Offer(c, d, chunks[0]), chunks[1..])
  }

  function Fresh<M>(): Driver<M> {
    Driver([], [], false)
  }

  lemma {:induction false} OfferLast<M>(c: ReadConfig<M>, d: Driver<M>, chunks: seq<bytes>, last: bytes)
    ensures OfferAll(c, d, chunks + [last]) == Offer(c, OfferAll(c, d, chunks), last)
    decreases |chunks|
  {
    if chunks == [] {
      assert chunks + [last] == [last];
      assert OfferAll(c, d, [last]) == OfferAll(c, Offer(c, d, last), []);
    } else {
      OfferLast(c, Offer(c, d, chunks[0]), chunks[1..], last);
      assert (chunks + [last])[1..] == chunks[1..] + [last];
    }
  }

  // ---------------------------------------------------------------- what a connection's read side amounts to

  /** The driver a read side amounts to: delivered, queued and complete buffered items count alike. */
  function AsDriver<M>(delivered: seq<M>, c: ReadConfig<M>, r: ReadSide<M>): Driver<M> {
    var p := Parse(c.decode, r.buffer);
    Driver(delivered + (r.queue + p.items), p.rest, false)
  }

  lemma ProcessSettles<M>(delivered: seq<M>, c: ReadConfig<M>, r: ReadSide<M>)
    ensures AsDriver(delivered, c, Processed(c, r)) == AsDriver(delivered, c, r)
  {
    var p := ParseUpTo(c.decode, r.buffer, FreeSlots(c, r));
    ParseUpToIsPrefix(c.decode, r.buffer, FreeSlots(c, r));
    Regroup(r.queue, p.items, Parse(c.decode, p.rest).items);
  }

  lemma PopSettles<M>(delivered: seq<M>, c: ReadConfig<M>, r: ReadSide<M>, item: M)
    ensures AsDriver(delivered, c, r.(queue := [item] + r.queue)) == AsDriver(delivered + [item], c, r)
  {
  }

  lemma FeedOffers<M>(delivered: seq<M>, c: ReadConfig<M>, r: ReadSide<M>, chunk: bytes)
    requires r.queue == [] && Peek(c.decode, r.buffer).Incomplete?
    ensures var d := Offer(c, AsDriver(delivered, c, r), chunk);
            d == if Accepts(c, r) then AsDriver(delivered, c, Fed(c, r, chunk))
                 else AsDriver(delivered, c, r).(refused := true)
  {
  }

  /** Offering the chunks so far has led to this read side, and a chunk was refused when `refused` says so. */
  ghost predicate Offering<M>(c: ReadConfig<M>, chunks: seq<bytes>, delivered: seq<M>, r: ReadSide<M>, refused: bool) {
    OfferAll(c, Fresh(), chunks) == AsDriver(delivered, c, r).(refused := refused)
  }

  /** A refused chunk leaves the read side as it is, and so do all chunks after it. */
  lemma OfferingMore<M>(c: ReadConfig<M>, chunks: seq<bytes>, delivered: seq<M>, r: ReadSide<M>, refused: bool,
                        chunk: bytes)
    requires Offering(c, chunks, delivered, r, refused)
    requires r.queue == [] && Peek(c.decode, r.buffer).Incomplete? && (refused ==> !Accepts(c, r))
    ensures Offering(c, chunks + [chunk], delivered, Fed(c, r, chunk), !Accepts(c, r))
  {
    hide OfferAll;
    OfferLast(c, Fresh(), chunks, chunk);
    FeedOffers(delivered, c, r, chunk);
  }

  function Joined(chunks: seq<bytes>): bytes {
    if chunks == [] then [] else chunks[0] + Joined(chunks[1..])
  }

  lemma {:induction false} JoinedLast(chunks: seq<bytes>, last: bytes)
    ensures Joined(chunks + [last]) == Joined(chunks) + last
  {
    if chunks == [] {
      assert chunks + [last] == [last];
      assert Joined([last]) == last + [];
    } else {
      JoinedLast(chunks[1..], last);
      assert (chunks + [last])[1..] == chunks[1..] + [last];
    }
  }

  ghost predicate NonEmpty(chunks: seq<bytes>) {
    forall i :: 0 <= i < |chunks| ==> chunks[i] != []
  }

  /** Chunks read from a source whose bytes have all arrived, when it is no longer than one chunk can be. */
  ghost predicate OneChunk(source: bytes, pos: nat, chunks: seq<bytes>) {
    (chunks == [] && (pos == 0 || pos == |source|)) || chunks == [source]
  }

  lemma OneChunkOffered(source: bytes, pos: nat, chunks: seq<bytes>, carry: bytes)
    requires OneChunk(source, pos, chunks) && pos <= |source|
    requires source[..pos] == Joined(chunks) + carry
    ensures carry != [] ==> OneChunk(source, pos, chunks + [carry])
    ensures chunks != [] ==> carry == [] && pos == |source|
    ensures carry == [] && chunks == [] ==> pos == 0
  {
    assert chunks == [source] ==> Joined(chunks) == source + [];
    assert [] + [carry] == [carry] && [] + carry == carry && source[..|source|] == source;
  }

  function Singles(b: bytes): (chunks: seq<bytes>)
    ensures NonEmpty(chunks)
    ensures Joined(chunks) == b
  {
    if b == [] then [] else
      assert [b[0]] + b[1..] == b;
      [[b[0]]] + Singles(b[1..])
  }

  /** Nothing left to settle, and nothing refused. */
  ghost predicate Settled<M>(c: ReadConfig<M>, d: Driver<M>) {
    !d.refused && !Peek(c.decode, d.buffer).Complete?
  }

  /** Frames that fit are never refused, however the stream is cut. */
  lemma {:induction false} FittingIsNeverRefused<M>(c: ReadConfig<M>, d: Driver<M>, chunks: seq<bytes>)
    requires Settled(c, d) && NonEmpty(chunks)
    requires Fits(c.decode, d.buffer + Joined(chunks), c.bufferSize)
    ensures !OfferAll(c, d, chunks).refused
    decreases |chunks|
  {
    if chunks != [] {
      var first, later := chunks[0], Joined(chunks[1..]);
      Regroup(d.buffer, first, later);
      if Peek(c.decode, d.buffer).Bad? {
        BadStays(c, d, chunks);
      } else {
        if |d.buffer| >= c.bufferSize {
          assert Tracks(c.decode, d.buffer + (first + later), [], d.buffer + (first + later)) by {
            assert (d.buffer + (first + later))[..0] == [];
          }
          FullWithoutFrame(c.decode, d.buffer + (first + later), [], d.buffer, first + later, c.bufferSize);
        }
        FitsAfterParse(c, d.buffer + first, later);
        ParseStops(c.decode, d.buffer + first);
        FittingIsNeverRefused(c, Offer(c, d, first), chunks[1..]);
      }
    }
  }

  lemma {:induction false} BadStays<M>(c: ReadConfig<M>, d: Driver<M>, chunks: seq<bytes>)
    requires Peek(c.decode, d.buffer).Bad?
    ensures OfferAll(c, d, chunks) == d
    decreases |chunks|
  {
    if chunks != [] {
      BadStays(c, d, chunks[1..]);
    }
  }

  /** Taking out complete frames does not change whether the rest fits. */
  lemma {:induction false} FitsAfterParse<M>(c: ReadConfig<M>, b: bytes, later: bytes)
    requires Fits(c.decode, b + later, c.bufferSize)
    ensures Fits(c.decode, Parse(c.decode, b).rest + later, c.bufferSize)
    decreases |b|
  {
    var f := Peek(c.decode, b);
    if f.Complete? {
      PeekExtends(c.decode, b, later);
      assert (b + later)[f.total..] == b[f.total..] + later;
      FitsAfterParse(c, b[f.total..], later);
    }
  }

  /** A stream that does not fit is refused when it arrives byte by byte. */
  lemma {:induction false} OversizedIsRefused<M>(c: ReadConfig<M>, d: Driver<M>, b: bytes)
    requires !d.refused && Peek(c.decode, d.buffer).Incomplete? && |d.buffer| <= c.bufferSize
    requires !Fits(c.decode, d.buffer + b, c.bufferSize)
    ensures OfferAll(c, d, Singles(b)).refused
    decreases |b|
  {
    assert d.buffer + [] == d.buffer;
    if b != [] {
      var chunks := Singles(b);
      assert chunks[0] == [b[0]] && chunks[1..] == Singles(b[1..]);
      if |d.buffer| >= c.bufferSize {
        RefusedStays(c, Offer(c, d, chunks[0]), chunks[1..]);
      } else {
        var more := d.buffer + [b[0]];
        assert d.buffer + b == more + b[1..];
        OneMoreByte(c, d.buffer, b[0]);
        match Peek(c.decode, more)
        case Incomplete =>
          assert d.items + [] == d.items;
          OversizedIsRefused(c, Offer(c, d, chunks[0]), b[1..]);
        case Bad(_) =>
          PeekExtends(c.decode, more, b[1..]);
          assert false;
        case Complete(_, total) =>
          PeekExtends(c.decode, more, b[1..]);
          assert (more + b[1..])[total..] == [] + b[1..];
          OversizedIsRefused(c, Offer(c, d, chunks[0]), b[1..]);
      }
    }
  }

  /** A byte that completes a frame is its last one. */
  lemma OneMoreByte<M>(c: ReadConfig<M>, b: bytes, last: byte)
    requires Peek(c.decode, b).Incomplete?
    ensures var f := Peek(c.decode, b + [last]);
            && (!f.Incomplete? ==> f.total == |b| + 1)
            && (f.Complete? ==> Parse(c.decode, b + [last]) == Parsed([f.item], []))
  {
    if |b| >= 8 {
      assert (b + [last])[..8] == b[..8];
    }
    var f := Peek(c.decode, b + [last]);
    if f.Complete? {
      assert (b + [last])[f.total..] == [];
    }
  }

  lemma {:induction false} RefusedStays<M>(c: ReadConfig<M>, d: Driver<M>, chunks: seq<bytes>)
    requires d.refused
    ensures OfferAll(c, d, chunks).refused
    decreases |chunks|
  {
    if chunks != [] {
      RefusedStays(c, Offer(c, d, chunks[0]), chunks[1..]);
    }
  }

  /**
   * The refused-feed branch of the drivers, exactly: it is unreachable for every way of reading a source
   * if and only if every frame of the source, and its final rest, fits the receive buffer.
   */
  lemma RefusalIffOversized<M>(c: ReadConfig<M>, source: bytes)
    ensures (forall chunks: seq<bytes> :: NonEmpty(chunks) && Joined(chunks) == source ==>
               !OfferAll(c, Fresh<M>(), chunks).refused)
       <==> Fits(c.decode, source, c.bufferSize)
  {
    assert [] + source == source;
    if Fits(c.decode, source, c.bufferSize) {
      forall chunks: seq<bytes> | NonEmpty(chunks) && Joined(chunks) == source
        ensures !OfferAll(c, Fresh<M>(), chunks).refused
      {
        FittingIsNeverRefused(c, Fresh(), chunks);
      }
    } else {
      OversizedIsRefused(c, Fresh(), source);
      assert NonEmpty(Singles(source)) && Joined(Singles(source)) == source;
    }
  }
}
