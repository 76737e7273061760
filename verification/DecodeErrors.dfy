/** What a read driver loses behind a decode error, over every run and every way of reading a source. */
module DecodeErrors {
  import opened Sequences
  import opened Wire
  import opened ConnectionState
  import opened Chunking
  import Reader

  /** The items that the last chunk offered has completed. */
  function LastBatch<M>(c: ReadConfig<M>, chunks: seq<bytes>): seq<M> {
    if chunks == [] then [] else
      var last := |chunks| - 1;
      Parse(c.decode, OfferAll(c, Fresh(), chunks[..last]).buffer + chunks[last]).items
  }

  /** The items of that batch that an error leaves in the queue. */
  function Lost<M>(c: ReadConfig<M>, chunks: seq<bytes>): seq<M> {
    var t := LastBatch(c, chunks);
    t[|t| - Min(|t|, c.queueSize - 1)..]
  }

  // ---------------------------------------------------------------- along a run

  ghost predicate Trails<M>(o: seq<M>, t: seq<M>, size: nat) {
    |o| <= |t| && o == t[|t| - |o|..] && (|o| == |t| || |o| + 1 >= size)
  }

  /** Once a bad frame is buffered, what is still obtainable is the end of the last batch: all, or a queue's worth. */
  ghost predicate Behind<M>(c: ReadConfig<M>, chunks: seq<bytes>, r: ReadSide<M>) {
    Reader.Doomed(c, r) ==> Trails(Reader.Obtainable(c, r), LastBatch(c, chunks), c.queueSize)
  }

  lemma BehindPoll<M>(c: ReadConfig<M>, chunks: seq<bytes>, p: Reader.Polls<M>)
    requires |p.side.queue| <= c.queueSize && Behind(c, chunks, p.side)
    ensures Behind(c, chunks, Reader.Poll(c, p).side)
  {
    hide Parse, Processed, LastBatch, Reader.Obtainable;
    ProcessSame(c, p.side);
    if Reader.Doomed(c, p.side) {
      Reader.PollStep(c, p);
      var n := Reader.Poll(c, p);
      if Broken(c, n.side) {
        Reader.SettledAtError(c, n);
      }
    }
  }

  lemma ProcessSame<M>(c: ReadConfig<M>, r: ReadSide<M>)
    ensures Parse(c.decode, Processed(c, r).buffer).rest == Parse(c.decode, r.buffer).rest
  {
    ParseUpToIsPrefix(c.decode, r.buffer, FreeSlots(c, r));
  }

  /** A chunk that goes in is the new last batch; a refused one leaves a buffer without any whole frame. */
  lemma BehindFeed<M>(c: ReadConfig<M>, chunks: seq<bytes>, delivered: seq<M>, r: ReadSide<M>, refused: bool,
                      chunk: bytes)
    requires Offering(c, chunks, delivered, r, refused)
    requires r.queue == [] && Peek(c.decode, r.buffer).Incomplete?
    ensures Behind(c, chunks + [chunk], Fed(c, r, chunk))
  {
    hide OfferAll;
    var all := chunks + [chunk];
    assert all[..|all| - 1] == chunks;
    assert OfferAll(c, Fresh(), chunks).buffer == r.buffer;
  }

  /** The chunks a driver has offered: of bounded size, each to a buffer without a bad frame in front. */
  ghost predicate Stepwise<M>(c: ReadConfig<M>, chunks: seq<bytes>, largest: nat) {
    && NonEmpty(chunks) && (forall i :: 0 <= i < |chunks| ==> |chunks[i]| <= largest)
    && (chunks != [] ==> !Peek(c.decode, OfferAll(c, Fresh<M>(), chunks[..|chunks| - 1]).buffer).Bad?)
  }

  lemma StepwiseFeed<M>(c: ReadConfig<M>, chunks: seq<bytes>, delivered: seq<M>, r: ReadSide<M>, refused: bool,
                        chunk: bytes, largest: nat)
    requires Offering(c, chunks, delivered, r, refused) && Stepwise(c, chunks, largest)
    requires Peek(c.decode, r.buffer).Incomplete? && 0 < |chunk| <= largest
    ensures Stepwise(c, chunks + [chunk], largest)
  {
    hide OfferAll;
    var all := chunks + [chunk];
    assert all[..|all| - 1] == chunks;
  }

  lemma FreshStarts<M>(c: ReadConfig<M>, largest: nat)
    ensures Tracks(c.decode, [], [], []) && Offering(c, [], [], ReadSide([], []), false)
    ensures Behind(c, [], ReadSide([], [])) && Stepwise(c, [], largest)
  {
  }

  /** What is queued at the error, exactly. */
  lemma QueuedAtError<M>(c: ReadConfig<M>, chunks: seq<bytes>, r: ReadSide<M>)
    requires Behind(c, chunks, r) && Broken(c, r)
    ensures r.queue == Lost(c, chunks)
    ensures r.queue == [] <==> LastBatch(c, chunks) == [] || c.queueSize == 1
  {
    hide LastBatch;
    Reader.SettledAtError(c, Reader.Polls([], r));
  }

  // ---------------------------------------------------------------- over every way of reading a source

  /** The chunks, none larger than `largest`, bring a driver from the start of the source to its undecodable frame. */
  ghost predicate LeadsToError<M>(c: ReadConfig<M>, source: bytes, chunks: seq<bytes>, largest: nat) {
    && chunks != [] && Stepwise(c, chunks, largest)
    && Joined(chunks) <= source
    && !OfferAll(c, Fresh<M>(), chunks).refused && Peek(c.decode, OfferAll(c, Fresh<M>(), chunks).buffer).Bad?
  }

  /** So it is whenever a driver meets a decode error. */
  lemma ErrorReached<M>(c: ReadConfig<M>, source: bytes, chunks: seq<bytes>, largest: nat, delivered: seq<M>,
                        r: ReadSide<M>)
    requires Stepwise(c, chunks, largest) && Joined(chunks) <= source
    requires Offering(c, chunks, delivered, r, false) && Peek(c.decode, r.buffer).Bad?
    ensures LeadsToError(c, source, chunks, largest)
  {
    assert OfferAll(c, Fresh<M>(), []).buffer == [];
  }

  /** As long as nothing is refused, a driver holds what the bytes offered parse to. */
  lemma {:induction false} OffersParse<M>(c: ReadConfig<M>, d: Driver<M>, chunks: seq<bytes>)
    requires !d.refused && !Peek(c.decode, d.buffer).Complete? && !OfferAll(c, d, chunks).refused
    ensures var z, p := OfferAll(c, d, chunks), Parse(c.decode, d.buffer + Joined(chunks));
            && z.items == d.items + p.items
            && (Peek(c.decode, z.buffer).Bad? <==> Peek(c.decode, p.rest).Bad?)
            && (!Peek(c.decode, z.buffer).Bad? ==> z.buffer == p.rest)
            && !Peek(c.decode, z.buffer).Complete?
            && (Peek(c.decode, z.buffer).Bad? ==> Peek(c.decode, z.buffer) == Peek(c.decode, p.rest))
    decreases |chunks|
  {
    hide Peek;
    if chunks == [] {
      assert d.buffer + [] == d.buffer && d.items + [] == d.items;
    } else if Peek(c.decode, d.buffer).Bad? {
      BadStays(c, d, chunks);
      PeekExtends(c.decode, d.buffer, Joined(chunks));
      assert d.items + [] == d.items;
    } else {
      var first, later := chunks[0], chunks[1..];
      var n := Offer(c, d, first);
      if n.refused {
        RefusedStays(c, n, later);
        assert false;
      }
      ParseStops(c.decode, d.buffer + first);
      OffersParse(c, n, later);
      ParseAppend(c.decode, d.buffer + first, Joined(later));
      Regroup(d.buffer, first, Joined(later));
      Regroup(d.items, Parse(c.decode, d.buffer + first).items, Parse(c.decode, n.buffer + Joined(later)).items);
    }
  }

  lemma {:induction false} FitsPrefix<M>(decode: Decoder<M>, b: bytes, k: nat, size: nat)
    requires Fits(decode, b, size) && k <= |b|
    ensures Fits(decode, b[..k], size)
    decreases |b|
  {
    var front := Peek(decode, b[..k]);
    assert b[..k] + b[k..] == b;
    if front.Incomplete? {
      if k >= 8 {
        assert b[..k][..8] == b[..8];
      }
    } else {
      PeekExtends(decode, b[..k], b[k..]);
      if front.Complete? {
        CutAgain(b, front.total, k);
        FitsPrefix(decode, b[front.total..], k - front.total, size);
      }
    }
  }

  /** The bytes read up to the error parse to the items of the whole source, in front of the same bad frame. */
  lemma ErrorSeesAll<M>(c: ReadConfig<M>, source: bytes, chunks: seq<bytes>, largest: nat)
    requires LeadsToError(c, source, chunks, largest)
    ensures var z, all := OfferAll(c, Fresh<M>(), chunks), Parse(c.decode, source);
            z.items == all.items && Peek(c.decode, z.buffer) == Peek(c.decode, all.rest)
  {
    hide Peek, Parse, OfferAll, Joined;
    var read := Joined(chunks);
    OffersParse(c, Fresh<M>(), chunks) by { EmptyIncomplete(c.decode); }
    assert [] + read == read && read + source[|read|..] == source;
    var p := Parse(c.decode, read);
    ParseAppend(c.decode, read, source[|read|..]);
    PeekExtends(c.decode, p.rest, source[|read|..]);
    BadParses(c.decode, p.rest + source[|read|..]);
    assert p.items + [] == p.items;
  }

  lemma EmptyIncomplete<M>(decode: Decoder<M>)
    ensures Peek(decode, []).Incomplete?
  {
  }

  lemma BadParses<M>(decode: Decoder<M>, b: bytes)
    requires Peek(decode, b).Bad?
    ensures Parse(decode, b) == Parsed([], b)
  {
  }

  /** The last chunk on the way to an error, and the driver it was offered to. */
  lemma LastOffer<M>(c: ReadConfig<M>, source: bytes, chunks: seq<bytes>, largest: nat) returns (d: Driver<M>)
    requires LeadsToError(c, source, chunks, largest)
    ensures d == OfferAll(c, Fresh(), chunks[..|chunks| - 1]) && Peek(c.decode, d.buffer).Incomplete?
    ensures var p := Parse(c.decode, d.buffer + chunks[|chunks| - 1]);
            && p.items == LastBatch(c, chunks)
            && OfferAll(c, Fresh(), chunks) == Driver(d.items + p.items, p.rest, false)
  {
    hide Peek, Parse, OfferAll, Joined;
    var last := |chunks| - 1;
    d := OfferAll(c, Fresh(), chunks[..last]);
    assert chunks == chunks[..last] + [chunks[last]];
    OfferLast(c, Fresh(), chunks[..last], chunks[last]);
    OffersParse(c, Fresh<M>(), chunks[..last]) by { EmptyIncomplete(c.decode); }
  }

  /** A chunk that completes a frame and holds a whole bad one behind it is longer than the bad one. */
  lemma BatchNeedsRoom<M>(decode: Decoder<M>, buffer: bytes, chunk: bytes)
    requires Peek(decode, buffer).Incomplete?
    requires var p := Parse(decode, buffer + chunk); p.items != [] && Peek(decode, p.rest).Bad?
    ensures Peek(decode, Parse(decode, buffer + chunk).rest).total < |chunk|
  {
    var b := buffer + chunk;
    var f := Peek(decode, b);
    assert f.Complete?;
    assert b[..|buffer|] == buffer;
    if f.total <= |buffer| {
      PeekCut(decode, b, |buffer|);
    }
    ParseStops(decode, b[f.total..]);
  }

  lemma NoItems<M>(decode: Decoder<M>, b: bytes)
    requires Parse(decode, b).items == []
    ensures Parse(decode, b).rest == b
  {
  }

  /** Bytes that complete some whole frames complete an item. */
  lemma CompletedBy<M>(decode: Decoder<M>, a: bytes, b: bytes)
    requires Parse(decode, a + b).rest == [] && b != []
    ensures |Parse(decode, a).items| < |Parse(decode, a + b).items| && !Peek(decode, Parse(decode, a).rest).Bad?
  {
    hide Peek, Parse;
    var rest := Parse(decode, a).rest;
    ParseAppend(decode, a, b);
    if Peek(decode, rest).Bad? {
      PeekExtends(decode, rest, b);
      BadParses(decode, rest + b);
    }
    if Parse(decode, rest + b).items == [] {
      NoItems(decode, rest + b);
    }
  }

  /** Whole frames followed by a bad one, cut just in front of the last byte of the whole ones. */
  function CutLate(good: bytes, bad: bytes): seq<bytes>
    requires good != []
  {
    var k := |good| - 1;
    Singles(good[..k]) + [good[k..] + bad]
  }

  lemma SinglesAreSmall(b: bytes)
    ensures forall i :: 0 <= i < |Singles(b)| ==> |Singles(b)[i]| == 1
  {
  }

  lemma CutLateLeads<M>(c: ReadConfig<M>, source: bytes, good: bytes, bad: bytes, largest: nat)
    requires Fits(c.decode, source, c.bufferSize)
    requires good != [] && good + bad <= source && Parse(c.decode, good).rest == []
    requires Peek(c.decode, bad).Bad? && |bad| < largest
    ensures LeadsToError(c, source, CutLate(good, bad), largest)
    ensures LastBatch(c, CutLate(good, bad)) != []
  {
    hide Peek, Parse, OfferAll, Joined, Singles, Fits;
    var k := |good| - 1;
    var singles, x := Singles(good[..k]), good[k..] + bad;
    var chunks := CutLate(good, bad);
    JoinedLast(singles, x);
    assert good == good[..k] + good[k..];
    Regroup(good[..k], good[k..], bad);
    assert Joined(chunks) == good + bad;
    SinglesAreSmall(good[..k]);
    assert source[..|good + bad|] == good + bad && [] + (good + bad) == good + bad && [] + good[..k] == good[..k];
    FitsPrefix(c.decode, source, |good + bad|, c.bufferSize);
    EmptyIncomplete(c.decode);
    FittingIsNeverRefused(c, Fresh<M>(), chunks);
    OfferLast(c, Fresh<M>(), singles, x);
    var d := OfferAll(c, Fresh<M>(), singles);
    OffersParse(c, Fresh<M>(), singles);
    OffersParse(c, Fresh<M>(), chunks);
    CompletedBy(c.decode, good[..k], good[k..]);
    ParseAppend(c.decode, good, bad);
    BadParses(c.decode, bad);
    assert [] + bad == bad;
    assert chunks[..|chunks| - 1] == singles;
  }

  /**
   * Exactly when no item can be lost behind the bad frame of a source that fits: if and only if the queue holds a
   * single item, there are no items in front, or a chunk has no room for that frame and the byte before it.
   */
  lemma NothingLostIff<M>(c: ReadConfig<M>, source: bytes, largest: nat)
    requires Fits(c.decode, source, c.bufferSize) && Peek(c.decode, Parse(c.decode, source).rest).Bad?
    ensures (forall chunks :: LeadsToError(c, source, chunks, largest) ==> Lost(c, chunks) == [])
       <==> || c.queueSize == 1 || Parse(c.decode, source).items == []
            || Peek(c.decode, Parse(c.decode, source).rest).total >= largest
  {
    hide Peek, Parse, LastBatch, LeadsToError;
    var all := Parse(c.decode, source);
    var total := Peek(c.decode, all.rest).total;
    if c.queueSize == 1 || all.items == [] || total >= largest {
      forall chunks | LeadsToError(c, source, chunks, largest) ensures Lost(c, chunks) == [] {
        ErrorSeesAll(c, source, chunks, largest);
        var d := LastOffer(c, source, chunks, largest);
        if LastBatch(c, chunks) != [] {
          BatchNeedsRoom(c.decode, d.buffer, chunks[|chunks| - 1]);
          ChunkBound(c, source, chunks, largest);
        }
      }
    } else {
      var good, bad := WholeAndBad(c.decode, source);
      CutLateLeads(c, source, good, bad, largest);
      assert Lost(c, CutLate(good, bad)) != [];
    }
  }

  lemma ChunkBound<M>(c: ReadConfig<M>, source: bytes, chunks: seq<bytes>, largest: nat)
    requires LeadsToError(c, source, chunks, largest)
    ensures chunks != [] && |chunks[|chunks| - 1]| <= largest
  {
  }

  /** The whole frames of a source, and the bad one behind them. */
  lemma WholeAndBad<M>(decode: Decoder<M>, source: bytes) returns (good: bytes, bad: bytes)
    requires Peek(decode, Parse(decode, source).rest).Bad? && Parse(decode, source).items != []
    ensures good != [] && good + bad <= source && Parse(decode, good).rest == []
    ensures Peek(decode, bad).Bad? && |bad| == Peek(decode, Parse(decode, source).rest).total
  {
    hide Parse;
    var n, total := |Parse(decode, source).items|, Peek(decode, Parse(decode, source).rest).total;
    ParseUpToCuts(decode, source, n);
    ParseUpToIsPrefix(decode, source, n);
    var p := ParseUpTo(decode, source, n);
    var rest := p.rest;
    NoItems(decode, p.rest);
    good, bad := source[..|source| - |rest|], rest[..total];
    assert rest[..8] == bad[..8] && rest[8..total] == bad[8..total];
    assert good + rest == source;
  }

  // ---------------------------------------------------------------- a source that arrives in one chunk

  lemma OneChunkRefusesNothing<M>(c: ReadConfig<M>, source: bytes, pos: nat, chunks: seq<bytes>)
    requires OneChunk(source, pos, chunks)
    ensures !OfferAll(c, Fresh<M>(), chunks).refused
  {
    assert OfferAll(c, Fresh<M>(), []) == Fresh();
    assert OfferAll(c, Fresh<M>(), [source]) == OfferAll(c, Offer(c, Fresh<M>(), source), []);
  }

  lemma OneChunkIsLastBatch<M>(c: ReadConfig<M>, source: bytes, pos: nat, chunks: seq<bytes>, largest: nat)
    requires OneChunk(source, pos, chunks) && LeadsToError(c, source, chunks, largest)
    ensures LastBatch(c, chunks) == Parse(c.decode, source).items
  {
    assert chunks[..0] == [] && [] + source == source;
  }

  lemma {:induction false} SmallFits<M>(decode: Decoder<M>, b: bytes, size: nat)
    requires |b| <= size
    ensures Fits(decode, b, size)
    decreases |b|
  {
    var f := Peek(decode, b);
    if f.Complete? {
      SmallFits(decode, b[f.total..], size);
    }
  }
}
