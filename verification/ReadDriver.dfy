/** Facts about one pass of a read driver's loop, shared by the tokio and the compio driver. */
module ReadDriver {
  import opened Sequences
  import opened Wire
  import opened ConnectionState

  /** Nothing queued and nothing undecodable after processing: the buffer starts with no complete frame. */
  lemma Starved<M>(c: ReadConfig<M>, before: ReadSide<M>, r: ReadSide<M>)
    requires r == Processed(c, before) && |before.queue| <= c.queueSize
    requires r.queue == [] && !Broken(c, r)
    ensures Peek(c.decode, r.buffer).Incomplete?
  {
  }

  /** Processing keeps following the stream whose next bytes are in the buffer and, after them, in `ahead`. */
  lemma ProcessFollows<M>(c: ReadConfig<M>, total: bytes, delivered: seq<M>, r: ReadSide<M>, ahead: bytes)
    requires Tracks(c.decode, total, delivered + r.queue, r.buffer + ahead)
    ensures Tracks(c.decode, total, delivered + Processed(c, r).queue, Processed(c, r).buffer + ahead)
  {
    var p := ParseUpTo(c.decode, r.buffer, FreeSlots(c, r));
    TracksTake(c.decode, total, delivered + r.queue, r.buffer, ahead, FreeSlots(c, r));
    assert delivered + r.queue + p.items == delivered + (r.queue + p.items);
  }

  /** With no frame in front of the bytes received so far, everything received has been delivered. */
  lemma AllDelivered<M>(c: ReadConfig<M>, received: bytes, delivered: seq<M>, r: ReadSide<M>)
    requires Tracks(c.decode, received, delivered + r.queue, r.buffer + [])
    requires r.queue == [] && Peek(c.decode, r.buffer).Incomplete?
    ensures Parse(c.decode, received) == Parsed(delivered, r.buffer)
  {
    assert r.buffer + [] == r.buffer && delivered + [] == delivered;
    TracksMeans(c.decode, received, delivered, r.buffer);
  }

  /** With an undecodable frame in front, the items before it are those delivered and those still queued. */
  lemma OnlyBadLeft<M>(c: ReadConfig<M>, received: bytes, unread: bytes, delivered: seq<M>, r: ReadSide<M>,
                       carry: bytes)
    requires Tracks(c.decode, received, delivered + r.queue, r.buffer + carry)
    requires Peek(c.decode, r.buffer).Bad?
    ensures var p := Parse(c.decode, received + unread);
            p.items == delivered + r.queue && Peek(c.decode, p.rest).Bad?
  {
    var left := r.buffer + carry + unread;
    TracksExtend(c.decode, received, delivered + r.queue, r.buffer + carry, unread);
    TracksMeans(c.decode, received + unread, delivered + r.queue, left);
    PeekExtends(c.decode, r.buffer, carry);
    PeekExtends(c.decode, r.buffer + carry, unread);
    assert delivered + r.queue + [] == delivered + r.queue;
  }

  /** Delivered items are always a prefix of what the whole source parses to. */
  lemma DeliveredIsPrefix<M>(c: ReadConfig<M>, received: bytes, unread: bytes, delivered: seq<M>, r: ReadSide<M>,
                             carry: bytes)
    requires Tracks(c.decode, received, delivered + r.queue, r.buffer + carry)
    ensures delivered <= Parse(c.decode, received + unread).items
  {
    TracksExtend(c.decode, received, delivered + r.queue, r.buffer + carry, unread);
    TracksMeans(c.decode, received + unread, delivered + r.queue, r.buffer + carry + unread);
  }

  /** A refused chunk shows a frame, or a final rest, too long for the buffer. */
  lemma RefusedMeansOversized<M>(c: ReadConfig<M>, received: bytes, unread: bytes, delivered: seq<M>,
                                 r: ReadSide<M>, carry: bytes)
    requires Tracks(c.decode, received, delivered + r.queue, r.buffer + carry)
    requires r.queue == [] && Peek(c.decode, r.buffer).Incomplete?
    requires |r.buffer| >= c.bufferSize && carry != []
    ensures !Fits(c.decode, received + unread, c.bufferSize)
  {
    TracksExtend(c.decode, received, delivered + r.queue, r.buffer + carry, unread);
    assert r.buffer + carry + unread == r.buffer + (carry + unread);
    FullWithoutFrame(c.decode, received + unread, delivered + r.queue, r.buffer, carry + unread, c.bufferSize);
  }

  // ---------------------------------------------------------------- a driver that throws refused chunks away

  predicate Starving<M>(c: ReadConfig<M>, r: ReadSide<M>) {
    r.queue == [] && Peek(c.decode, r.buffer).Incomplete?
  }

  /**
   * The first `followed` of the `pos` bytes read are in the delivered items, the queue, the buffer and the chunk
   * carried over. When `followed` stays behind, a chunk was thrown away: the buffer is full with the beginning of one
   * frame, for good, and the source does not fit.
   */
  ghost predicate Kept<M>(c: ReadConfig<M>, source: bytes, pos: nat, followed: nat, delivered: seq<M>,
                          r: ReadSide<M>, carry: bytes) {
    && followed <= pos <= |source|
    && if followed == pos then
         Tracks(c.decode, source[..pos], delivered + r.queue, r.buffer + carry)
       else
         && Starving(c, r) && !Accepts(c, r)
         && Tracks(c.decode, source[..followed], delivered, r.buffer)
         && !Fits(c.decode, source, c.bufferSize)
  }

  lemma KeptProcess<M>(c: ReadConfig<M>, source: bytes, pos: nat, followed: nat, delivered: seq<M>, r: ReadSide<M>,
                       carry: bytes)
    requires Kept(c, source, pos, followed, delivered, r, carry)
    ensures Kept(c, source, pos, followed, delivered, Processed(c, r), carry)
  {
    if followed == pos {
      ProcessFollows(c, source[..pos], delivered, r, carry);
    }
  }

  lemma KeptPop<M>(c: ReadConfig<M>, source: bytes, pos: nat, followed: nat, delivered: seq<M>, r: ReadSide<M>,
                   carry: bytes, item: M)
    requires Kept(c, source, pos, followed, delivered, r.(queue := [item] + r.queue), carry)
    ensures Kept(c, source, pos, followed, delivered + [item], r, carry)
  {
  }

  lemma KeptFeed<M>(c: ReadConfig<M>, source: bytes, pos: nat, followed: nat, delivered: seq<M>, r: ReadSide<M>,
                    carry: bytes)
    requires Kept(c, source, pos, followed, delivered, r, carry) && Accepts(c, r)
    ensures Kept(c, source, pos, followed, delivered, Fed(c, r, carry), [])
  {
  }

  lemma KeptRefuse<M>(c: ReadConfig<M>, source: bytes, pos: nat, followed: nat, delivered: seq<M>, r: ReadSide<M>,
                      carry: bytes)
    requires Kept(c, source, pos, followed, delivered, r, carry)
    requires Starving(c, r) && !Accepts(c, r) && carry != []
    ensures var f := if followed == pos then followed - |carry| else followed;
            0 <= f < pos && Kept(c, source, pos, f, delivered, r, [])
  {
    if followed == pos {
      assert delivered + [] == delivered;
      FirstRefusal(c, source, pos, delivered, r, carry);
    }
  }

  lemma FirstRefusal<M>(c: ReadConfig<M>, source: bytes, pos: nat, delivered: seq<M>, r: ReadSide<M>, carry: bytes)
    requires pos <= |source| && Tracks(c.decode, source[..pos], delivered + r.queue, r.buffer + carry)
    requires Starving(c, r) && !Accepts(c, r) && carry != []
    ensures |carry| <= pos && Tracks(c.decode, source[..pos - |carry|], delivered + r.queue, r.buffer)
    ensures !Fits(c.decode, source, c.bufferSize)
  {
    hide Tracks, Fits;
    assert source[..pos] + source[pos..] == source;
    RefusedMeansOversized(c, source[..pos], source[pos..], delivered, r, carry);
    TracksForget(c.decode, source[..pos], delivered + r.queue, r.buffer, carry);
    assert source[..pos][..pos - |carry|] == source[..pos - |carry|];
  }

  lemma KeptRead<M>(c: ReadConfig<M>, source: bytes, pos: nat, followed: nat, delivered: seq<M>, r: ReadSide<M>,
                    data: bytes)
    requires Kept(c, source, pos, followed, delivered, r, [])
    requires pos + |data| <= |source| && data == source[pos..pos + |data|]
    ensures var next := pos + |data|;
            Kept(c, source, next, if followed == pos then next else followed, delivered, r, data)
  {
    if followed == pos {
      ReadExtends(c, source[..pos], delivered, r, data);
      assert source[..pos] + data == source[..pos + |data|];
    }
  }

  /** What has been read extends the stream that is followed. */
  lemma ReadExtends<M>(c: ReadConfig<M>, received: bytes, delivered: seq<M>, r: ReadSide<M>, data: bytes)
    requires Tracks(c.decode, received, delivered + r.queue, r.buffer + [])
    ensures Tracks(c.decode, received + data, delivered + r.queue, r.buffer + data)
  {
    TracksExtend(c.decode, received, delivered + r.queue, r.buffer + [], data);
    Regroup(r.buffer, [], data);
    assert [] + data == data;
  }

  /** What the invariant says about the whole source. */
  lemma KeptWhole<M>(c: ReadConfig<M>, source: bytes, pos: nat, followed: nat, delivered: seq<M>, r: ReadSide<M>,
                     carry: bytes)
    requires Kept(c, source, pos, followed, delivered, r, carry)
    ensures delivered <= Parse(c.decode, source).items
    ensures Fits(c.decode, source, c.bufferSize) ==> followed == pos
    ensures Broken(c, r) ==> followed == pos
    ensures Broken(c, r) ==>
              Parse(c.decode, source).items == delivered + r.queue && Peek(c.decode, Parse(c.decode, source).rest).Bad?
  {
    var ahead := if followed == pos then carry else [];
    assert source[..followed] + source[followed..] == source;
    assert delivered + [] == delivered && r.buffer + [] == r.buffer;
    DeliveredIsPrefix(c, source[..followed], source[followed..], delivered, r, ahead);
    if Broken(c, r) {
      OnlyBadLeft(c, source[..followed], source[followed..], delivered, r, ahead);
    }
  }

  /** With nothing carried over and no frame in front, every frame in the bytes followed has been delivered. */
  lemma KeptStarving<M>(c: ReadConfig<M>, source: bytes, pos: nat, followed: nat, delivered: seq<M>, r: ReadSide<M>)
    requires Kept(c, source, pos, followed, delivered, r, []) && Starving(c, r)
    ensures Parse(c.decode, source[..followed]) == Parsed(delivered, r.buffer)
  {
    assert delivered + [] == delivered && r.buffer + [] == r.buffer;
    AllDelivered(c, source[..followed], delivered, r);
  }
}
