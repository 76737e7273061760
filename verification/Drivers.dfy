/** The two read drivers side by side. */
module Drivers {
  import opened Sequences
  import opened Wire
  import opened ConnectionState
  import opened Io
  import TokioConnection
  import CompioConnection
  import Chunking
  import DecodeErrors

  /**
   * Both drivers refine the same stream: over the same source, whatever chunks each of them reads, one has delivered
   * a prefix of what the other has, and once both have reached the end they have delivered the same items.
   */
  method DriversAgree<M, Out>(
      t: TokioConnection.TokioSansConnection<M, Out>, c: CompioConnection.CompioSansReadConnection<M>, m: nat, n: nat)
    returns (fromTokio: seq<M>, lastTokio: NextPoll<M>, fromCompio: seq<M>, lastCompio: NextPoll<M>)
    requires t.ReadValid() && t.CanPollNext() && t.delivered == []
    requires c.Valid() && c.CanPollNext() && c.delivered == []
    requires t.reader != c.reader && t.read != c.state
    requires t.reader.source == c.reader.source && t.read.config == c.state.config
    modifies t`readState, t`delivered, t`chunks, t.read, t.reader, t.buf
    modifies c`readState, c`delivered, c`followed, c`chunks, c.state, c.reader
    ensures fromTokio <= fromCompio || fromCompio <= fromTokio
    ensures lastTokio.Finished? && lastCompio.Finished? && c.FramesFit() ==> fromTokio == fromCompio
    ensures c.FramesFit() ==> !lastTokio.Spins? && c.followed == c.reader.pos
  {
    fromTokio, lastTokio := t.Collect(m);
    fromCompio, lastCompio := c.Collect(n);
    assert t.Expected().items == c.Expected().items;
  }

  // ---------------------------------------------------------------- items lost behind a decode error

  /** All but the last `queueSize - 1` items, which an error leaves behind when everything arrives in one chunk. */
  function Spared<M>(c: ReadConfig<M>, items: seq<M>): seq<M> {
    items[..|items| - Min(|items|, c.queueSize - 1)]
  }

  /** Runs that lose items: any source with a bad frame that fits the read buffer and has arrived as a whole. */
  method TokioLoses<M, Out>(config: ReadConfig<M>, unused: WriteConfig<Out>, source: bytes)
    returns (items: seq<M>, last: NextPoll<M>)
    requires Peek(config.decode, Parse(config.decode, source).rest).Bad? && |source| <= 2 * config.bufferSize
    ensures last.DecodeFailed? && items == Spared(config, Parse(config.decode, source).items)
  {
    hide Parse, Peek, Chunking.OfferAll, DecodeErrors.LastBatch, DecodeErrors.LeadsToError;
    var t := new TokioConnection.TokioSansConnection<M, Out>(config, unused, source, true, false);
    items, last := t.Collect(|Parse(config.decode, source).items| + 1);
    if t.Carry() != [] {
      Chunking.OneChunkOffered(source, t.reader.pos, t.chunks, t.Carry());
    }
    assert t.chunks + [] == t.chunks;
    DecodeErrors.OneChunkRefusesNothing(config, source, t.reader.pos, t.ChunksRead());
    DecodeErrors.OneChunkIsLastBatch(config, source, t.reader.pos, t.chunks, t.buf.Length);
    Chopped(items, Parse(config.decode, source).items, config.queueSize - 1);
  }

  method CompioLoses<M>(config: ReadConfig<M>, source: bytes) returns (items: seq<M>, last: NextPoll<M>)
    requires Peek(config.decode, Parse(config.decode, source).rest).Bad? && |source| <= config.bufferSize
    ensures last.DecodeFailed? && items == Spared(config, Parse(config.decode, source).items)
  {
    hide Parse, Peek, Fits, Chunking.OfferAll, DecodeErrors.LastBatch, DecodeErrors.LeadsToError;
    var c := new CompioConnection.CompioSansReadConnection<M>(config, source, true);
    items, last := c.Collect(|Parse(config.decode, source).items| + 1);
    DecodeErrors.SmallFits(config.decode, source, config.bufferSize);
    DecodeErrors.OneChunkIsLastBatch(config, source, c.reader.pos, c.chunks, c.capacity);
    Chopped(items, Parse(config.decode, source).items, config.queueSize - 1);
  }

  lemma Chopped<M>(items: seq<M>, all: seq<M>, size: nat)
    requires items + all[|all| - Min(|all|, size)..] == all
    ensures items == all[..|all| - Min(|all|, size)]
  {
    assert items == all[..|items|];
  }

  // ---------------------------------------------------------------- from a closed sink to the readers

  /** What a reader returns of the items started on a sink: the encodable ones in order, and at the end all of them. */
  ghost predicate Delivers<M>(encode: Encoder<M>, started: seq<M>, items: seq<M>, last: NextPoll<M>) {
    && items <= Encodable(encode, started)
    && (last.Finished? ==> items == Encodable(encode, started))
    && !last.DecodeFailed? && !last.Spins?
  }

  /** Both drivers over what a sink has written. */
  method ReadBack<M(!new), Out>(ghost encode: Encoder<M>, ghost started: seq<M>, source: bytes,
                                config: ReadConfig<M>, unused: WriteConfig<Out>, m: nat, n: nat)
    returns (fromTokio: seq<M>, lastTokio: NextPoll<M>, fromCompio: seq<M>, lastCompio: NextPoll<M>)
    requires Faithful(encode, config.decode) && FramesFit(encode, started, config.bufferSize)
    requires source == WireOf(encode, started)
    ensures Delivers(encode, started, fromTokio, lastTokio) && Delivers(encode, started, fromCompio, lastCompio)
  {
    hide WireOf, Encodable, Fits, FrameOf;
    ParseWire(encode, config.decode, started);
    WireFits(encode, config.decode, started, config.bufferSize);
    var t := new TokioConnection.TokioSansConnection<M, Out>(config, unused, source, false, false);
    fromTokio, lastTokio := t.Collect(m);
    var c := new CompioConnection.CompioSansReadConnection<M>(config, source, false);
    fromCompio, lastCompio := c.Collect(n);
  }

  /** One direction, end to end: once a tokio sink reports that it is closed, either reader gets what was started. */
  method TokioEndToEnd<In, M(!new), Out>(sink: TokioConnection.TokioSansConnection<In, M>,
                                         config: ReadConfig<M>, unused: WriteConfig<Out>, m: nat, n: nat)
    returns (closed: SinkPoll, fromTokio: seq<M>, lastTokio: NextPoll<M>, fromCompio: seq<M>, lastCompio: NextPoll<M>)
    requires sink.WriteValid() && sink.CanPollSink()
    requires Faithful(sink.write.config.encode, config.decode)
    requires FramesFit(sink.write.config.encode, sink.started, config.bufferSize)
    modifies sink`writeState, sink.write, sink.writer
    ensures closed == Done ==>
              && Delivers(sink.write.config.encode, sink.started, fromTokio, lastTokio)
              && Delivers(sink.write.config.encode, sink.started, fromCompio, lastCompio)
  {
    closed := sink.PollClose();
    fromTokio, lastTokio, fromCompio, lastCompio := [], NextPending, [], NextPending;
    if closed == Done {
      fromTokio, lastTokio, fromCompio, lastCompio :=
        ReadBack(sink.write.config.encode, sink.started, sink.writer.written, config, unused, m, n);
    }
  }

  /** The same from a compio sink with nothing queued, which is how its calls leave it. */
  method CompioEndToEnd<M(!new), Out>(sink: CompioConnection.CompioSansWriteConnection<M>,
                                      config: ReadConfig<M>, unused: WriteConfig<Out>, m: nat, n: nat)
    returns (closed: SinkPoll, fromTokio: seq<M>, lastTokio: NextPoll<M>, fromCompio: seq<M>, lastCompio: NextPoll<M>)
    requires sink.Valid() && sink.CanPoll() && sink.state.sendQueue == []
    requires Faithful(sink.state.config.encode, config.decode)
    requires FramesFit(sink.state.config.encode, sink.started, config.bufferSize)
    modifies sink`writeState, sink.state, sink.writer
    ensures closed == Done ==>
              && Delivers(sink.state.config.encode, sink.started, fromTokio, lastTokio)
              && Delivers(sink.state.config.encode, sink.started, fromCompio, lastCompio)
  {
    closed := sink.PollClose();
    fromTokio, lastTokio, fromCompio, lastCompio := [], NextPending, [], NextPending;
    if closed == Done {
      fromTokio, lastTokio, fromCompio, lastCompio :=
        ReadBack(sink.state.config.encode, sink.started, sink.writer.written, config, unused, m, n);
    }
  }
}
