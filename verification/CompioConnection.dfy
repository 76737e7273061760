/** The two halves of a split compio connection; the unsplit one has the same bodies. */
module CompioConnection {
  import opened Sequences
  import opened Wire
  import opened ConnectionState
  import opened Io
  import Reader
  import Writer
  import ReadDriver
  import Chunking
  import DecodeErrors

  /** `Reading(false)` holds a future that has failed and must not be polled again. */
  datatype ReadState = Idle(chunk: Option<bytes>) | Reading(live: bool)

  class CompioSansReadConnection<In> {
    const state: ConnectionReadState<In>
    const reader: AsyncReader
    const capacity: nat  // of the one buffer that goes through all reads
    var readState: ReadState
    ghost var delivered: seq<In>  // items returned by PollNext
    ghost var followed: nat       // how much of the source was read before a byte was thrown away
    ghost var chunks: seq<bytes>  // chunks offered to the read side

    constructor (config: ReadConfig<In>, source: bytes, eager: bool)
      ensures Valid() && CanPollNext()
      ensures state.config == config && reader.source == source && reader.eager == eager && delivered == []
      ensures readState == Idle(Some([])) && capacity >= config.bufferSize
      ensures fresh(state) && fresh(reader)
    {
      state := new ConnectionReadState(config);
      reader := new AsyncReader(source, eager);
      var room: nat :| room >= config.bufferSize;
      capacity := room;
      readState := Idle(Some([]));
      delivered, followed, chunks := [], 0, [];
    }

    /** The chunk that was read and is still to be fed. */
    function Carry(): bytes
      reads this`readState
    {
      if readState.Idle? && readState.chunk.Some? then readState.chunk.value else []
    }

    ghost predicate Valid()
      reads this`readState, this`delivered, this`followed, this`chunks, state, reader
    {
      && Following()
      && DecodeErrors.Behind(state.config, chunks, state.View())
      && DecodeErrors.Stepwise(state.config, chunks, capacity)
      && (reader.eager && |reader.source| <= capacity ==> Chunking.OneChunk(reader.source, reader.pos, chunks))
    }

    /** What has been read and kept is in the delivered items, the queue, the buffer and the chunk at hand. */
    ghost predicate Following()
      reads this`readState, this`delivered, this`followed, this`chunks, state, reader
    {
      && state.Valid() && reader.Valid() && capacity > 0
      && (readState.Idle? ==> readState.chunk.Some?) && |Carry()| <= capacity
      && ReadDriver.Kept(state.config, reader.source, reader.pos, followed, delivered, state.View(), Carry())
      && ChunksOffered()
    }

    /** The bytes read are the chunks offered and the one still to be fed; bytes are gone when a chunk was refused. */
    ghost predicate ChunksOffered()
      reads this`readState, this`delivered, this`followed, this`chunks, state, reader
      requires reader.Valid()
    {
      && followed <= reader.pos
      && reader.Received() == Chunking.Joined(chunks) + Carry()
      && Chunking.Offering(state.config, chunks, delivered, state.View(), followed < reader.pos)
    }

    ghost predicate CanPollNext()
      reads this`readState
    {
      readState.Reading? ==> readState.live
    }

    ghost function Expected(): Parsed<In> {
      Parse(state.config.decode, reader.source)
    }

    ghost predicate FramesFit() {
      Fits(state.config.decode, reader.source, state.config.bufferSize)
    }

    lemma WholeStream()
      requires Valid()
      ensures delivered <= Expected().items
      ensures FramesFit() ==> followed == reader.pos
      ensures followed < reader.pos <==> Chunking.OfferAll(state.config, Chunking.Fresh(), chunks).refused
      ensures Broken(state.config, state.View()) ==> followed == reader.pos
      ensures Broken(state.config, state.View()) ==>
                delivered + state.recvQueue == Expected().items && Peek(state.config.decode, Expected().rest).Bad?
    {
      ReadDriver.KeptWhole(state.config, reader.source, reader.pos, followed, delivered, state.View(), Carry());
    }

    /** Nothing queued and no complete frame in the buffer. */
    ghost predicate Starving()
      reads state
    {
      ReadDriver.Starving(state.config, state.View())
    }

    ghost function Polled(): Reader.Polls<In>
      reads this`delivered, state
    {
      Reader.Polls(delivered, state.View())
    }

    method ProcessBuffer() returns (ok: bool)
      requires Following()
      modifies state
      ensures Following()
      ensures state.View() == Processed(state.config, old(state.View()))
      ensures !ok <==> Broken(state.config, state.View())
    {
      hide ReadDriver.Kept, Chunking.OfferAll, Chunking.Joined, Chunking.AsDriver;
      ReadDriver.KeptProcess(state.config, reader.source, reader.pos, followed, delivered, state.View(), Carry());
      Chunking.ProcessSettles(delivered, state.config, state.View());
      ok := state.Process();
    }

    method PopItem() returns (item: Option<In>)
      requires Following()
      modifies this`delivered, state
      ensures Following()
      ensures item.None? ==> delivered == old(delivered) && state.View() == old(state.View()) && state.recvQueue == []
      ensures item.Some? ==> delivered == old(delivered) + [item.value]
      ensures item.Some? ==> old(state.View()) == ReadSide([item.value] + state.recvQueue, state.recvBuffer)
    {
      hide ReadDriver.Kept, Chunking.OfferAll, Chunking.Joined, Chunking.AsDriver;
      item := state.ConsumeItem();
      if item.Some? {
        ReadDriver.KeptPop(
          state.config, reader.source, reader.pos, followed, delivered, state.View(), Carry(), item.value);
        Chunking.PopSettles(delivered, state.config, state.View(), item.value);
        delivered := delivered + [item.value];
      }
    }

    /** The head of the loop: process the buffer and pop an item. */
    method TakeItem() returns (ok: bool, item: Option<In>)
      requires Valid()
      modifies this`delivered, state
      ensures Valid()
      ensures delivered == old(delivered) + (if item.Some? then [item.value] else [])
      ensures !ok ==> item.None? && Broken(state.config, state.View())
      ensures ok && item.None? ==> Starving()
      ensures old(Broken(state.config, state.View())) ==> !ok && state.View() == old(state.View())
      ensures Polled() == Reader.Poll(state.config, old(Polled()))
      ensures old(Reader.Doomed(state.config, state.View())) ==> !ok || item.Some?
    {
      hide ReadDriver.Kept, Chunking.Offering, Chunking.Joined, Chunking.OneChunk;
      hide DecodeErrors.LastBatch, DecodeErrors.Stepwise;
      if Reader.Doomed(state.config, state.View()) {
        Reader.PollStep(state.config, Polled());
      }
      DecodeErrors.BehindPoll(state.config, chunks, Polled());
      ok := ProcessBuffer();
      item := None;
      if !ok {
        return;
      }
      item := PopItem();
      if item.None? {
        ReadDriver.Starved(state.config, old(state.View()), state.View());
      }
    }

    /** The idle arm: feed the chunk that was read, then start reading. A refused chunk is thrown away. */
    method FeedChunk()
      requires Valid() && Starving() && readState.Idle?
      modifies this`readState, this`followed, this`chunks, state
      ensures Valid() && CanPollNext()
      ensures state.View() == Fed(state.config, old(state.View()), old(Carry()))
      ensures Carry() == [] && (readState.Idle? <==> old(Carry()) != [] && !old(Accepts(state.config, state.View())))
      ensures readState.Reading? ==> followed == old(followed)
      ensures readState.Idle? ==> followed < reader.pos && !FramesFit()
      ensures chunks == old(chunks) + (if old(Carry()) == [] then [] else [old(Carry())])
    {
      hide ReadDriver.Kept, Chunking.OfferAll, Chunking.Joined, Chunking.AsDriver;
      var buf := readState.chunk.value;
      if buf != [] {
        ghost var before := state.View();
        OfferNext(buf);
        chunks := chunks + [buf];
        var fed := state.FeedBytes(buf);
        if fed != |buf| {
          var remaining := buf[..fed];
          ReadDriver.KeptRefuse(state.config, reader.source, reader.pos, followed, delivered, before, buf);
          if followed == reader.pos {
            followed := followed - |buf|;
          }
          readState := Idle(Some(remaining));
          WholeStream();
          return;
        }
        ReadDriver.KeptFeed(state.config, reader.source, reader.pos, followed, delivered, before, buf);
      }
      readState := Reading(true);
    }

    /** What offering the chunk at hand means for the chunks offered so far. */
    lemma OfferNext(buf: bytes)
      requires Valid() && Starving() && buf == Carry() != []
      ensures Chunking.Joined(chunks + [buf]) == reader.Received()
      ensures var accepts, fed := Accepts(state.config, state.View()), Fed(state.config, state.View(), buf);
              && Chunking.Offering(state.config, chunks + [buf], delivered, fed, !accepts)
              && DecodeErrors.Behind(state.config, chunks + [buf], fed)
              && (accepts ==> followed == reader.pos)
      ensures DecodeErrors.Stepwise(state.config, chunks + [buf], capacity)
      ensures Chunking.OneChunk(reader.source, reader.pos, chunks) ==>
                Chunking.OneChunk(reader.source, reader.pos, chunks + [buf])
    {
      hide Chunking.OfferAll, Chunking.Joined, Chunking.AsDriver;
      var refused := followed < reader.pos;
      Chunking.JoinedLast(chunks, buf);
      Chunking.OfferingMore(state.config, chunks, delivered, state.View(), refused, buf);
      DecodeErrors.BehindFeed(state.config, chunks, delivered, state.View(), refused, buf);
      DecodeErrors.StepwiseFeed(state.config, chunks, delivered, state.View(), refused, buf, capacity);
      if Chunking.OneChunk(reader.source, reader.pos, chunks) {
        Chunking.OneChunkOffered(reader.source, reader.pos, chunks, buf);
      }
    }

    /** What is behind a decode error. */
    lemma AtError()
      requires Valid() && Broken(state.config, state.View())
      ensures state.recvQueue == DecodeErrors.Lost(state.config, chunks)
      ensures DecodeErrors.LeadsToError(state.config, reader.source, chunks, capacity)
      ensures delivered == Expected().items <==>
              DecodeErrors.LastBatch(state.config, chunks) == [] || state.config.queueSize == 1
    {
      hide ReadDriver.Kept, Parse, Chunking.OfferAll, Chunking.Joined;
      WholeStream();
      assert Chunking.Joined(chunks) <= reader.source;
      DecodeErrors.QueuedAtError(state.config, chunks, state.View());
      DecodeErrors.ErrorReached(state.config, reader.source, chunks, capacity, delivered, state.View());
    }

    /** What is done when a read returns nothing: a queued item would still be handed out. */
    method AtEnd() returns (r: NextPoll<In>)
      requires Following()
      modifies this`delivered, state
      ensures Following()
      ensures delivered == old(delivered) + (if r.Item? then [r.item] else [])
      ensures r == if old(state.recvQueue) == [] then Finished else Item(old(state.recvQueue)[0])
      ensures r.Finished? ==> state.View() == old(state.View())
    {
      var item := PopItem();
      match item
      case None => return Finished;
      case Some(m) => return Item(m);
    }

    /** The reading arm: poll the read future; nothing is returned when the loop goes round again. */
    method FinishRead() returns (r: Option<NextPoll<In>>)
      requires Valid() && Starving() && readState == Reading(true)
      modifies this`readState, this`followed, this`delivered, state, reader
      ensures Valid() && delivered == old(delivered)
      ensures CanPollNext() <==> r != Some(IoFailed)
      ensures r.None? ==> readState.Idle? && reader.pos > old(reader.pos)
      ensures r.Some? ==> reader.pos == old(reader.pos)
      ensures r.Some? ==> r.value == Finished || (!reader.eager && r.value in {NextPending, IoFailed})
      ensures |reader.polls| == |old(reader.polls)| + 1 && reader.polls[..|old(reader.polls)|] == old(reader.polls)
      ensures r == ReadVerdict(reader.polls[|old(reader.polls)|])
      ensures r.Some? ==> Parse(state.config.decode, reader.source[..followed]) == Parsed(delivered, state.recvBuffer)
      ensures r.Some? ==> Starving()
      ensures r == Some(Finished) ==> reader.pos == |reader.source|
    {
      hide ReadDriver.Kept, Chunking.Offering, Chunking.Joined, DecodeErrors.Behind, DecodeErrors.Stepwise;
      ReadDriver.KeptStarving(state.config, reader.source, reader.pos, followed, delivered, state.View());
      if Chunking.OneChunk(reader.source, reader.pos, chunks) {
        Chunking.OneChunkOffered(reader.source, reader.pos, chunks, []);
      }
      var got := reader.PollRead(capacity);
      match got
      case Pending =>
        return Some(NextPending);
      case Failed =>
        readState := Reading(false);
        return Some(IoFailed);
      case Ready(buf) =>
        Store(buf);
        if buf == [] {
          var end := AtEnd();
          return Some(end);
        }
        return None;
    }

    /** The chunk just read becomes the one to feed next. */
    method Store(buf: bytes)
      requires state.Valid() && reader.Valid() && readState.Reading? && capacity > 0
      requires |buf| <= capacity && |buf| <= reader.pos && buf == reader.source[reader.pos - |buf|..reader.pos]
      requires ReadDriver.Kept(state.config, reader.source, reader.pos - |buf|, followed, delivered, state.View(), [])
      requires followed <= reader.pos - |buf| && reader.source[..reader.pos - |buf|] == Chunking.Joined(chunks)
      requires Chunking.Offering(state.config, chunks, delivered, state.View(), followed < reader.pos - |buf|)
      modifies this`readState, this`followed
      ensures Following() && readState == Idle(Some(buf))
      ensures old(followed) == reader.pos - |buf| ==> followed == reader.pos
      ensures old(followed) != reader.pos - |buf| ==> followed == old(followed)
    {
      hide ReadDriver.Kept, Chunking.OfferAll, Chunking.Joined, Chunking.AsDriver;
      ReadDriver.KeptRead(state.config, reader.source, reader.pos - |buf|, followed, delivered, state.View(), buf);
      followed := if followed == reader.pos - |buf| then reader.pos else followed;
      readState := Idle(Some(buf));
    }

    method PollNext() returns (r: NextPoll<In>)
      requires Valid() && CanPollNext()
      modifies this`readState, this`delivered, this`followed, this`chunks, state, reader
      ensures Valid()
      ensures CanPollNext() <==> !r.IoFailed?
      ensures !r.Spins?
      // Items come out one at a time, in the order of the stream.
      ensures delivered == old(delivered) + (if r.Item? then [r.item] else [])
      ensures delivered <= Expected().items
      // Bytes are thrown away exactly when a chunk is refused, and only from a stream that does not fit the buffer.
      ensures followed < reader.pos <==> Chunking.OfferAll(state.config, Chunking.Fresh(), chunks).refused
      ensures FramesFit() ==> followed == reader.pos
      // Waiting, or the end, means that every complete frame among the bytes that were kept has been delivered.
      ensures r.NextPending? || r.Finished? ==> delivered == Parse(state.config.decode, reader.source[..followed]).items
      ensures r.Finished? && FramesFit() ==>
                delivered == Expected().items && Peek(state.config.decode, Expected().rest).Incomplete?
      // An error means an undecodable frame after the delivered items and those still queued; it stays there.
      ensures r.DecodeFailed? ==>
                && Broken(state.config, state.View())
                && delivered + state.recvQueue == Expected().items && Peek(state.config.decode, Expected().rest).Bad?
                && state.recvQueue == DecodeErrors.Lost(state.config, chunks)
                && DecodeErrors.LeadsToError(state.config, reader.source, chunks, capacity)
                && (delivered == Expected().items <==>
                      DecodeErrors.LastBatch(state.config, chunks) == [] || state.config.queueSize == 1)
      ensures old(Broken(state.config, state.View())) ==> r.DecodeFailed?
      // With an undecodable frame buffered, what is returned and what is left is what one `Poll` says.
      ensures old(Reader.Doomed(state.config, state.View())) ==>
                Polled() == Reader.Poll(state.config, old(Polled())) && (r.DecodeFailed? || r.Item?)
      ensures reader.eager ==> !r.NextPending? && !r.IoFailed?
      // It waits, ends or fails exactly when the future polled last was pending, brought nothing, or failed.
      ensures ReadAnswers(old(reader.polls), reader.polls, r)
    {
      hide ReadDriver.Kept, Parse, Fits, Reader.Poll, Reader.Doomed;
      hide Chunking.Offering, Chunking.OfferAll, Chunking.Joined, Chunking.OneChunk;
      hide DecodeErrors.Behind, DecodeErrors.Stepwise, DecodeErrors.Lost, DecodeErrors.LastBatch;
      while true
        invariant Valid() && CanPollNext() && delivered == old(delivered)
        invariant old(Broken(state.config, state.View())) ==> Broken(state.config, state.View())
        invariant old(Reader.Doomed(state.config, state.View())) ==> Polled() == old(Polled())
        invariant AllBring(old(reader.polls), reader.polls)
        decreases |reader.source| - reader.pos, if readState.Idle? then 1 + |Carry()| else 0
      {
        var ok, item := TakeItem();
        WholeStream();
        if !ok {
          AtError();
          return DecodeFailed;
        }
        if item.Some? {
          return Item(item.value);
        }
        match readState
        case Idle(_) =>
          FeedChunk();
        case Reading(_) =>
          ghost var asked := reader.polls;
          var done := FinishRead();
          ghost var answer := reader.polls[|asked|];
          assert reader.polls == asked + [answer];
          if done.Some? {
            ReadEnds(old(reader.polls), asked, answer, done.value);
            WholeStream();
            assert reader.source[..|reader.source|] == reader.source;
            return done.value;
          }
          BringMore(old(reader.polls), asked, answer);
      }
    }

    /** Polls a number of times, until the stream ends or fails, and collects what comes out. */
    method Collect(polls: nat) returns (items: seq<In>, last: NextPoll<In>)
      requires Valid() && CanPollNext() && delivered == []
      modifies this`readState, this`delivered, this`followed, this`chunks, state, reader
      ensures Valid()
      ensures items == delivered <= Expected().items
      ensures last.Finished? && FramesFit() ==>
                items == Expected().items && Peek(state.config.decode, Expected().rest).Incomplete?
      // What is missing at an error, and when nothing is.
      ensures last.DecodeFailed? ==>
                && items + DecodeErrors.Lost(state.config, chunks) == Expected().items
                && Peek(state.config.decode, Expected().rest).Bad?
                && DecodeErrors.LeadsToError(state.config, reader.source, chunks, capacity)
                && (items == Expected().items <==>
                      DecodeErrors.LastBatch(state.config, chunks) == [] || state.config.queueSize == 1)
      ensures !last.Spins?
      ensures reader.eager && polls > 0 ==> !last.NextPending? && !last.IoFailed?
      ensures reader.eager && polls > 0 && last.Item? ==> |items| == polls
    {
      hide ReadDriver.Kept, Parse, Fits, Reader.Poll, Reader.Doomed;
      hide Chunking.Offering, Chunking.OfferAll, Chunking.Joined, Chunking.OneChunk;
      hide DecodeErrors.Behind, DecodeErrors.Stepwise, DecodeErrors.Lost, DecodeErrors.LastBatch;
      items, last := [], NextPending;
      WholeStream();
      for i := 0 to polls
        invariant Valid() && CanPollNext()
        invariant items == delivered <= Expected().items
        invariant last.NextPending? || last.Item?
        invariant reader.eager ==> |items| == i && (i > 0 ==> last.Item?)
      {
        last := PollNext();
        if last.Item? {
          items := items + [last.item];
        } else if !last.NextPending? {
          return;
        }
      }
    }
  }

  class CompioSansWriteConnection<Out> {
    const state: ConnectionWriteState<Out>
    const writer: AsyncWriter
    var writeState: WriteState
    ghost var started: seq<Out>  // items taken by StartSend

    constructor (config: WriteConfig<Out>, eager: bool)
      ensures Valid() && CanPoll() && state.sendQueue == []
      ensures state.config == config && started == [] && writer.written == [] && writeState == WIdle(true)
      ensures writer.eager == eager
      ensures fresh(state) && fresh(writer)
    {
      state := new ConnectionWriteState(config);
      writer := new AsyncWriter(eager);
      writeState := WIdle(true);
      started := [];
    }

    ghost function InFlight(): bytes
      reads this`writeState
    {
      if writeState.Writing? then writeState.rest else []
    }

    /** All frames there are, from the first byte written to the last one buffered. */
    ghost function Out(): bytes
      reads this`writeState, state, writer
    {
      writer.written + InFlight() + state.sendBuffer
    }

    /** Also holds with items waiting in the queue, which no call here leaves behind (see `state.sendQueue == []`). */
    ghost predicate Valid()
      reads this`writeState, this`started, state, writer
    {
      && state.Valid()
      && (writeState.WIdle? ==> writeState.hasWriter)
      && (writeState.Closing? ==> state.sendBuffer == [])
      && Writer.Emits(state.config.encode, started, state.sendQueue, Out())
    }

    ghost predicate CanPoll()
      reads this`writeState
    {
      (writeState.Writing? ==> writeState.live) && (writeState.Closing? ==> writeState.live)
    }

    /** The idle arm: take the buffered bytes and start writing them. */
    method StartWriting() returns (any: bool)
      requires Valid() && writeState == WIdle(true)
      modifies this`writeState, state
      ensures Valid() && state.sendBuffer == [] && state.sendQueue == old(state.sendQueue)
      ensures any <==> old(state.sendBuffer) != []
      ensures writeState == if any then Writing(old(state.sendBuffer), true) else WIdle(true)
    {
      hide WireOf;
      writeState := WIdle(false);
      var bytes := state.ConsumeAll();
      if bytes == None {
        writeState := WIdle(true);
        return false;
      }
      writeState := Writing(bytes.value, true);
      assert (writer.written + bytes.value) + [] == (writer.written + []) + bytes.value;
      assert Out() == old(Out());
      return true;
    }

    /** The writing arm: poll the write future. */
    method FinishWriting() returns (r: SinkPoll)
      requires Valid() && writeState.Writing? && writeState.live
      modifies this`writeState, writer`written, writer`polls
      ensures Valid()
      ensures r == Done || r == SinkPending || r == SinkIoFailed
      ensures r == Done ==> writeState == WIdle(true)
      ensures r != Done ==> writeState.Writing? && (writeState.live <==> r == SinkPending)
      ensures |writer.polls| == |old(writer.polls)| + 1 && writer.polls[..|old(writer.polls)|] == old(writer.polls)
      ensures r == SinkVerdict(writer.polls[|old(writer.polls)|])
      ensures writer.eager ==> r == Done
    {
      hide WireOf;
      var p, left := writer.PollWriteAll(writeState.rest);
      writeState := Writing(left, !p.Failed?);
      assert Out() == old(Out());
      match p
      case Pending => return SinkPending;
      case Failed => return SinkIoFailed;
      case Ready(_) =>
        writeState := WIdle(true);
        assert Out() == old(Out());
        return Done;
    }

    method PollReady() returns (r: SinkPoll)
      requires Valid() && CanPoll()
      modifies this`writeState, writer`written, writer`polls
      ensures Valid()
      ensures CanPoll() <==> r != SinkIoFailed
      ensures r == Done || r == SinkPending || r == SinkIoFailed
      ensures r == Done ==> writeState == if old(writeState.Closing?) then old(writeState) else WIdle(true)
      ensures old(writeState.WIdle?) || old(writeState.Closing?) ==> r == Done
      // It is pending, or fails, exactly when the write future that was polled is, or does.
      ensures SinkAnswers(old(writer.polls), writer.polls, r)
      ensures |writer.polls| == |old(writer.polls)| + if old(writeState.Writing?) then 1 else 0
      ensures writer.eager ==> r == Done
    {
      match writeState
      case WIdle(_) => return Done;
      case Writing(_, _) =>
        r := FinishWriting();
      case Closing(_) => return Done;
    }

    method StartSend(item: Out) returns (r: SinkPoll)
      requires Valid()
      modifies this`started, state
      ensures Valid()
      ensures r == ConnectionReset <==> writeState.Closing?
      ensures r == WouldBlock <==> !writeState.Closing? && !old(HasRoom(state.config, state.View()))
      ensures r == ConnectionReset || r == WouldBlock ==> started == old(started) && state.View() == old(state.View())
      ensures r == ConnectionReset || r == WouldBlock || r == Done || r == InvalidItem
      ensures r == Done || r == InvalidItem ==>
                && started == old(started) + [item]
                && state.View() == Flushed(state.config, Offered(state.config, old(state.View()), item))
      // With nothing queued the sink never blocks, and nothing stays queued.
      ensures old(state.sendQueue) == [] ==>
                && state.sendQueue == []
                && r == if writeState.Closing? then ConnectionReset
                        else if state.config.encode(item).Some? then Done else InvalidItem
    {
      hide WireOf;
      if writeState.Closing? {
        return ConnectionReset;
      }
      var refused := state.FeedItem(item);
      if refused.Some? {
        return WouldBlock;
      }
      started := started + [item];
      Writer.EmitsMore(state.config.encode, old(started), old(state.sendQueue), Out(), item);
      Writer.EmitsFlushed(state.config, state.View(), started, writer.written + InFlight());
      ghost var queued := state.sendQueue;
      var ok := state.Process();
      if queued == [item] {
        assert GoodRun(state.config.encode, [item]) == if state.config.encode(item).Some? then 1 else 0;
      }
      r := if ok then Done else InvalidItem;
    }

    /** Before taking the buffered bytes a flush processes what is queued; on an error the writer is gone. */
    method ProcessQueue() returns (ok: bool)
      requires Valid() && writeState == WIdle(true)
      modifies this`writeState, state
      ensures ok ==> Valid() && writeState == WIdle(true) && state.sendQueue == []
      ensures ok && old(state.sendQueue) == [] ==> state.sendBuffer == old(state.sendBuffer)
      ensures !ok <==> FlushFails(state.config, old(state.sendQueue))
      ensures !ok ==> writeState == WIdle(false)
      ensures state.View() == Flushed(state.config, old(state.View()))
    {
      hide WireOf;
      writeState := WIdle(false);
      ok := true;
      var empty := state.WriteQueueEmpty();
      if empty {
        FlushNothing(state.config, state.View());
      } else {
        Writer.EmitsFlushed(state.config, state.View(), started, writer.written + InFlight());
        ok := state.Process();
        if !ok {
          return;
        }
      }
      writeState := WIdle(true);
    }

    /** The idle arm of a flush: nothing is returned when bytes have started to be written. */
    method FlushIdle() returns (r: Option<SinkPoll>)
      requires Valid() && writeState == WIdle(true)
      modifies this`writeState, state
      ensures r.None? ==> Valid() && writeState.Writing? && writeState.live
      ensures r.None? ==> state.sendQueue == [] && state.sendBuffer == []
      ensures r.None? ==> old(state.sendQueue) != [] || old(state.sendBuffer) != []
      ensures r.Some? ==> r.value == Done || r.value == InvalidItem
      ensures r == Some(InvalidItem) <==> FlushFails(state.config, old(state.sendQueue))
      ensures r == Some(InvalidItem) ==>
                writeState == WIdle(false) && state.View() == Flushed(state.config, old(state.View()))
      ensures r == Some(Done) ==> Valid() && writeState == WIdle(true) && state.sendQueue == []
      ensures r == Some(Done) ==> writer.written == WireOf(state.config.encode, started)
    {
      hide WireOf;
      var ok := ProcessQueue();
      if !ok {
        return Some(InvalidItem);
      }
      var any := StartWriting();
      if any {
        return None;
      }
      assert started[..|started|] == started && writer.written + [] + [] == writer.written;
      return Some(Done);
    }

    method PollFlush() returns (r: SinkPoll)
      requires Valid() && CanPoll()
      modifies this`writeState, state, writer`written, writer`polls
      ensures r != InvalidItem ==> Valid()
      ensures r != InvalidItem ==> (CanPoll() <==> r != SinkIoFailed)
      ensures r == ConnectionReset <==> old(writeState.Closing?)
      ensures r == ConnectionReset ==> writeState == old(writeState)
      ensures r != WouldBlock
      // The writer is lost only through a refused item in the queue, so never when nothing was queued.
      ensures r == InvalidItem ==> writeState == WIdle(false) && FlushFails(state.config, old(state.sendQueue))
      ensures r == InvalidItem ==> state.sendQueue == Flushed(state.config, old(state.View())).queue
      ensures FlushFails(state.config, old(state.sendQueue)) ==> r != Done
      ensures old(state.sendQueue) == [] ==> state.sendQueue == [] && r != InvalidItem
      // Success means that every frame of every item started so far has been written, and nothing else.
      ensures r == Done ==> writeState == WIdle(true) && writer.written == WireOf(state.config.encode, started)
      // It is pending, or fails, exactly when the future polled last is, or does; a writer that takes all is enough.
      ensures SinkAnswers(old(writer.polls), writer.polls, r)
      ensures old(writeState.Writing?) ==> writer.polls != old(writer.polls)
      ensures writer.eager && !old(writeState.Closing?) ==>
                r == if FlushFails(state.config, old(state.sendQueue)) then InvalidItem else Done
    {
      hide WireOf, Writer.Emits, GoodRun;
      while true
        invariant Valid() && CanPoll()
        invariant AllReady(old(writer.polls), writer.polls)
        invariant old(writeState.Writing?) && writer.polls == old(writer.polls) ==> writeState.Writing?
        invariant writeState.Closing? <==> old(writeState.Closing?)
        invariant writeState.Closing? ==> writeState == old(writeState)
        invariant state.sendQueue == old(state.sendQueue)
                  || (state.sendQueue == [] && !FlushFails(state.config, old(state.sendQueue)))
        decreases |state.sendQueue|, |state.sendBuffer|, if writeState.Writing? then 1 else 0
      {
        match writeState
        case WIdle(_) =>
          var done := FlushIdle();
          if done.Some? {
            return done.value;
          }
        case Writing(_, _) =>
          ghost var asked := writer.polls;
          r := FinishWriting();
          assert writer.polls == asked + [writer.polls[|asked|]];
          SinkGoesOn(old(writer.polls), asked, writer.polls[|asked|]);
          if r != Done {
            return r;
          }
        case Closing(_) => return ConnectionReset;
      }
    }

    method PollClose() returns (r: SinkPoll)
      requires Valid() && CanPoll()
      modifies this`writeState, state, writer
      ensures Valid()
      ensures CanPoll() <==> r != SinkIoFailed && r != Done
      ensures r == Done || r == SinkPending || r == SinkIoFailed
      ensures state.sendQueue == old(state.sendQueue)
      ensures old(writeState.Closing?) ==> writeState.Closing? && writer.written == old(writer.written)
      // Success means that the writer is shut and everything started has been written, save what was still queued.
      ensures r == Done ==>
                && writeState.Closing? && writer.shut
                && writer.written == WireOf(state.config.encode, started[..|started| - |state.sendQueue|])
      ensures r == Done && state.sendQueue == [] ==> writer.written == WireOf(state.config.encode, started)
      // It is pending, or fails, exactly when the future polled last is, or does; a writer that takes all is enough.
      ensures SinkAnswers(old(writer.polls), writer.polls, r) && writer.polls != old(writer.polls)
      ensures writer.eager ==> r == Done
    {
      hide WireOf;
      while true
        invariant Valid() && CanPoll()
        invariant AllReady(old(writer.polls), writer.polls)
        invariant state.sendQueue == old(state.sendQueue)
        invariant old(writeState.Closing?) ==> writeState.Closing? && writer.written == old(writer.written)
        decreases |state.sendBuffer|, if writeState.Writing? then 2 else if writeState.WIdle? then 1 else 0
      {
        match writeState
        case WIdle(_) =>
          var any := StartWriting();
          if !any {
            writeState := Closing(true);
          }
        case Writing(_, _) =>
          ghost var asked := writer.polls;
          r := FinishWriting();
          assert writer.polls == asked + [writer.polls[|asked|]];
          SinkGoesOn(old(writer.polls), asked, writer.polls[|asked|]);
          if r != Done {
            return r;
          }
        case Closing(_) =>
          ghost var asked := writer.polls;
          var p := writer.PollShutdown();
          SinkGoesOn(old(writer.polls), asked, p);
          match p {
            case Pending => return SinkPending;
            case Failed =>
              writeState := Closing(false);
              return SinkIoFailed;
            case Ready(_) =>
              writeState := Closing(false);
              assert started[..|started|] == started;
              return Done;
          }
      }
    }
  }
}
