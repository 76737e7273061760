/** The tokio connection: a `Stream` of items and a `Sink` for items over one connection state. */
module TokioConnection {
  import opened Sequences
  import opened Wire
  import opened ConnectionState
  import opened Io
  import Reader
  import ReadDriver
  import Chunking
  import DecodeErrors

  /** `Reading(false)` holds a future that has finished and must not be polled again. */
  datatype ReadState = Idle(carried: Option<nat>) | Reading(live: bool)

  /** Shifts the elements from `from` on to the front: the first `n - from` become the old `a[from..n]`, for any `n`. */
  method CopyWithin(a: array<byte>, from: nat)
    requires from <= a.Length
    modifies a
    ensures forall j :: 0 <= j < a.Length - from ==> a[j] == old(a[from + j])
    ensures forall j :: a.Length - from <= j < a.Length ==> a[j] == old(a[j])
  {
    var i := 0;
    while i < a.Length - from
      invariant 0 <= i <= a.Length - from
      invariant forall j :: 0 <= j < i ==> a[j] == old(a[from + j])
      invariant forall j :: i <= j < a.Length ==> a[j] == old(a[j])
    {
      a[i] := a[from + i];
      i := i + 1;
    }
  }

  class TokioSansConnection<In, Out> {
    const read: ConnectionReadState<In>
    const write: ConnectionWriteState<Out>
    const reader: AsyncReader
    const writer: AsyncWriter
    const buf: array<byte>
    var readState: ReadState
    var writeState: WriteState
    ghost var delivered: seq<In>  // items returned by PollNext
    ghost var chunks: seq<bytes>  // chunks the read side accepted
    ghost var started: seq<Out>   // items taken by StartSend

    constructor (readConfig: ReadConfig<In>, writeConfig: WriteConfig<Out>, source: bytes, arrived: bool, eager: bool)
      ensures ReadValid() && WriteValid() && CanPollNext() && CanPollSink()
      ensures read.config == readConfig && write.config == writeConfig
      ensures reader.source == source && reader.eager == arrived && writer.eager == eager
      ensures delivered == [] && started == [] && writer.written == []
      ensures readState == Idle(Some(0)) && writeState == WIdle(true) && buf.Length == 2 * readConfig.bufferSize
      ensures fresh(read) && fresh(write) && fresh(reader) && fresh(writer) && fresh(buf)
    {
      read := new ConnectionReadState(readConfig);
      write := new ConnectionWriteState(writeConfig);
      reader := new AsyncReader(source, arrived);
      writer := new AsyncWriter(eager);
      buf := new byte[readConfig.bufferSize * 2](_ => 0);
      readState, writeState := Idle(Some(0)), WIdle(true);
      delivered, chunks, started := [], [], [];
      new;
      hide Tracks, Parse, Peek, Flat, Fits, Chunking.Offering, Chunking.OfferAll, Chunking.AsDriver;
      hide DecodeErrors.Behind, DecodeErrors.Stepwise;
      DecodeErrors.FreshStarts(read.config, buf.Length);
      assert reader.Received() == [] && Carry() == [] && InFlight() == [];
      FlatEmpty(Framing(write.config.encode));
    }

    // -------------------------------------------------------------- Stream

    /** The live part of the read buffer, still to be fed. */
    ghost function Carry(): bytes
      reads this`readState, buf
    {
      if readState.Idle? && readState.carried.Some? && readState.carried.value <= buf.Length
      then buf[..readState.carried.value] else []
    }

    ghost predicate ReadValid()
      reads this`readState, this`delivered, this`chunks, read, reader, buf
    {
      && Following()
      && DecodeErrors.Behind(read.config, chunks, read.View())
      && DecodeErrors.Stepwise(read.config, chunks, buf.Length)
      && (reader.eager && |reader.source| <= buf.Length ==> Chunking.OneChunk(reader.source, reader.pos, chunks))
    }

    /** What has been read is in the delivered items, the queue, the buffer and the carry, and got there by chunks. */
    ghost predicate Following()
      reads this`readState, this`delivered, this`chunks, read, reader, buf
    {
      && read.Valid() && reader.Valid()
      && buf.Length == read.config.bufferSize * 2
      && |read.recvBuffer| < read.config.bufferSize * 3
      && (readState.Idle? ==> readState.carried.Some? && readState.carried.value <= buf.Length)
      && Tracks(read.config.decode, reader.Received(), delivered + read.recvQueue, read.recvBuffer + Carry())
      && reader.Received() == Chunking.Joined(chunks) + Carry()
      && Chunking.Offering(read.config, chunks, delivered, read.View(), false)
    }

    ghost predicate CanPollNext()
      reads this`readState
    {
      readState.Reading? ==> readState.live
    }

    /** What the source parses to as a whole. */
    ghost function Expected(): Parsed<In> {
      Parse(read.config.decode, reader.source)
    }

    /** The buffer is full with the beginning of one frame, and there are bytes to feed. */
    ghost predicate Jammed()
      reads this`readState, read
    {
      && Starving()
      && |read.recvBuffer| >= read.config.bufferSize
      && readState.Idle? && readState.carried.Some? && readState.carried.value > 0
    }

    /** What the invariant says about the whole source. */
    lemma WholeStream()
      requires ReadValid()
      ensures delivered <= Expected().items
      ensures Broken(read.config, read.View()) ==>
                delivered + read.recvQueue == Expected().items && Peek(read.config.decode, Expected().rest).Bad?
    {
      var unread := reader.source[reader.pos..];
      assert reader.Received() + unread == reader.source;
      ReadDriver.DeliveredIsPrefix(read.config, reader.Received(), unread, delivered, read.View(), Carry());
      if Broken(read.config, read.View()) {
        ReadDriver.OnlyBadLeft(read.config, reader.Received(), unread, delivered, read.View(), Carry());
      }
    }

    ghost function Polled(): Reader.Polls<In>
      reads this`delivered, read
    {
      Reader.Polls(delivered, read.View())
    }

    method ProcessBuffer() returns (ok: bool)
      requires Following()
      modifies read
      ensures Following()
      ensures read.View() == Processed(read.config, old(read.View()))
      ensures !ok <==> Broken(read.config, read.View())
    {
      hide Tracks, Parse, Fits, Chunking.OfferAll, Chunking.Joined, Chunking.AsDriver, DecodeErrors.LastBatch;
      ReadDriver.ProcessFollows(read.config, reader.Received(), delivered, read.View(), Carry());
      Chunking.ProcessSettles(delivered, read.config, read.View());
      ParseUpToIsPrefix(read.config.decode, read.recvBuffer, FreeSlots(read.config, read.View()));
      ok := read.Process();
    }

    method PopItem() returns (item: Option<In>)
      requires Following()
      modifies this`delivered, read
      ensures Following()
      ensures item.None? ==> delivered == old(delivered) && read.View() == old(read.View()) && read.recvQueue == []
      ensures item.Some? ==> delivered == old(delivered) + [item.value]
      ensures item.Some? ==> old(read.View()) == ReadSide([item.value] + read.recvQueue, read.recvBuffer)
    {
      hide Tracks, Parse, Fits, Chunking.OfferAll, Chunking.Joined, Chunking.AsDriver, DecodeErrors.LastBatch;
      item := read.ConsumeItem();
      if item.Some? {
        Regroup(delivered, [item.value], read.recvQueue);
        Chunking.PopSettles(delivered, read.config, read.View(), item.value);
        delivered := delivered + [item.value];
      }
    }

    /** The head of the loop: process the buffer and pop an item. */
    method TakeItem() returns (ok: bool, item: Option<In>)
      requires ReadValid()
      modifies this`delivered, read
      ensures ReadValid()
      ensures delivered == old(delivered) + (if item.Some? then [item.value] else [])
      ensures !ok ==> item.None? && Broken(read.config, read.View())
      ensures ok && item.None? ==> Starving()
      ensures old(Broken(read.config, read.View())) ==> !ok && read.View() == old(read.View())
      ensures old(Starving()) ==> ok && item.None? && read.View() == old(read.View())
      ensures Polled() == Reader.Poll(read.config, old(Polled()))
      ensures old(Reader.Doomed(read.config, read.View())) ==> !ok || item.Some?
    {
      hide Tracks, Parse, Fits, Chunking.Offering, Chunking.Joined, Chunking.OneChunk;
      hide DecodeErrors.Behind, DecodeErrors.Stepwise;
      if Reader.Doomed(read.config, read.View()) {
        Reader.PollStep(read.config, Polled());
      }
      DecodeErrors.BehindPoll(read.config, chunks, Polled());
      ok := ProcessBuffer();
      item := None;
      if !ok {
        return;
      }
      item := PopItem();
      if item.None? {
        ReadDriver.Starved(read.config, old(read.View()), read.View());
      }
    }

    /** Nothing queued and no complete frame in the buffer. */
    ghost predicate Starving()
      reads read
    {
      ReadDriver.Starving(read.config, read.View())
    }

    /** After a feed that left part of the read buffer over, moves that part to the front. */
    method KeepUnfed(n: nat, fed: nat)
      requires fed <= n <= buf.Length
      modifies this`readState, buf
      ensures readState == Idle(Some(n - fed))
      ensures Carry() == old(buf[..n])[fed..]
    {
      hide Tracks, Parse, Chunking.OfferAll, Chunking.Joined;
      CopyWithin(buf, fed);
      readState := Idle(Some(n - fed));
      assert buf[..n - fed] == old(buf[..n])[fed..];
    }

    /** The idle arm: feed what was carried over, then start reading. */
    method FeedCarried() returns (spins: bool)
      requires ReadValid() && Starving() && readState.Idle?
      modifies this`readState, this`chunks, read, buf
      ensures ReadValid() && CanPollNext()
      ensures spins <==> old(Jammed())
      ensures spins ==> Jammed() && read.View() == old(read.View()) && readState == old(readState)
      ensures spins ==> !Fits(read.config.decode, reader.source, read.config.bufferSize)
      ensures !spins ==> Carry() == []
      ensures !spins && readState.Idle? ==> readState.carried.value < old(readState).carried.value
    {
      hide Tracks, Parse, Fits, Chunking.Offering, Chunking.Joined, Chunking.OneChunk;
      hide DecodeErrors.Behind, DecodeErrors.Stepwise;
      var n := readState.carried.value;
      ghost var carry := Carry();
      FollowedWhole();
      readState := Idle(None);
      if n == 0 {
        readState := Reading(true);
        return false;
      }
      FeedNext(carry);
      assert (read.recvBuffer + carry) + [] == read.recvBuffer + carry;
      var fed := read.FeedBytes(buf[..n]);
      if fed == n {
        chunks := chunks + [carry];
      }
      if fed != buf.Length {
        KeepUnfed(n, fed);
        assert carry[n..] == [] && carry[0..] == carry;
        return n - fed == n;  // refused: the next pass would find exactly this state again
      }
      readState := Reading(true);
      return false;
    }

    /** What feeding the chunk at hand means for the chunks fed so far. */
    lemma FeedNext(carry: bytes)
      requires reader.Valid() && 0 < |carry| <= buf.Length && Starving()
      requires reader.Received() == Chunking.Joined(chunks) + carry
      requires Chunking.Offering(read.config, chunks, delivered, read.View(), false)
      requires DecodeErrors.Stepwise(read.config, chunks, buf.Length)
      ensures Chunking.Joined(chunks + [carry]) == reader.Received()
      ensures var accepts, fed := Accepts(read.config, read.View()), Fed(read.config, read.View(), carry);
              && Chunking.Offering(read.config, chunks + [carry], delivered, fed, !accepts)
              && DecodeErrors.Behind(read.config, chunks + [carry], fed)
      ensures DecodeErrors.Stepwise(read.config, chunks + [carry], buf.Length)
      ensures Chunking.OneChunk(reader.source, reader.pos, chunks) ==>
                Chunking.OneChunk(reader.source, reader.pos, chunks + [carry])
    {
      hide Chunking.OfferAll, Chunking.Joined, Chunking.AsDriver;
      Chunking.JoinedLast(chunks, carry);
      Chunking.OfferingMore(read.config, chunks, delivered, read.View(), false, carry);
      DecodeErrors.BehindFeed(read.config, chunks, delivered, read.View(), false, carry);
      DecodeErrors.StepwiseFeed(read.config, chunks, delivered, read.View(), false, carry, buf.Length);
      if Chunking.OneChunk(reader.source, reader.pos, chunks) {
        Chunking.OneChunkOffered(reader.source, reader.pos, chunks, carry);
      }
    }

    lemma FollowedWhole()
      requires ReadValid() && Starving()
      ensures Jammed() ==> !Fits(read.config.decode, reader.source, read.config.bufferSize)
    {
      if Jammed() {
        var unread := reader.source[reader.pos..];
        assert reader.Received() + unread == reader.source;
        ReadDriver.RefusedMeansOversized(read.config, reader.Received(), unread, delivered, read.View(), Carry());
      }
    }

    /** The chunks accepted, and the one carried over if there is one. */
    ghost function ChunksRead(): seq<bytes>
      reads this`readState, this`chunks, buf
    {
      chunks + (if Carry() == [] then [] else [Carry()])
    }

    /** With nothing carried over, no chunk read has been refused. */
    lemma NothingRefused()
      requires ReadValid() && Carry() == []
      ensures !Chunking.OfferAll(read.config, Chunking.Fresh(), ChunksRead()).refused
    {
      hide Chunking.OfferAll;
      assert ChunksRead() == chunks;
    }

    /** What is behind a decode error. */
    lemma AtError()
      requires ReadValid() && Broken(read.config, read.View())
      ensures read.recvQueue == DecodeErrors.Lost(read.config, chunks)
      ensures DecodeErrors.LeadsToError(read.config, reader.source, chunks, buf.Length)
      ensures delivered == Expected().items <==>
              DecodeErrors.LastBatch(read.config, chunks) == [] || read.config.queueSize == 1
    {
      hide Tracks, Parse, Chunking.OfferAll, Chunking.Joined;
      WholeStream();
      assert Chunking.Joined(chunks) <= reader.source;
      DecodeErrors.QueuedAtError(read.config, chunks, read.View());
      DecodeErrors.ErrorReached(read.config, reader.source, chunks, buf.Length, delivered, read.View());
    }

    /** A jam is the refusal of the chunk read last, after the chunks accepted so far. */
    lemma JamIsRefusal()
      requires ReadValid() && Jammed()
      ensures Carry() != [] && Chunking.Joined(chunks) + Carry() == reader.Received()
      ensures Chunking.OfferAll(read.config, Chunking.Fresh(), chunks + [Carry()]).refused
    {
      hide Tracks, Parse, Chunking.OfferAll, Chunking.Joined;
      Chunking.OfferingMore(read.config, chunks, delivered, read.View(), false, Carry());
    }

    /** The reading arm: poll the read future; nothing is returned when the loop goes round again. */
    method FinishRead() returns (r: Option<NextPoll<In>>)
      requires ReadValid() && Starving() && readState == Reading(true)
      modifies this`readState, reader, buf
      ensures ReadValid()
      ensures CanPollNext() <==> r.None? || r.value.NextPending?
      ensures r.None? ==> readState.Idle? && reader.pos > old(reader.pos) && Starving()
      ensures r.Some? ==> readState.Reading? && reader.pos == old(reader.pos)
      ensures r.Some? ==> r.value == Finished || (!reader.eager && r.value in {NextPending, IoFailed})
      ensures |reader.polls| == |old(reader.polls)| + 1 && reader.polls[..|old(reader.polls)|] == old(reader.polls)
      ensures r == ReadVerdict(reader.polls[|old(reader.polls)|])
      ensures r.Some? ==> delivered == Parse(read.config.decode, reader.Received()).items
      ensures r == Some(Finished) ==>
                delivered == Expected().items && Peek(read.config.decode, Expected().rest).Incomplete?
    {
      hide Tracks, Parse, Fits, Chunking.Offering, Chunking.Joined;
      hide DecodeErrors.Behind, DecodeErrors.Stepwise;
      ReadDriver.AllDelivered(read.config, reader.Received(), delivered, read.View());
      ghost var received := reader.Received();
      if Chunking.OneChunk(reader.source, reader.pos, chunks) {
        Chunking.OneChunkOffered(reader.source, reader.pos, chunks, []);
      }
      var got := reader.PollReadInto(buf);
      match got
      case Pending =>
        return Some(NextPending);
      case Failed =>
        readState := Reading(false);
        return Some(IoFailed);
      case Ready(n) =>
        if n == 0 {
          readState := Reading(false);
          assert received == reader.source;
          return Some(Finished);
        }
        assert reader.source[..reader.pos - n] == received && received + [] == received;
        assert Chunking.Joined(chunks) + [] == Chunking.Joined(chunks);
        Store(n);
        return None;
    }

    /** The chunk just read, at the front of the read buffer, becomes the one to feed next. */
    method Store(n: nat)
      requires read.Valid() && reader.Valid() && readState.Reading?
      requires buf.Length == read.config.bufferSize * 2 && |read.recvBuffer| < read.config.bufferSize * 3
      requires n <= buf.Length && n <= reader.pos && buf[..n] == reader.source[reader.pos - n..reader.pos]
      requires reader.source[..reader.pos - n] == Chunking.Joined(chunks)
      requires Tracks(read.config.decode, Chunking.Joined(chunks), delivered + read.recvQueue, read.recvBuffer + [])
      requires Chunking.Offering(read.config, chunks, delivered, read.View(), false)
      modifies this`readState
      ensures Following() && readState == Idle(Some(n))
    {
      hide Tracks, Parse, Chunking.Offering, Chunking.Joined;
      ghost var data := buf[..n];
      assert Chunking.Joined(chunks) + data == reader.Received();
      ReadDriver.ReadExtends(read.config, Chunking.Joined(chunks), delivered, read.View(), data);
      readState := Idle(Some(n));
    }

    method PollNext() returns (r: NextPoll<In>)
      requires ReadValid() && CanPollNext()
      modifies this`readState, this`delivered, this`chunks, read, reader, buf
      ensures ReadValid()
      ensures CanPollNext() <==> !r.Finished? && !r.IoFailed?
      // Items come out one at a time, in the order of the stream.
      ensures delivered == old(delivered) + (if r.Item? then [r.item] else [])
      ensures delivered <= Expected().items
      // Waiting means that every complete frame received has been delivered.
      ensures r.NextPending? ==> delivered == Parse(read.config.decode, reader.Received()).items
      // The end means that every complete frame there is has been delivered, and an incomplete one is left over.
      ensures r.Finished? ==> delivered == Expected().items && Peek(read.config.decode, Expected().rest).Incomplete?
      // An error means an undecodable frame after the delivered items and those still queued; it stays there.
      ensures r.DecodeFailed? ==>
                && Broken(read.config, read.View())
                && delivered + read.recvQueue == Expected().items && Peek(read.config.decode, Expected().rest).Bad?
                && read.recvQueue == DecodeErrors.Lost(read.config, chunks)
                && DecodeErrors.LeadsToError(read.config, reader.source, chunks, buf.Length)
                && (delivered == Expected().items <==>
                      DecodeErrors.LastBatch(read.config, chunks) == [] || read.config.queueSize == 1)
      ensures old(Broken(read.config, read.View())) ==> r.DecodeFailed?
      // With an undecodable frame buffered, what is returned and what is left is what one `Poll` says.
      ensures old(Reader.Doomed(read.config, read.View())) ==>
                Polled() == Reader.Poll(read.config, old(Polled())) && (r.DecodeFailed? || r.Item?)
      // The loop repeats without end only on a stream that does not fit the receive buffer, and exactly when the last
      // chunk read is refused.
      ensures r.Spins? ==> Jammed() && !Fits(read.config.decode, reader.source, read.config.bufferSize)
      ensures old(Carry() == [] || Jammed()) ==>
                (Carry() == [] || Jammed())
                && (r.Spins? <==> Chunking.OfferAll(read.config, Chunking.Fresh(), ChunksRead()).refused)
      ensures reader.eager ==> !r.NextPending? && !r.IoFailed?
      // It waits, ends or fails exactly when the future polled last was pending, brought nothing, or failed.
      ensures ReadAnswers(old(reader.polls), reader.polls, r)
      ensures old(Jammed()) ==> r.Spins? && read.View() == old(read.View()) && readState == old(readState)
    {
      hide Tracks, Parse, Fits, Chunking.OfferAll, Chunking.Offering, Chunking.Joined, Chunking.OneChunk;
      hide DecodeErrors.Behind, DecodeErrors.Stepwise, DecodeErrors.Lost, DecodeErrors.LastBatch;
      hide DecodeErrors.LeadsToError, Reader.Poll, Reader.Doomed, ReadAnswers;
      ghost var first := true;
      while true
        invariant ReadValid() && CanPollNext() && delivered == old(delivered)
        invariant first ==> (old(Broken(read.config, read.View())) ==> Broken(read.config, read.View()))
        invariant first && old(Jammed()) ==>
                    Jammed() && read.View() == old(read.View()) && readState == old(readState)
        invariant old(Broken(read.config, read.View())) || old(Jammed()) ==> first
        invariant old(Reader.Doomed(read.config, read.View())) ==> Polled() == old(Polled())
        invariant old(Carry() == [] || Jammed()) ==> Carry() == [] || Starving()
        invariant AllBring(old(reader.polls), reader.polls)
        decreases |reader.source| - reader.pos, if readState.Idle? then 1 + readState.carried.value else 0
      {
        var ok, item := TakeItem();
        WholeStream();
        if Carry() == [] {
          NothingRefused();
        }
        if !ok {
          AtError();
          ReadGoesOn<In>(old(reader.polls), reader.polls, DecodeFailed);
          return DecodeFailed;
        }
        if item.Some? {
          ReadGoesOn(old(reader.polls), reader.polls, Item(item.value));
          return Item(item.value);
        }
        match readState
        case Idle(_) =>
          var spins := FeedCarried();
          if spins {
            JamIsRefusal();
            ReadGoesOn<In>(old(reader.polls), reader.polls, Spins);
            return Spins;
          }
          first := false;
        case Reading(_) =>
          ghost var asked := reader.polls;
          var done := FinishRead();
          ghost var answer := reader.polls[|asked|];
          assert reader.polls == asked + [answer];
          if done.Some? {
            ReadEnds(old(reader.polls), asked, answer, done.value);
            return done.value;
          }
          BringMore(old(reader.polls), asked, answer);
          first := false;
      }
    }

    /** Polls a number of times, until the stream ends or fails, and collects what comes out. */
    method Collect(polls: nat) returns (items: seq<In>, last: NextPoll<In>)
      requires ReadValid() && CanPollNext() && delivered == []
      modifies this`readState, this`delivered, this`chunks, read, reader, buf
      ensures ReadValid()
      ensures items == delivered <= Expected().items
      ensures last.Finished? ==> items == Expected().items && Peek(read.config.decode, Expected().rest).Incomplete?
      // What is missing at an error, and when nothing is.
      ensures last.DecodeFailed? ==>
                && items + DecodeErrors.Lost(read.config, chunks) == Expected().items
                && Peek(read.config.decode, Expected().rest).Bad?
                && DecodeErrors.LeadsToError(read.config, reader.source, chunks, buf.Length)
                && (items == Expected().items <==>
                      DecodeErrors.LastBatch(read.config, chunks) == [] || read.config.queueSize == 1)
      ensures Fits(read.config.decode, reader.source, read.config.bufferSize) ==> !last.Spins?
      ensures old(Carry()) == [] ==>
                (last.Spins? <==> Chunking.OfferAll(read.config, Chunking.Fresh(), ChunksRead()).refused)
      ensures reader.eager && polls > 0 ==> !last.NextPending? && !last.IoFailed?
      ensures reader.eager && polls > 0 && last.Item? ==> |items| == polls
    {
      hide Tracks, Parse, Fits, Chunking.OfferAll, Chunking.Joined, Chunking.Offering, Reader.Poll, Reader.Doomed;
      hide DecodeErrors.Behind, DecodeErrors.Stepwise, DecodeErrors.Lost, DecodeErrors.LastBatch;
      items, last := [], NextPending;
      WholeStream();
      if Carry() == [] {
        NothingRefused();
      }
      for i := 0 to polls
        invariant ReadValid() && CanPollNext()
        invariant items == delivered <= Expected().items
        invariant last.NextPending? || last.Item?
        invariant old(Carry()) == [] ==>
                    && (Carry() == [] || Jammed())
                    && !Chunking.OfferAll(read.config, Chunking.Fresh(), ChunksRead()).refused
        invariant reader.eager ==> |items| == i && (i > 0 ==> last.Item?)
      {
        last := PollNext();
        if last.Item? {
          items := items + [last.item];
        } else if !last.NextPending? {
          return;
        }
      }
    }

    // -------------------------------------------------------------- Sink

    ghost function InFlight(): bytes
      reads this`writeState
    {
      if writeState.Writing? then writeState.rest else []
    }

    ghost predicate WriteValid()
      reads this`writeState, this`started, write, writer
    {
      && write.Valid()
      && write.sendQueue == []
      && (writeState.WIdle? ==> writeState.hasWriter)
      && (writeState.Closing? ==> write.sendBuffer == [])
      && writer.written + InFlight() + write.sendBuffer == WireOf(write.config.encode, started)
    }

    ghost predicate CanPollSink()
      reads this`writeState
    {
      (writeState.Writing? ==> writeState.live) && (writeState.Closing? ==> writeState.live)
    }

    /** The idle arm: take the buffered bytes and start writing them. */
    method StartWriting() returns (any: bool)
      requires WriteValid() && writeState == WIdle(true)
      modifies this`writeState, write
      ensures WriteValid() && write.sendBuffer == []
      ensures any <==> old(write.sendBuffer) != []
      ensures writeState == if any then Writing(old(write.sendBuffer), true) else WIdle(true)
    {
      writeState := WIdle(false);
      var bytes := write.ConsumeAll();
      if bytes == None {
        writeState := WIdle(true);
        return false;
      }
      writeState := Writing(bytes.value, true);
      return true;
    }

    /** The writing arm: poll the write future. */
    method FinishWriting() returns (r: SinkPoll)
      requires WriteValid() && writeState.Writing? && writeState.live
      modifies this`writeState, writer`written, writer`polls
      ensures WriteValid()
      ensures r == Done || r == SinkPending || r == SinkIoFailed
      ensures r == Done ==> writeState == WIdle(true)
      ensures r != Done ==> writeState.Writing? && (writeState.live <==> r == SinkPending)
      ensures |writer.polls| == |old(writer.polls)| + 1 && writer.polls[..|old(writer.polls)|] == old(writer.polls)
      ensures r == SinkVerdict(writer.polls[|old(writer.polls)|])
      ensures writer.eager ==> r == Done
    {
      var p, left := writer.PollWriteAll(writeState.rest);
      writeState := Writing(left, !p.Failed?);
      match p
      case Pending => return SinkPending;
      case Failed => return SinkIoFailed;
      case Ready(_) =>
        writeState := WIdle(true);
        return Done;
    }

    method PollReady() returns (r: SinkPoll)
      requires WriteValid() && CanPollSink()
      modifies this`writeState, writer`written, writer`polls
      ensures WriteValid()
      ensures CanPollSink() <==> r != SinkIoFailed
      ensures r == Done || r == SinkPending || r == SinkIoFailed
      ensures r == Done ==> writeState == WIdle(true)
      ensures old(writeState.WIdle?) ==> r == Done
      ensures old(writeState.Closing?) ==> r == SinkPending && writeState == old(writeState)
      // Otherwise it is pending, or fails, exactly when the write future that was polled is, or does.
      ensures !old(writeState.Closing?) ==> SinkAnswers(old(writer.polls), writer.polls, r)
      ensures |writer.polls| == |old(writer.polls)| + if old(writeState.Writing?) then 1 else 0
      ensures writer.eager && !old(writeState.Closing?) ==> r == Done
    {
      match writeState
      case WIdle(_) => return Done;
      case Writing(_, _) =>
        r := FinishWriting();
      case Closing(_) => return SinkPending;
    }

    method StartSend(item: Out) returns (r: SinkPoll)
      requires WriteValid()
      modifies this`started, write
      ensures WriteValid()
      ensures writeState.Closing? ==>
                r == ConnectionReset && started == old(started) && write.View() == old(write.View())
      ensures !writeState.Closing? ==>
                && started == old(started) + [item]
                && r == (if write.config.encode(item).Some? then Done else InvalidItem)
    {
      if writeState.Closing? {
        return ConnectionReset;
      }
      var refused := write.FeedItem(item);
      assert refused.None?;  // the result is ignored
      started := started + [item];
      WireSnoc(write.config.encode, old(started), item);
      ghost var queued := write.View();
      SingleFlush(write.config, queued, item);
      var ok := write.Process();
      ghost var sent := writer.written + InFlight();
      assert sent + write.sendBuffer == sent + queued.buffer + Framing(write.config.encode)(item);
      r := if ok then Done else InvalidItem;
    }

    static lemma SingleFlush(c: WriteConfig<Out>, w: WriteSide<Out>, item: Out)
      requires w.queue == [item]
      ensures Flushed(c, w) == WriteSide([], w.buffer + Framing(c.encode)(item))
      ensures FlushFails(c, w.queue) <==> c.encode(item).None?
    {
      WireSnoc(c.encode, [], item);
      assert [] + [item] == [item] && w.queue[..1] == [item] && w.queue[..0] == [];
    }

    method PollFlush() returns (r: SinkPoll)
      requires WriteValid() && CanPollSink()
      modifies this`writeState, write, writer`written, writer`polls
      ensures WriteValid()
      ensures CanPollSink() <==> r != SinkIoFailed
      ensures r == Done || r == SinkPending || r == SinkIoFailed || r == ConnectionReset
      ensures r == ConnectionReset <==> old(writeState.Closing?)
      ensures r == ConnectionReset ==> writeState == old(writeState)
      // Success means that every frame of every item started so far has been written, and nothing else.
      ensures r == Done ==> writeState == WIdle(true) && writer.written == WireOf(write.config.encode, started)
      // It is pending, or fails, exactly when the future polled last is, or does; a writer that takes all is enough.
      ensures SinkAnswers(old(writer.polls), writer.polls, r)
      ensures writer.polls == old(writer.polls) <==>
                old(writeState.Closing?) || (old(writeState.WIdle?) && old(write.sendBuffer) == [])
      ensures writer.eager && !old(writeState.Closing?) ==> r == Done
    {
      while true
        invariant WriteValid() && CanPollSink()
        invariant AllReady(old(writer.polls), writer.polls)
        invariant writer.polls == old(writer.polls) ==>
                    (writeState == old(writeState) && write.sendBuffer == old(write.sendBuffer))
                    || (writeState.Writing? && old(writeState.WIdle?) && old(write.sendBuffer) != [])
        invariant writer.polls != old(writer.polls) ==>
                    old(writeState.Writing?) || (old(writeState.WIdle?) && old(write.sendBuffer) != [])
        invariant writeState.Closing? <==> old(writeState.Closing?)
        invariant writeState.Closing? ==> writeState == old(writeState)
        decreases |write.sendBuffer|, if writeState.Writing? then 1 else 0
      {
        match writeState
        case WIdle(_) =>
          var any := StartWriting();
          if !any {
            return Done;
          }
        case Writing(_, _) =>
          ghost var asked := writer.polls;
          r := FinishWriting();
          assert writer.polls == asked + [writer.polls[|asked|]];
          SinkGoesOn(old(writer.polls), asked, writer.polls[|asked|]);
          if r != Done {
            return r;
          }
        case Closing(_) => return ConnectionReset;
      }
    }

    method PollClose() returns (r: SinkPoll)
      requires WriteValid() && CanPollSink()
      modifies this`writeState, write, writer
      ensures WriteValid()
      ensures CanPollSink() <==> r != SinkIoFailed && r != Done
      ensures r == Done || r == SinkPending || r == SinkIoFailed
      ensures old(writeState.Closing?) ==> writeState.Closing? && writer.written == old(writer.written)
      // Success means that everything started has been written and the writer is shut.
      ensures r == Done ==> writeState.Closing? && writer.shut && writer.written == WireOf(write.config.encode, started)
      // It is pending, or fails, exactly when the future polled last is, or does; a writer that takes all is enough.
      ensures SinkAnswers(old(writer.polls), writer.polls, r) && writer.polls != old(writer.polls)
      ensures writer.eager ==> r == Done
    {
      while true
        invariant WriteValid() && CanPollSink()
        invariant AllReady(old(writer.polls), writer.polls)
        invariant old(writeState.Closing?) ==> writeState.Closing? && writer.written == old(writer.written)
        decreases |write.sendBuffer|, if writeState.Writing? then 2 else if writeState.WIdle? then 1 else 0
      {
        match writeState
        case WIdle(_) =>
          var any := StartWriting();
          if !any {
            writeState := Closing(true);
          }
        case Writing(_, _) =>
          ghost var asked := writer.polls;
          r := FinishWriting();
          assert writer.polls == asked + [writer.polls[|asked|]];
          SinkGoesOn(old(writer.polls), asked, writer.polls[|asked|]);
          if r != Done {
            return r;
          }
        case Closing(_) =>
          ghost var asked := writer.polls;
          var p := writer.PollShutdown();
          SinkGoesOn(old(writer.polls), asked, p);
          match p {
            case Pending => return SinkPending;
            case Failed =>
              writeState := Closing(false);
              return SinkIoFailed;
            case Ready(_) =>
              writeState := Closing(false);
              return Done;
          }
      }
    }
  }
}
