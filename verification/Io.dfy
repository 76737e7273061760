/** The outside of a connection: futures that finish whenever they like, over a byte source and a byte sink. */
module Io {
  import opened Sequences
  import opened Wire

  datatype Poll<+T> = Pending | Ready(value: T) | Failed

  /** What one `poll_next` of a driver gives; `Spins` stands for a loop that repeats for ever on an unchanged state. */
  datatype NextPoll<+M> = NextPending | Item(item: M) | Finished | DecodeFailed | IoFailed | Spins

  /** What a sink call gives: success, not yet, or one of the error kinds. */
  datatype SinkPoll = SinkPending | Done | ConnectionReset | InvalidItem | WouldBlock | SinkIoFailed

  /** A sink driver is idle with its writer, or polls a future that writes or closes; `live` until that has finished. */
  datatype WriteState = WIdle(hasWriter: bool) | Writing(rest: bytes, live: bool) | Closing(live: bool)

  // ---------------------------------------------------------------- what futures answered during one call

  ghost predicate Brings(p: Poll<bytes>) {
    p.Ready? && p.value != []
  }

  /** What a read driver makes of an answer; nothing when it goes on with the bytes it got. */
  ghost function ReadVerdict<M>(p: Poll<bytes>): Option<NextPoll<M>> {
    match p
    case Pending => Some(NextPending)
    case Failed => Some(IoFailed)
    case Ready(b) => if b == [] then Some(Finished) else None
  }

  /** Every answer since `before` brought bytes. */
  ghost predicate AllBring(before: seq<Poll<bytes>>, now: seq<Poll<bytes>>) {
    before <= now && forall i :: |before| <= i < |now| ==> Brings(now[i])
  }

  /** A `poll_next` ends with the first answer that brings no bytes, and waits, ends or fails exactly as that says. */
  ghost predicate ReadAnswers<M>(before: seq<Poll<bytes>>, now: seq<Poll<bytes>>, r: NextPoll<M>) {
    if r.NextPending? || r.Finished? || r.IoFailed? then
      && |before| < |now|
      && AllBring(before, now[..|now| - 1]) && ReadVerdict(now[|now| - 1]) == Some(r)
    else AllBring(before, now)
  }

  lemma BringMore(before: seq<Poll<bytes>>, now: seq<Poll<bytes>>, p: Poll<bytes>)
    requires AllBring(before, now) && Brings(p)
    ensures AllBring(before, now + [p])
  {
  }

  lemma ReadEnds<M>(before: seq<Poll<bytes>>, now: seq<Poll<bytes>>, p: Poll<bytes>, r: NextPoll<M>)
    requires AllBring(before, now) && ReadVerdict(p) == Some(r)
    ensures ReadAnswers(before, now + [p], r)
  {
    assert (now + [p])[..|now|] == now;
  }

  lemma ReadGoesOn<M>(before: seq<Poll<bytes>>, now: seq<Poll<bytes>>, r: NextPoll<M>)
    requires AllBring(before, now) && !r.NextPending? && !r.Finished? && !r.IoFailed?
    ensures ReadAnswers(before, now, r)
  {
  }

  ghost function SinkVerdict(p: Poll<()>): SinkPoll {
    match p
    case Pending => SinkPending
    case Failed => SinkIoFailed
    case Ready(_) => Done
  }

  /** Every answer since `before` was that the future has finished. */
  ghost predicate AllReady(before: seq<Poll<()>>, now: seq<Poll<()>>) {
    before <= now && forall i :: |before| <= i < |now| ==> now[i].Ready?
  }

  /** A call of a sink ends with the first future that is not ready; it is pending or fails with that, and only then. */
  ghost predicate SinkAnswers(before: seq<Poll<()>>, now: seq<Poll<()>>, r: SinkPoll) {
    if r == SinkPending || r == SinkIoFailed then
      && |before| < |now|
      && AllReady(before, now[..|now| - 1]) && SinkVerdict(now[|now| - 1]) == r
    else AllReady(before, now)
  }

  lemma SinkGoesOn(before: seq<Poll<()>>, now: seq<Poll<()>>, p: Poll<()>)
    requires AllReady(before, now)
    ensures SinkAnswers(before, now + [p], SinkVerdict(p))
    ensures p.Ready? ==> AllReady(before, now + [p])
  {
    assert (now + [p])[..|now|] == now;
  }

  class AsyncReader {
    const source: bytes  // all the peer sends before closing
    const eager: bool    // all of it has arrived: a poll yields as much as is asked for
    var pos: nat
    ghost var polls: seq<Poll<bytes>>  // all answers so far

    ghost predicate Valid()
      reads this
    {
      pos <= |source|
    }

    ghost function Received(): bytes
      requires Valid()
      reads this
    {
      source[..pos]
    }

    constructor (source: bytes, eager: bool)
      ensures Valid() && pos == 0 && this.source == source && this.eager == eager
    {
      this.source, this.eager := source, eager;
      pos, polls := 0, [];
    }

    /** Any non-empty amount that has arrived; nothing exactly at the end of the source. */
    method PollRead(most: nat) returns (r: Poll<bytes>)
      requires Valid() && most > 0
      modifies this
      ensures Valid() && polls == old(polls) + [r]
      ensures !r.Ready? ==> pos == old(pos)
      ensures r.Ready? ==> pos == old(pos) + |r.value| && r.value == source[old(pos)..pos] && |r.value| <= most
      ensures r.Ready? ==> (r.value == [] <==> old(pos) == |source|)
      ensures eager ==> r.Ready? && |r.value| == Min(most, |source| - old(pos))
    {
      if eager {
        r := Ready(source[pos..pos + Min(most, |source| - pos)]);
        pos := pos + |r.value|;
      } else if * {
        r := Pending;
      } else if * {
        r := Failed;
      } else if pos == |source| {
        r := Ready([]);
      } else {
        assert 1 <= most && 1 <= |source| - pos;
        var n: nat :| 1 <= n <= most && n <= |source| - pos;
        r := Ready(source[pos..pos + n]);
        pos := pos + n;
      }
      polls := polls + [r];
    }

    method PollReadInto(buf: array<byte>) returns (r: Poll<nat>)
      requires Valid() && buf.Length > 0
      modifies this, buf
      ensures Valid()
      ensures !r.Ready? ==> pos == old(pos)
      ensures r.Ready? ==> r.value <= buf.Length && pos == old(pos) + r.value && buf[..r.value] == source[old(pos)..pos]
      ensures r.Ready? ==> (r.value == 0 <==> old(pos) == |source|)
      ensures eager ==> r.Ready? && r.value == Min(buf.Length, |source| - old(pos))
      ensures polls == old(polls) + [match r
                                     case Pending => Pending
                                     case Failed => Failed
                                     case Ready(n) => Ready(buf[..n])]
    {
      var data := PollRead(buf.Length);
      match data
      case Pending => return Pending;
      case Failed => return Failed;
      case Ready(bytes) =>
        forall i | 0 <= i < |bytes| {
          buf[i] := bytes[i];
        }
        assert buf[..|bytes|] == bytes;
        return Ready(|bytes|);
    }
  }

  class AsyncWriter {
    const eager: bool  // takes everything at once
    var written: bytes
    var shut: bool
    ghost var polls: seq<Poll<()>>  // all answers so far

    constructor (eager: bool)
      ensures written == [] && !shut && polls == [] && this.eager == eager
    {
      this.eager := eager;
      written, shut, polls := [], false, [];
    }

    /** One poll of a `write_all` future that still has `rest` to write. */
    method PollWriteAll(rest: bytes) returns (r: Poll<()>, left: bytes)
      modifies this`written, this`polls
      ensures polls == old(polls) + [r]
      ensures written + left == old(written) + rest
      ensures r.Ready? ==> left == []
      ensures eager ==> r.Ready?
    {
      assert 0 <= |rest|;
      var n: nat :| n <= |rest| && (eager ==> n == |rest|);
      written := written + rest[..n];
      left := rest[n..];
      if eager {
        r := Ready(());
      } else if * {
        r := Failed;
      } else if * {
        r := Pending;
      } else {
        r := if left == [] then Ready(()) else Pending;
      }
      polls := polls + [r];
    }

    /** One poll of a future that flushes and then shuts down. */
    method PollShutdown() returns (r: Poll<()>)
      modifies this`shut, this`polls
      ensures polls == old(polls) + [r]
      ensures r.Ready? ==> shut
      ensures eager ==> r.Ready?
    {
      if eager {
        r := Ready(());
      } else if * {
        r := Pending;
      } else if * {
        r := Failed;
      } else {
        r := Ready(());
      }
      shut := shut || r.Ready?;
      polls := polls + [r];
    }
  }
}
