/**
 * The framed connection state: a bounded incremental parser (read side) and a printer (write side).
 * The classes are the state machines; the functions beside them say what each call does to the state.
 */
module ConnectionState {
  import opened Sequences
  import opened Wire

  type NonZero = n: nat | n > 0 witness 1

  // ---------------------------------------------------------------- read side

  datatype ReadConfig<!M> = ReadConfig(decode: Decoder<M>, queueSize: NonZero, bufferSize: NonZero)

  datatype ReadSide<M> = ReadSide(queue: seq<M>, buffer: bytes)

  /** The buffer takes a chunk whole unless it is already full; then it takes nothing. */
  predicate Accepts<M>(c: ReadConfig<M>, r: ReadSide<M>) {
    |r.buffer| < c.bufferSize
  }

  function Fed<M>(c: ReadConfig<M>, r: ReadSide<M>, chunk: bytes): ReadSide<M> {
    if Accepts(c, r) then r.(buffer := r.buffer + chunk) else r
  }

  function FreeSlots<M>(c: ReadConfig<M>, r: ReadSide<M>): nat {
    if |r.queue| < c.queueSize then c.queueSize - |r.queue| else 0
  }

  /** As many frames as there are free slots move from the buffer to the queue. */
  function Processed<M>(c: ReadConfig<M>, r: ReadSide<M>): ReadSide<M> {
    var p := ParseUpTo(c.decode, r.buffer, FreeSlots(c, r));
    ReadSide(r.queue + p.items, p.rest)
  }

  /** There is room for an item, and the frame at the front of the buffer does not decode. */
  predicate Broken<M>(c: ReadConfig<M>, r: ReadSide<M>) {
    |r.queue| < c.queueSize && Peek(c.decode, r.buffer).Bad?
  }

  class ConnectionReadState<M> {
    const config: ReadConfig<M>
    var recvQueue: seq<M>
    var recvBuffer: bytes

    ghost function View(): ReadSide<M>
      reads this
    {
      ReadSide(recvQueue, recvBuffer)
    }

    ghost predicate Valid()
      reads this
    {
      |recvQueue| <= config.queueSize
    }

    constructor (config: ReadConfig<M>)
      ensures Valid() && View() == ReadSide([], []) && this.config == config
    {
      this.config := config;
      recvQueue, recvBuffer := [], [];
    }

    method ConsumeItem() returns (item: Option<M>)
      requires Valid()
      modifies this
      ensures Valid()
      ensures old(recvQueue) == [] ==> item == None && View() == old(View())
      ensures old(recvQueue) != [] ==> item.Some? && old(View()) == ReadSide([item.value] + recvQueue, recvBuffer)
    {
      if recvQueue == [] {
        return None;
      }
      item := Some(recvQueue[0]);
      recvQueue := recvQueue[1..];
    }

    method FeedBytes(chunk: bytes) returns (fed: nat)
      requires Valid()
      modifies this
      ensures Valid()
      ensures View() == Fed(config, old(View()), chunk)
      ensures fed == if Accepts(config, old(View())) then |chunk| else 0
    {
      if |recvBuffer| + |chunk| >= config.bufferSize {
        if |recvBuffer| >= config.bufferSize {
          fed := 0;
        } else {
          recvBuffer := recvBuffer + chunk;
          fed := |chunk|;
        }
      } else {
        recvBuffer := recvBuffer + chunk;
        fed := |chunk|;
      }
    }

    method Process() returns (ok: bool)
      requires Valid()
      modifies this
      ensures Valid()
      ensures View() == Processed(config, old(View()))
      ensures !ok <==> Broken(config, View())
    {
      ghost var all := Processed(config, View());
      while true
        invariant Valid()
        invariant Processed(config, View()) == all
        decreases |recvBuffer|
      {
        if |recvQueue| >= config.queueSize {
          return true;
        }
        if |recvBuffer| < 8 {
          return true;
        }
        var nextLen := FromLe(recvBuffer[0..8]);
        assert recvBuffer[0..8] == recvBuffer[..8];
        if |recvBuffer| < 8 + nextLen {
          return true;
        }
        var itemsBuf := recvBuffer[8..8 + nextLen];
        var nextItem := config.decode(itemsBuf);
        if nextItem == None {
          return false;
        }
        ghost var later := ParseUpTo(config.decode, recvBuffer[8 + nextLen..], config.queueSize - |recvQueue| - 1);
        assert recvQueue + ([nextItem.value] + later.items) == recvQueue + [nextItem.value] + later.items;
        recvQueue := recvQueue + [nextItem.value];
        recvBuffer := recvBuffer[8 + nextLen..];
      }
    }
  }

  // ---------------------------------------------------------------- write side

  datatype WriteConfig<!M> = WriteConfig(encode: Encoder<M>, queueSize: NonZero)

  datatype WriteSide<M> = WriteSide(queue: seq<M>, buffer: bytes)

  predicate HasRoom<M>(c: WriteConfig<M>, w: WriteSide<M>) {
    |w.queue| < c.queueSize
  }

  function Offered<M>(c: WriteConfig<M>, w: WriteSide<M>, item: M): WriteSide<M> {
    if HasRoom(c, w) then w.(queue := w.queue + [item]) else w
  }

  /** How many items at the front of the queue encode. */
  function GoodRun<M>(encode: Encoder<M>, queue: seq<M>): (k: nat)
    ensures k <= |queue|
    ensures forall i :: 0 <= i < k ==> encode(queue[i]).Some?
    ensures k < |queue| ==> encode(queue[k]) == None
  {
    if queue == [] || encode(queue[0]) == None then 0 else 1 + GoodRun(encode, queue[1..])
  }

  /** Items up to the first refused one are framed; that one is dropped and the later ones stay queued. */
  function Flushed<M>(c: WriteConfig<M>, w: WriteSide<M>): WriteSide<M> {
    var k := GoodRun(c.encode, w.queue);
    WriteSide(if k < |w.queue| then w.queue[k + 1..] else [], w.buffer + WireOf(c.encode, w.queue[..k]))
  }

  lemma FlushNothing<M>(c: WriteConfig<M>, w: WriteSide<M>)
    requires w.queue == []
    ensures Flushed(c, w) == w
  {
    assert w.queue[..0] == [] && w.buffer + [] == w.buffer;
  }

  lemma FlushStep<M>(c: WriteConfig<M>, w: WriteSide<M>)
    requires w.queue != [] && c.encode(w.queue[0]).Some?
    ensures var n := WriteSide(w.queue[1..], w.buffer + FrameOf(c.encode, w.queue[0]));
            Flushed(c, w) == Flushed(c, n) && (FlushFails(c, w.queue) <==> FlushFails(c, n.queue))
  {
    var k, frame := GoodRun(c.encode, w.queue), FrameOf(c.encode, w.queue[0]);
    assert w.queue[..k][1..] == w.queue[1..][..k - 1];
    Regroup(w.buffer, frame, WireOf(c.encode, w.queue[1..][..k - 1]));
  }

  predicate FlushFails<M>(c: WriteConfig<M>, queue: seq<M>) {
    GoodRun(c.encode, queue) < |queue|
  }

  class ConnectionWriteState<M> {
    const config: WriteConfig<M>
    var sendQueue: seq<M>
    var sendBuffer: bytes

    ghost function View(): WriteSide<M>
      reads this
    {
      WriteSide(sendQueue, sendBuffer)
    }

    ghost predicate Valid()
      reads this
    {
      |sendQueue| <= config.queueSize
    }

    constructor (config: WriteConfig<M>)
      ensures Valid() && View() == WriteSide([], []) && this.config == config
    {
      this.config := config;
      sendQueue, sendBuffer := [], [];
    }

    /** Documented as the free space counted in items; `max` stands where that needs `min`. */
    method AvailableSpace() returns (space: nat)
      requires Valid()
      ensures space == 0
      ensures space == config.queueSize - |sendQueue| <==> !HasRoom(config, View())
    {
      space := config.queueSize - (if |sendQueue| > config.queueSize then |sendQueue| else config.queueSize);
    }

    method ConsumeBytes(len: nat) returns (out: Option<bytes>)
      modifies this
      ensures sendQueue == old(sendQueue)
      ensures out.None? <==> old(sendBuffer) == []
      ensures out.None? ==> sendBuffer == []
      ensures out.Some? ==> old(sendBuffer) == out.value + sendBuffer && |out.value| == Min(len, |old(sendBuffer)|)
    {
      if sendBuffer == [] {
        return None;
      }
      if |sendBuffer| < len {
        out := Some(sendBuffer);
        sendBuffer := [];
      } else {
        out := Some(sendBuffer[..len]);
        sendBuffer := sendBuffer[len..];
      }
    }

    method ConsumeAll() returns (out: Option<bytes>)
      modifies this
      ensures sendQueue == old(sendQueue) && sendBuffer == []
      ensures out == if old(sendBuffer) == [] then None else Some(old(sendBuffer))
    {
      if sendBuffer == [] {
        return None;
      }
      out := Some(sendBuffer);
      sendBuffer := [];
    }

    method FeedItem(item: M) returns (back: Option<M>)
      requires Valid()
      modifies this
      ensures Valid()
      ensures View() == Offered(config, old(View()), item)
      ensures back == if HasRoom(config, old(View())) then None else Some(item)
    {
      if |sendQueue| >= config.queueSize {
        back := Some(item);
      } else {
        sendQueue := sendQueue + [item];
        back := None;
      }
    }

    method WriteQueueEmpty() returns (empty: bool)
      ensures empty <==> sendQueue == []
    {
      empty := sendQueue == [];
    }

    method Process() returns (ok: bool)
      requires Valid()
      modifies this
      ensures Valid()
      ensures View() == Flushed(config, old(View()))
      ensures ok <==> !FlushFails(config, old(sendQueue))
    {
      ghost var before := View();
      while sendQueue != []
        invariant Valid()
        invariant Flushed(config, View()) == Flushed(config, before)
        invariant FlushFails(config, sendQueue) <==> FlushFails(config, before.queue)
        decreases |sendQueue|
      {
        ghost var current := View();
        var toSend := sendQueue[0];
        sendQueue := sendQueue[1..];
        var encoded := config.encode(toSend);
        if encoded == None {
          assert current.queue[..0] == [] && sendBuffer + [] == sendBuffer;
          return false;
        }
        FlushStep(config, current);
        Regroup(sendBuffer, ToLe(encoded.value.len, 8), encoded.value.payload);
        sendBuffer := sendBuffer + ToLe(encoded.value.len, 8);
        sendBuffer := sendBuffer + encoded.value.payload;
      }
      assert sendQueue[..0] == [] && sendBuffer + [] == sendBuffer;
      return true;
    }
  }
}
