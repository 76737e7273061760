/** The wire format: an 8-byte little-endian length header followed by the payload. */
module Wire {

  import opened Sequences

  type byte = b: int | 0 <= b < 256
  type bytes = seq<byte>

  const U64_RANGE: nat := 0x1_0000_0000_0000_0000
  type u64 = n: int | 0 <= n < 0x1_0000_0000_0000_0000

  // ---------------------------------------------------------------- little-endian integers

  function ToLe(n: nat, width: nat): (b: bytes)
    ensures |b| == width
  {
    if width == 0 then [] else [n % 256] + ToLe(n / 256, width - 1)
  }

  function FromLe(b: bytes): nat {
    if b == [] then 0 else b[0] + 256 * FromLe(b[1..])
  }

  function Pow256(k: nat): (p: nat)
    ensures p > 0
  {
    if k == 0 then 1 else 256 * Pow256(k - 1)
  }

  /** Reading back a written integer gives its low `width` bytes. */
  lemma {:induction false} LeRoundTrip(n: nat, width: nat)
    requires n < Pow256(width)
    ensures FromLe(ToLe(n, width)) == n
  {
    if width > 0 {
      LeRoundTrip(n / 256, width - 1);
      assert ToLe(n, width)[1..] == ToLe(n / 256, width - 1);
    }
  }

  /** Writing an integer that was read gives the same bytes: the header codec is a bijection. */
  lemma {:induction false} LeRoundTripBack(b: bytes)
    ensures FromLe(b) < Pow256(|b|)
    ensures ToLe(FromLe(b), |b|) == b
  {
    if b != [] {
      LeRoundTripBack(b[1..]);
      assert FromLe(b) / 256 == FromLe(b[1..]) && FromLe(b) % 256 == b[0];
    }
  }

  lemma DivisionIsUnique(n: nat, d: nat, q: nat, r: nat)
    requires d > 0 && n == d * q + r && r < d
    ensures n / d == q
  {
    var k, m := n / d, n % d;
    assert n == d * k + m;
    assert k < q ==> d * q >= d * (k + 1);
    assert k > q ==> d * k >= d * (q + 1);
  }

  lemma DivideTwice(n: nat, p: nat)
    requires p > 0
    ensures n / (256 * p) == n / 256 / p
  {
    var a, r := n / 256, n % 256;
    var q, s := a / p, a % p;
    assert a == p * q + s && n == 256 * a + r;
    assert 256 * (p * q) == 256 * p * q;
    assert 256 * s + r < 256 * p;
    DivisionIsUnique(n, 256 * p, q, 256 * s + r);
  }

  /** The least significant byte comes first: the byte at position `i` counts multiples of 256 to the `i`. */
  lemma {:induction false} LittleEndian(n: nat, width: nat, i: nat)
    requires i < width
    ensures ToLe(n, width)[i] == n / Pow256(i) % 256
  {
    if i > 0 {
      LittleEndian(n / 256, width - 1, i - 1);
      DivideTwice(n, Pow256(i - 1));
    }
  }

  /** So it is for reading: bytes that come later weigh more. */
  lemma {:induction false} LaterBytesWeighMore(a: bytes, b: bytes)
    ensures FromLe(a + b) == FromLe(a) + Pow256(|a|) * FromLe(b)
    ensures |b| == 1 ==> FromLe(b) == b[0]
  {
    if a == [] {
      assert a + b == b;
    } else {
      LaterBytesWeighMore(a[1..], b);
      assert (a + b)[1..] == a[1..] + b;
      Distribute(a[0], FromLe(a[1..]), Pow256(|a| - 1), FromLe(b));
    }
  }

  lemma Distribute(x: nat, y: nat, p: nat, f: nat)
    ensures x + 256 * (y + p * f) == x + 256 * y + 256 * p * f
  {
  }

  lemma HeaderRoundTrip(n: u64)
    ensures FromLe(ToLe(n, 8)) == n
  {
    assert Pow256(8) == U64_RANGE by {
      assert Pow256(2) == 0x1_0000;
      assert Pow256(4) == 0x1_0000_0000;
      assert Pow256(6) == 0x1_0000_0000_0000;
    }
    LeRoundTrip(n, 8);
  }

  // ---------------------------------------------------------------- the coder

  datatype Encoded = Encoded(payload: bytes, len: u64)

  type Encoder<!M> = M -> Option<Encoded>
  type Decoder<!M> = bytes -> Option<M>

  /** What the coders shipped with the protocol provide: the length is the payload's, and decoding undoes encoding. */
  ghost predicate Faithful<M(!new)>(encode: Encoder<M>, decode: Decoder<M>) {
    forall m: M :: encode(m).Some? ==>
      encode(m).value.len == |encode(m).value.payload| && decode(encode(m).value.payload) == Some(m)
  }

  // ---------------------------------------------------------------- reading frames

  /** What stands at the front of a byte buffer. */
  datatype Front<+M> =
    | Incomplete
    | Bad(total: nat)
    | Complete(item: M, total: nat)

  function Peek<M>(decode: Decoder<M>, b: bytes): (f: Front<M>)
    ensures !f.Incomplete? ==> 8 <= f.total <= |b|
  {
    if |b| < 8 then Incomplete
    else
      var total := 8 + FromLe(b[..8]);
      if |b| < total then Incomplete
      else match decode(b[8..total])
        case None => Bad(total)
        case Some(m) => Complete(m, total)
  }

  datatype Parsed<+M> = Parsed(items: seq<M>, rest: bytes)

  /** Batch parsing: all complete frames up to the first incomplete or undecodable one. */
  function Parse<M>(decode: Decoder<M>, b: bytes): Parsed<M>
    decreases |b|
  {
    match Peek(decode, b)
    case Complete(m, total) =>
      var p := Parse(decode, b[total..]);
      Parsed([m] + p.items, p.rest)
    case _ => Parsed([], b)
  }

  /** The same, stopping after at most `n` frames. */
  function ParseUpTo<M>(decode: Decoder<M>, b: bytes, n: nat): Parsed<M> {
    match Peek(decode, b)
    case Complete(m, total) =>
      if n == 0 then Parsed([], b) else
        var p := ParseUpTo(decode, b[total..], n - 1);
        Parsed([m] + p.items, p.rest)
    case _ => Parsed([], b)
  }

  /** A decided front stays decided when more bytes arrive. */
  lemma PeekExtends<M>(decode: Decoder<M>, a: bytes, b: bytes)
    requires !Peek(decode, a).Incomplete?
    ensures Peek(decode, a + b) == Peek(decode, a)
  {
    assert (a + b)[..8] == a[..8];
    var total := 8 + FromLe(a[..8]);
    assert (a + b)[8..total] == a[8..total];
  }

  lemma {:induction false} ParseStops<M>(decode: Decoder<M>, b: bytes)
    ensures !Peek(decode, Parse(decode, b).rest).Complete?
    ensures |Parse(decode, b).rest| <= |b|
    ensures Parse(decode, b).items == [] <==> !Peek(decode, b).Complete?
    decreases |b|
  {
    var f := Peek(decode, b);
    if f.Complete? {
      ParseStops(decode, b[f.total..]);
    }
  }

  /** Incremental parsing equals batch parsing. */
  lemma {:induction false} ParseAppend<M>(decode: Decoder<M>, a: bytes, b: bytes)
    ensures var p := Parse(decode, a);
            var q := Parse(decode, p.rest + b);
            Parse(decode, a + b) == Parsed(p.items + q.items, q.rest)
    decreases |a|
  {
    hide Peek;
    var f := Peek(decode, a);
    if f.Complete? {
      PeekExtends(decode, a, b);
      ParseAppend(decode, a[f.total..], b);
      assert (a + b)[f.total..] == a[f.total..] + b;
      var p := Parse(decode, a[f.total..]);
      Regroup([f.item], p.items, Parse(decode, p.rest + b).items);
    }
  }

  /** Whole frames at the front parse the same without what follows them. */
  lemma PeekCut<M>(decode: Decoder<M>, b: bytes, k: nat)
    requires Peek(decode, b).Complete? && Peek(decode, b).total <= k <= |b|
    ensures Peek(decode, b[..k]) == Peek(decode, b)
  {
    var total := Peek(decode, b).total;
    assert b[..k][..8] == b[..8];
    assert b[..k][8..total] == b[8..total];
  }

  /** Bounded parsing takes the first frames of the batch parse, as many as are wanted and there. */
  lemma {:induction false} ParseUpToIsPrefix<M>(decode: Decoder<M>, b: bytes, n: nat)
    ensures var p := ParseUpTo(decode, b, n);
            var q := Parse(decode, p.rest);
            && Parse(decode, b) == Parsed(p.items + q.items, q.rest)
            && |p.items| == Min(n, |Parse(decode, b).items|)
            && |p.rest| + 8 * |p.items| <= |b|
    decreases n
  {
    hide Peek;
    var f := Peek(decode, b);
    if f.Complete? && n > 0 {
      ParseUpToIsPrefix(decode, b[f.total..], n - 1);
      var p := ParseUpTo(decode, b[f.total..], n - 1);
      Regroup([f.item], p.items, Parse(decode, p.rest).items);
    }
  }

  lemma CutAgain(b: bytes, first: nat, k: nat)
    requires first <= k <= |b|
    ensures b[..k][first..] == b[first..][..k - first]
  {
  }

  /** The bytes bounded parsing removes are exactly the frames of the items it yields. */
  lemma {:induction false} ParseUpToCuts<M>(decode: Decoder<M>, b: bytes, n: nat)
    ensures var p := ParseUpTo(decode, b, n);
            && |p.rest| <= |b|
            && p.rest == b[|b| - |p.rest|..]
            && Parse(decode, b[..|b| - |p.rest|]) == Parsed(p.items, [])
    decreases n
  {
    hide Peek;
    var f := Peek(decode, b);
    var p := ParseUpTo(decode, b, n);
    if f.Complete? && n > 0 {
      ParseUpToCuts(decode, b[f.total..], n - 1);
      CutAgain(b, f.total, |b| - |p.rest|);
      PeekCut(decode, b, |b| - |p.rest|);
    } else {
      assert b[..0] == [];
    }
  }

  // ---------------------------------------------------------------- writing frames

  function FrameOf<M>(encode: Encoder<M>, m: M): (b: bytes)
    requires encode(m).Some?
    ensures |b| >= 8
  {
    ToLe(encode(m).value.len, 8) + encode(m).value.payload
  }

  /** A frame, byte by byte: the payload's length in eight bytes, least significant first, then the payload. */
  lemma FrameLayout<M>(encode: Encoder<M>, m: M)
    requires encode(m).Some?
    ensures var e, f := encode(m).value, FrameOf(encode, m);
            && |f| == 8 + |e.payload| && f[8..] == e.payload
            && f[0] == e.len % 0x100 && f[1] == e.len / 0x100 % 0x100
            && f[2] == e.len / 0x1_0000 % 0x100 && f[3] == e.len / 0x100_0000 % 0x100
            && f[4] == e.len / 0x1_0000_0000 % 0x100 && f[5] == e.len / 0x100_0000_0000 % 0x100
            && f[6] == e.len / 0x1_0000_0000_0000 % 0x100 && f[7] == e.len / 0x100_0000_0000_0000 % 0x100
  {
    hide ToLe, Pow256;
    var len := encode(m).value.len;
    Powers();
    forall i | 0 <= i < 8 ensures FrameOf(encode, m)[i] == len / Pow256(i) % 256 {
      LittleEndian(len, 8, i);
    }
  }

  lemma Powers()
    ensures Pow256(0) == 1 && Pow256(1) == 0x100 && Pow256(2) == 0x1_0000 && Pow256(3) == 0x100_0000
    ensures Pow256(4) == 0x1_0000_0000 && Pow256(5) == 0x100_0000_0000
    ensures Pow256(6) == 0x1_0000_0000_0000 && Pow256(7) == 0x100_0000_0000_0000
  {
    assert Pow256(2) == 256 * Pow256(1);
    assert Pow256(4) == 256 * Pow256(3);
    assert Pow256(6) == 256 * Pow256(5);
  }

  /** What a reader makes of a buffer, byte by byte. */
  lemma PeekLayout<M>(decode: Decoder<M>, b: bytes)
    requires |b| >= 8
    ensures var h: seq<int> := b;
            var len := h[0] + 0x100 * h[1] + 0x1_0000 * h[2] + 0x100_0000 * h[3] + 0x1_0000_0000 * h[4]
                       + 0x100_0000_0000 * h[5] + 0x1_0000_0000_0000 * h[6] + 0x100_0000_0000_0000 * h[7];
            if |b| < 8 + len then Peek(decode, b).Incomplete?
            else
              && !Peek(decode, b).Incomplete? && Peek(decode, b).total == 8 + len
              && (Peek(decode, b).Complete? <==> decode(b[8..8 + len]).Some?)
              && (Peek(decode, b).Complete? ==> decode(b[8..8 + len]) == Some(Peek(decode, b).item))
  {
    EightBytes(b[..8]);
  }

  lemma EightBytes(b: bytes)
    requires |b| == 8
    ensures var h: seq<int> := b;
            FromLe(b) == h[0] + 0x100 * h[1] + 0x1_0000 * h[2] + 0x100_0000 * h[3] + 0x1_0000_0000 * h[4]
                         + 0x100_0000_0000 * h[5] + 0x1_0000_0000_0000 * h[6] + 0x100_0000_0000_0000 * h[7]
  {
    FirstByte(b, 0);
    FirstByte(b, 1);
    FirstByte(b, 2);
    FirstByte(b, 3);
    FirstByte(b, 4);
    FirstByte(b, 5);
    FirstByte(b, 6);
    FirstByte(b, 7);
    assert b[0..] == b && FromLe(b[8..]) == 0;
  }

  lemma FirstByte(b: bytes, i: nat)
    requires i < |b|
    ensures FromLe(b[i..]) == b[i] + 256 * FromLe(b[i + 1..])
  {
    assert b[i..][1..] == b[i + 1..];
  }

  /** What one item adds to the wire: its frame, or nothing when the encoder refuses it. */
  function Framing<M>(encode: Encoder<M>): M -> bytes {
    m => if encode(m).Some? then FrameOf(encode, m) else []
  }

  function Keeping<M>(encode: Encoder<M>): M -> seq<M> {
    m => if encode(m).Some? then [m] else []
  }

  /** The concatenated frames of the items the encoder accepts. */
  function WireOf<M>(encode: Encoder<M>, ms: seq<M>): bytes {
    Flat(Framing(encode), ms)
  }

  /** The items of `ms` the encoder accepts. */
  function Encodable<M>(encode: Encoder<M>, ms: seq<M>): seq<M> {
    Flat(Keeping(encode), ms)
  }

  /** An item that encodes adds its frame and itself, one that does not adds nothing. */
  lemma WireSnoc<M>(encode: Encoder<M>, a: seq<M>, m: M)
    ensures WireOf(encode, a + [m]) == WireOf(encode, a) + Framing(encode)(m)
    ensures Encodable(encode, a + [m]) == Encodable(encode, a) + Keeping(encode)(m)
    ensures encode(m).Some? ==>
              && WireOf(encode, a + [m]) == WireOf(encode, a) + FrameOf(encode, m)
              && Encodable(encode, a + [m]) == Encodable(encode, a) + [m]
    ensures encode(m).None? ==>
              WireOf(encode, a + [m]) == WireOf(encode, a) && Encodable(encode, a + [m]) == Encodable(encode, a)
  {
    FlatSnoc(Framing(encode), a, m);
    FlatSnoc(Keeping(encode), a, m);
  }

  /** A frame at the front of a buffer is recognised whatever follows it. */
  lemma PeekFrame<M(!new)>(encode: Encoder<M>, decode: Decoder<M>, m: M, tail: bytes)
    requires Faithful(encode, decode) && encode(m).Some?
    ensures Peek(decode, FrameOf(encode, m) + tail) == Complete(m, |FrameOf(encode, m)|)
    ensures (FrameOf(encode, m) + tail)[|FrameOf(encode, m)|..] == tail
  {
    var b := FrameOf(encode, m) + tail;
    HeaderRoundTrip(encode(m).value.len);
    assert b[..8] == ToLe(encode(m).value.len, 8);
    assert b[8..|FrameOf(encode, m)|] == encode(m).value.payload;
  }

  /** No proper prefix of a frame looks like a frame. */
  lemma FramesArePrefixFree<M(!new)>(encode: Encoder<M>, decode: Decoder<M>, m: M, k: nat)
    requires Faithful(encode, decode) && encode(m).Some?
    requires k < |FrameOf(encode, m)|
    ensures Peek(decode, FrameOf(encode, m)[..k]) == Incomplete
  {
    if k >= 8 {
      HeaderRoundTrip(encode(m).value.len);
      assert FrameOf(encode, m)[..k][..8] == ToLe(encode(m).value.len, 8);
    }
  }

  lemma ParseFrame<M(!new)>(encode: Encoder<M>, decode: Decoder<M>, m: M, tail: bytes)
    requires Faithful(encode, decode) && encode(m).Some?
    ensures Parse(decode, FrameOf(encode, m) + tail) ==
            Parsed([m] + Parse(decode, tail).items, Parse(decode, tail).rest)
  {
    PeekFrame(encode, decode, m, tail);
  }

  /** The parser undoes the printer. */
  lemma {:induction false} ParseWire<M(!new)>(encode: Encoder<M>, decode: Decoder<M>, ms: seq<M>)
    requires Faithful(encode, decode)
    ensures Parse(decode, WireOf(encode, ms)) == Parsed(Encodable(encode, ms), [])
  {
    if ms != [] {
      ParseWire(encode, decode, ms[1..]);
      if encode(ms[0]).Some? {
        ParseFrame(encode, decode, ms[0], WireOf(encode, ms[1..]));
      } else {
        assert [] + WireOf(encode, ms[1..]) == WireOf(encode, ms[1..]);
        assert [] + Encodable(encode, ms[1..]) == Encodable(encode, ms[1..]);
      }
    }
  }

  lemma {:induction false} WireOfEncodable<M>(encode: Encoder<M>, ms: seq<M>)
    ensures WireOf(encode, Encodable(encode, ms)) == WireOf(encode, ms)
  {
    if ms != [] {
      WireOfEncodable(encode, ms[1..]);
      FlatAppend(Framing(encode), Keeping(encode)(ms[0]), Encodable(encode, ms[1..]));
      if encode(ms[0]).Some? {
        assert Flat(Framing(encode), [ms[0]]) == FrameOf(encode, ms[0]) + Flat(Framing(encode), []);
      }
    }
  }

  /** Two item sequences look the same on the wire exactly when the items sent are the same. */
  lemma UniquelyDecodable<M(!new)>(encode: Encoder<M>, decode: Decoder<M>, a: seq<M>, b: seq<M>)
    requires Faithful(encode, decode)
    ensures WireOf(encode, a) == WireOf(encode, b) <==> Encodable(encode, a) == Encodable(encode, b)
  {
    ParseWire(encode, decode, a);
    ParseWire(encode, decode, b);
    WireOfEncodable(encode, a);
    WireOfEncodable(encode, b);
  }

  /**
   * The wire is a FIFO channel: whatever part of the written bytes a reader has received,
   * it parses to a prefix of the items sent, and to all of them once every byte is there.
   */
  lemma WireIsFifo<M(!new)>(encode: Encoder<M>, decode: Decoder<M>, sent: seq<M>, received: bytes)
    requires Faithful(encode, decode)
    requires received <= WireOf(encode, sent)
    ensures Parse(decode, received).items <= Encodable(encode, sent)
    ensures received == WireOf(encode, sent) ==> Parse(decode, received) == Parsed(Encodable(encode, sent), [])
  {
    var wire := WireOf(encode, sent);
    ParseWire(encode, decode, sent);
    assert received + wire[|received|..] == wire;
    ParseAppend(decode, received, wire[|received|..]);
  }

  // ---------------------------------------------------------------- following a stream

  /**
   * `done` is what has been taken out of the stream `total`, and `left` the bytes after it:
   * the bytes in front of `left` are whole frames and parse to exactly `done`.
   */
  ghost predicate Tracks<M>(decode: Decoder<M>, total: bytes, done: seq<M>, left: bytes) {
    && |left| <= |total|
    && left == total[|total| - |left|..]
    && Parse(decode, total[..|total| - |left|]) == Parsed(done, [])
  }

  lemma TracksExtend<M>(decode: Decoder<M>, total: bytes, done: seq<M>, left: bytes, more: bytes)
    requires Tracks(decode, total, done, left)
    ensures Tracks(decode, total + more, done, left + more)
  {
    var k := |total| - |left|;
    assert (total + more)[..k] == total[..k];
    assert (total + more)[k..] == left + more;
  }

  /** Forgetting the newest bytes keeps following what came before them. */
  lemma TracksForget<M>(decode: Decoder<M>, total: bytes, done: seq<M>, left: bytes, more: bytes)
    requires Tracks(decode, total, done, left + more)
    ensures |more| <= |total| && Tracks(decode, total[..|total| - |more|], done, left)
  {
    var k := |total| - |left + more|;
    assert total[..|total| - |more|][..k] == total[..k];
    assert total[..|total| - |more|][k..] == (left + more)[..|left|] == left;
  }

  lemma Advance(total: bytes, left: bytes, back: bytes, step: nat)
    requires |left + back| <= |total| && left + back == total[|total| - |left + back|..]
    requires step <= |left|
    ensures var k := |total| - |left + back|;
            && total[..k + step] == total[..k] + left[..step]
            && total[k + step..] == left[step..] + back
  {
  }

  /** Taking frames off the front of `left` keeps following the same stream. */
  lemma TracksTake<M>(decode: Decoder<M>, total: bytes, done: seq<M>, left: bytes, back: bytes, n: nat)
    requires Tracks(decode, total, done, left + back)
    ensures var p := ParseUpTo(decode, left, n);
            Tracks(decode, total, done + p.items, p.rest + back)
  {
    hide Parse, ParseUpTo;
    var p := ParseUpTo(decode, left, n);
    var k, step := |total| - |left + back|, |left| - |p.rest|;
    ParseUpToCuts(decode, left, n);
    Advance(total, left, back, step);
    ParseThen(decode, total[..k], left[..step]);
  }

  lemma ParseThen<M>(decode: Decoder<M>, a: bytes, b: bytes)
    requires Parse(decode, a).rest == [] && Parse(decode, b).rest == []
    ensures Parse(decode, a + b) == Parsed(Parse(decode, a).items + Parse(decode, b).items, [])
  {
    hide Parse;
    ParseAppend(decode, a, b);
    assert [] + b == b;
  }

  /** What a followed stream parses to as a whole. */
  lemma TracksMeans<M>(decode: Decoder<M>, total: bytes, done: seq<M>, left: bytes)
    requires Tracks(decode, total, done, left)
    ensures var q := Parse(decode, left);
            Parse(decode, total) == Parsed(done + q.items, q.rest)
  {
    hide Parse;
    var k := |total| - |left|;
    ParseAppend(decode, total[..k], left);
    assert total[..k] + left == total;
    assert [] + left == left;
  }

  // ---------------------------------------------------------------- frames that fit a buffer

  /** Every frame of the stream, and what is left after the last one, fits a buffer of `size` bytes. */
  predicate Fits<M>(decode: Decoder<M>, b: bytes, size: nat)
    decreases |b|
  {
    match Peek(decode, b)
    case Incomplete => |b| <= size
    case Bad(total) => total <= size
    case Complete(_, total) => total <= size && Fits(decode, b[total..], size)
  }

  lemma {:induction false} FitsSuffix<M>(decode: Decoder<M>, total: bytes, done: seq<M>, left: bytes, size: nat)
    requires Tracks(decode, total, done, left)
    requires Fits(decode, total, size)
    ensures Fits(decode, left, size)
    decreases |total|
  {
    var k := |total| - |left|;
    if k == 0 {
      assert total == left;
    } else {
      var f := Peek(decode, total[..k]);
      assert f.Complete? by {
        ParseStops(decode, total[..k]);
      }
      PeekExtends(decode, total[..k], left);
      assert total[..k] + left == total;
      assert total[f.total..][..k - f.total] == total[..k][f.total..];
      assert left == total[f.total..][k - f.total..];
      FitsSuffix(decode, total[f.total..], done[1..], left, size);
    }
  }

  /** A buffer that is full and yet starts with no frame shows that the stream does not fit. */
  lemma FullWithoutFrame<M>(decode: Decoder<M>, total: bytes, done: seq<M>, buffer: bytes, ahead: bytes, size: nat)
    requires Tracks(decode, total, done, buffer + ahead)
    requires Peek(decode, buffer).Incomplete? && |buffer| >= size && ahead != []
    ensures !Fits(decode, total, size)
  {
    if |buffer| >= 8 {
      assert (buffer + ahead)[..8] == buffer[..8];
    }
    if Fits(decode, total, size) {
      FitsSuffix(decode, total, done, buffer + ahead, size);
    }
  }

  /** The frame of every item that encodes fits a buffer of `size` bytes. */
  ghost predicate FramesFit<M>(encode: Encoder<M>, ms: seq<M>, size: nat) {
    forall m :: m in ms && encode(m).Some? ==> |FrameOf(encode, m)| <= size
  }

  /** What an encoder that never exceeds `size` bytes puts on the wire fits a buffer of that size. */
  lemma {:induction false} WireFits<M(!new)>(encode: Encoder<M>, decode: Decoder<M>, ms: seq<M>, size: nat)
    requires Faithful(encode, decode)
    requires FramesFit(encode, ms, size)
    ensures Fits(decode, WireOf(encode, ms), size)
  {
    if ms != [] {
      WireFits(encode, decode, ms[1..], size);
      if encode(ms[0]).Some? {
        PeekFrame(encode, decode, ms[0], WireOf(encode, ms[1..]));
      } else {
        assert [] + WireOf(encode, ms[1..]) == WireOf(encode, ms[1..]);
      }
    }
  }

  lemma {:induction false} FitsPrefix<M>(decode: Decoder<M>, a: bytes, b: bytes, size: nat)
    requires Fits(decode, a + b, size)
    ensures Fits(decode, a, size)
    decreases |a|
  {
    match Peek(decode, a)
    case Complete(_, total) =>
      PeekExtends(decode, a, b);
      assert (a + b)[total..] == a[total..] + b;
      FitsPrefix(decode, a[total..], b, size);
    case Bad(_) =>
      PeekExtends(decode, a, b);
    case Incomplete =>
      if |a| >= 8 {
        assert (a + b)[..8] == a[..8];
      }
  }

  /**
   * From writer to reader: any part received of what a writer has written for `sent` fits a reader's buffer if the
   * frames do, and parses to a prefix of the items sent, to all of them when everything has been received.
   */
  lemma WrittenIsReadable<M(!new)>(encode: Encoder<M>, decode: Decoder<M>, sent: seq<M>, received: bytes, size: nat)
    requires Faithful(encode, decode)
    requires FramesFit(encode, sent, size)
    requires received <= WireOf(encode, sent)
    ensures Fits(decode, received, size)
    ensures Parse(decode, received).items <= Encodable(encode, sent)
    ensures received == WireOf(encode, sent) ==> Parse(decode, received) == Parsed(Encodable(encode, sent), [])
  {
    var wire := WireOf(encode, sent);
    WireFits(encode, decode, sent, size);
    assert received + wire[|received|..] == wire;
    FitsPrefix(decode, received, wire[|received|..], size);
    WireIsFifo(encode, decode, sent, received);
  }
}
