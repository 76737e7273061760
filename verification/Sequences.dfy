/** Shared by every layer: options, and mapping each element of a sequence to a piece of another one. */
module Sequences {

  datatype Option<+T> = None | Some(value: T)

  function Min(a: nat, b: nat): nat {
    if a <= b then a else b
  }

  lemma Cancel<X>(a: seq<X>, x: seq<X>, y: seq<X>)
    requires a + x == a + y
    ensures x == y
  {
    assert x == (a + x)[|a|..];
    assert y == (a + y)[|a|..];
  }

  lemma Regroup<X>(a: seq<X>, b: seq<X>, c: seq<X>)
    ensures (a + b) + c == a + (b + c)
  {
  }

  /** The pieces of the elements, one after the other. */
  function Flat<X, Y>(piece: X -> seq<Y>, s: seq<X>): seq<Y> {
    if s == [] then [] else piece(s[0]) + Flat(piece, s[1..])
  }

  lemma FlatEmpty<X, Y>(piece: X -> seq<Y>)
    ensures Flat(piece, []) == []
  {
  }

  lemma {:induction false} FlatAppend<X, Y>(piece: X -> seq<Y>, a: seq<X>, b: seq<X>)
    ensures Flat(piece, a + b) == Flat(piece, a) + Flat(piece, b)
  {
    if a == [] {
      assert a + b == b;
    } else {
      FlatAppend(piece, a[1..], b);
      assert (a + b)[1..] == a[1..] + b;
      Regroup(piece(a[0]), Flat(piece, a[1..]), Flat(piece, b));
    }
  }

  lemma FlatSnoc<X, Y>(piece: X -> seq<Y>, a: seq<X>, x: X)
    ensures Flat(piece, a + [x]) == Flat(piece, a) + piece(x)
    ensures piece(x) == [] ==> Flat(piece, a + [x]) == Flat(piece, a)
  {
    FlatAppend(piece, a, [x]);
    assert Flat(piece, [x]) == piece(x) + Flat(piece, []);
  }

  /** Appending at most one element that has no piece. */
  lemma FlatQuietTail<X, Y>(piece: X -> seq<Y>, s: seq<X>, tail: seq<X>)
    requires |tail| <= 1 && (tail != [] ==> piece(tail[0]) == [])
    ensures Flat(piece, s + tail) == Flat(piece, s)
  {
    if tail == [] {
      assert s + tail == s;
    } else {
      assert tail == [tail[0]];
      FlatSnoc(piece, s, tail[0]);
    }
  }

  lemma FlatHead<X, Y>(piece: X -> seq<Y>, s: seq<X>)
    requires s != []
    ensures piece(s[0]) == [] ==> Flat(piece, s) == Flat(piece, s[1..])
    ensures piece(s[0]) != [] ==> Flat(piece, s) == piece(s[0]) + Flat(piece, s[1..])
  {
  }

  /** Around one position. */
  lemma FlatAt<X, Y>(piece: X -> seq<Y>, s: seq<X>, i: nat)
    requires i < |s|
    ensures Flat(piece, s) == Flat(piece, s[..i]) + piece(s[i]) + Flat(piece, s[i + 1..])
  {
    assert s == s[..i] + s[i..];
    FlatAppend(piece, s[..i], s[i..]);
  }

  /** Replacing an element, or removing one, changes its piece alone. */
  lemma FlatReplace<X, Y>(piece: X -> seq<Y>, s: seq<X>, i: nat, x: X)
    requires i < |s|
    ensures Flat(piece, s[i := x]) == Flat(piece, s[..i]) + piece(x) + Flat(piece, s[i + 1..])
    ensures piece(x) == piece(s[i]) ==> Flat(piece, s[i := x]) == Flat(piece, s)
  {
    FlatAt(piece, s, i);
    FlatAt(piece, s[i := x], i);
    assert s[i := x][..i] == s[..i] && s[i := x][i + 1..] == s[i + 1..];
  }

  lemma FlatRemove<X, Y>(piece: X -> seq<Y>, s: seq<X>, i: nat)
    requires i < |s|
    ensures Flat(piece, s[..i] + s[i + 1..]) == Flat(piece, s[..i]) + Flat(piece, s[i + 1..])
    ensures piece(s[i]) == [] ==> Flat(piece, s[..i] + s[i + 1..]) == Flat(piece, s)
  {
    FlatAt(piece, s, i);
    FlatAppend(piece, s[..i], s[i + 1..]);
    assert piece(s[i]) == [] ==> Flat(piece, s[..i]) + [] == Flat(piece, s[..i]);
  }

  /** Whatever is in the result came from some element. */
  lemma {:induction false} FlatSource<X, Y>(piece: X -> seq<Y>, s: seq<X>, y: Y) returns (i: nat)
    requires y in Flat(piece, s)
    ensures i < |s| && y in piece(s[i])
  {
    if y in piece(s[0]) {
      i := 0;
    } else {
      i := FlatSource(piece, s[1..], y);
      i := i + 1;
    }
  }

  /** What is silent under one map is silent under another that speaks less. */
  lemma {:induction false} FlatSilent<X, Y, Z>(loud: X -> seq<Y>, quiet: X -> seq<Z>, s: seq<X>)
    requires forall x :: x in s && loud(x) == [] ==> quiet(x) == []
    requires Flat(loud, s) == []
    ensures Flat(quiet, s) == []
  {
    if s != [] {
      assert s[0] in s;
      FlatSilent(loud, quiet, s[1..]);
    }
  }
}
