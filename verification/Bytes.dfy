/** Byte strings, their concatenation, and the results that the modelled calls return. */
module Bytes {

  type byte = bv8

  const U32_LIMIT := 0x1_0000_0000
  const U64_MAX := 0xFFFF_FFFF_FFFF_FFFF

  datatype Option<+T> = None | Some(value: T) {
    function GetOr(default: T): T {
      if Some? then value else default
    }
  }

  datatype Result<+T, +E> = Ok(value: T) | Err(error: E)

  function Min(a: nat, b: nat): nat {
    if a <= b then a else b
  }

  function Max(a: nat, b: nat): nat {
    if a <= b then b else a
  }

  /** The pieces of a stream, in order, as one sequence. */
  function Concat<T>(pieces: seq<seq<T>>): seq<T> {
    if pieces == [] then [] else Concat(pieces[..|pieces| - 1]) + pieces[|pieces| - 1]
  }

  lemma ConcatSnoc<T>(pieces: seq<seq<T>>, piece: seq<T>)
    ensures Concat(pieces + [piece]) == Concat(pieces) + piece
  {
    assert (pieces + [piece])[..|pieces|] == pieces;
  }

  lemma ConcatTake<T>(pieces: seq<seq<T>>, i: nat)
    requires i < |pieces|
    ensures Concat(pieces[..i + 1]) == Concat(pieces[..i]) + pieces[i]
  {
    assert pieces[..i + 1] == pieces[..i] + [pieces[i]];
    ConcatSnoc(pieces[..i], pieces[i]);
  }

  lemma PlusAssociates<T>(a: seq<T>, b: seq<T>, c: seq<T>)
    ensures (a + b) + c == a + (b + c)
  {
  }

  lemma {:induction false} ConcatPlus<T>(a: seq<seq<T>>, b: seq<seq<T>>)
    ensures Concat(a + b) == Concat(a) + Concat(b)
  {
    if b == [] {
      assert a + b == a;
    } else {
      var front, last := b[..|b| - 1], b[|b| - 1];
      assert b == front + [last];
      ConcatPlus(a, front);
      PlusAssociates(a, front, [last]);
      ConcatSnoc(a + front, last);
      PlusAssociates(Concat(a), Concat(front), last);
    }
  }

  lemma ConcatCons<T>(piece: seq<T>, pieces: seq<seq<T>>)
    ensures Concat([piece] + pieces) == piece + Concat(pieces)
  {
    ConcatPlus([piece], pieces);
    assert Concat([piece]) == piece by {
      ConcatSnoc([], piece);
      assert [] + [piece] == [piece];
    }
  }

  lemma SliceOfPrefix<T>(s: seq<T>, t: seq<T>, lo: nat, hi: nat)
    requires s <= t && lo <= hi <= |s|
    ensures s[lo..hi] == t[lo..hi]
  {
  }

  lemma SliceOfSlice<T>(s: seq<T>, base: nat, n: nat, lo: nat, hi: nat)
    requires base + n <= |s| && lo <= hi <= n
    ensures s[base..base + n][lo..hi] == s[base + lo..base + hi]
  {
    var a, b := s[base..base + n][lo..hi], s[base + lo..base + hi];
    forall k | 0 <= k < hi - lo
      ensures a[k] == b[k]
    {
      assert a[k] == s[base..base + n][lo + k] == s[base + (lo + k)];
    }
  }

  /** `s[start..end)` with both ends cut back to the length of `s`. */
  function Clip<T>(s: seq<T>, start: nat, end: nat): seq<T>
    requires start <= end
  {
    s[Min(start, |s|)..Min(end, |s|)]
  }
}
