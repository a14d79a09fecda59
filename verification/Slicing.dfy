/** How a stream is cut into the parts of a multipart upload (`src/transfer.rs`). */
module Slicing {
  import opened Bytes

  /** The parts of `s`: all of length `size` except possibly the last, none empty. */
  function PartsOf<T>(s: seq<T>, size: nat): (parts: seq<seq<T>>)
    requires size > 0
    decreases |s|
  {
    if s == [] then []
    else if |s| <= size then [s]
    else [s[..size]] + PartsOf(s[size..], size)
  }

  function DivCeil(n: nat, d: nat): nat
    requires d > 0
  {
    n / d + if n % d == 0 then 0 else 1
  }

  /** All pieces but the last have length `size`; the last is no longer and not empty. */
  ghost predicate Sliced<T>(pieces: seq<seq<T>>, size: nat) {
    && (forall i :: 0 <= i < |pieces| ==> 0 < |pieces[i]| <= size)
    && (forall i :: 0 <= i < |pieces| - 1 ==> |pieces[i]| == size)
  }

  // A quotient one larger adds a whole divisor.
  lemma {:induction false} MulGap(p: nat, q: nat, d: nat)
    requires p < q
    ensures p * d + d <= q * d
    decreases q
  {
    assert q * d == (q - 1) * d + d;
    if p < q - 1 {
      MulGap(p, q - 1, d);
    }
  }

  lemma SameQuotient(p: nat, r: nat, q: nat, t: nat, d: nat)
    requires p * d + r == q * d + t && r < d && t < d
    ensures p == q && r == t
  {
    if p < q {
      MulGap(p, q, d);
    } else if q < p {
      MulGap(q, p, d);
    }
  }

  lemma QuotientUnique(n: nat, d: nat, q: nat, r: nat)
    requires d > 0 && n == q * d + r && r < d
    ensures n / d == q && n % d == r
  {
    SameQuotient(n / d, n % d, q, r, d);
  }

  lemma DivCeilStep(n: nat, d: nat)
    requires 0 < d < n
    ensures DivCeil(n, d) == 1 + DivCeil(n - d, d)
  {
    var q, r := (n - d) / d, (n - d) % d;
    assert n == (q + 1) * d + r;
    QuotientUnique(n, d, q + 1, r);
  }

  lemma {:induction false} PartsOfSliced<T>(s: seq<T>, size: nat)
    requires size > 0
    ensures Sliced(PartsOf(s, size), size)
    ensures Concat(PartsOf(s, size)) == s
    decreases |s|
  {
    if 0 < |s| <= size {
      ConcatCons(s, []);
      assert [s] + [] == [s];
    } else if s != [] {
      PartsOfSliced(s[size..], size);
      ConcatCons(s[..size], PartsOf(s[size..], size));
      assert PartsOf(s[size..], size) != [];
    }
  }

  /** There is only one way to slice a stream. */
  lemma {:induction false} SlicedIsPartsOf<T>(pieces: seq<seq<T>>, size: nat)
    requires size > 0 && Sliced(pieces, size)
    ensures pieces == PartsOf(Concat(pieces), size)
    decreases |pieces|
  {
    if pieces != [] {
      var head, rest := pieces[0], pieces[1..];
      assert pieces == [head] + rest;
      ConcatCons(head, rest);
      SlicedIsPartsOf(rest, size);
      if rest == [] {
        assert Concat(pieces) == head;
      } else {
        ConcatCons(rest[0], rest[1..]);
        assert rest == [rest[0]] + rest[1..];
        assert Concat(pieces)[..size] == head && Concat(pieces)[size..] == Concat(rest);
      }
    }
  }

  lemma {:induction false} PartCount<T>(s: seq<T>, size: nat)
    requires size > 0
    ensures |PartsOf(s, size)| == DivCeil(|s|, size)
    decreases |s|
  {
    if s == [] {
      QuotientUnique(0, size, 0, 0);
    } else if |s| < size {
      QuotientUnique(|s|, size, 0, |s|);
    } else if |s| == size {
      QuotientUnique(|s|, size, 1, 0);
    } else {
      PartCount(s[size..], size);
      DivCeilStep(|s|, size);
    }
  }

  /** Exactly the streams of at most `slots * size` bytes fit into `slots` parts. */
  lemma DivCeilAtMost(n: nat, size: nat, slots: nat)
    requires size > 0
    ensures DivCeil(n, size) <= slots <==> n <= slots * size
  {
    var q := n / size;
    if q < slots {
      MulGap(q, slots, size);
    } else if slots < q {
      MulGap(slots, q, size);
    }
  }
}
