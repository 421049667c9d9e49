/** Cutting a sequence into consecutive slices of a fixed size, as the CSV
    splitter and the year batches do. */
module Sequences {

  function Min(a: int, b: int): int {
    if a <= b then a else b
  }

  /** The elements of the pieces in order. */
  function Flatten<T>(parts: seq<seq<T>>): seq<T> {
    if |parts| == 0 then [] else Flatten(parts[..|parts| - 1]) + parts[|parts| - 1]
  }

  /** The number of consecutive slices of `size` elements (the last one possibly
      shorter) that hold `n` elements: `math.ceil(n / size)`, computed exactly. */
  function PartCount(n: nat, size: nat): nat
    requires size > 0
  {
    (n + size - 1) / size
  }

  /** The count is the least number of slices of `size` that hold `n`
      elements. */
  lemma PartCountIsCeiling(n: nat, size: nat)
    requires size > 0
    ensures PartCount(n, size) * size >= n
    ensures PartCount(n, size) * size < n + size
  {
    var q := PartCount(n, size);
    var r := (n + size - 1) % size;
    assert n + size - 1 == q * size + r;
  }

  /** Slice i: elements [i * size, min((i + 1) * size, n)). */
  function Parts<T>(xs: seq<T>, size: nat): (parts: seq<seq<T>>)
    requires size > 0
    ensures |parts| == PartCount(|xs|, size)
  {
    var n := PartCount(|xs|, size);
    seq(n, i requires 0 <= i < n =>
      PartStartInRange(|xs|, size, i);
      xs[i * size .. Min((i + 1) * size, |xs|)])
  }

  /** Every slice starts inside the sequence. */
  lemma PartStartInRange(n: nat, size: nat, i: nat)
    requires size > 0 && i < PartCount(n, size)
    ensures i * size < n
    ensures i * size <= Min((i + 1) * size, n) <= n
  {
    PartCountIsCeiling(n, size);
    var q := PartCount(n, size);
    assert i <= q - 1;
    assert i * size <= (q - 1) * size;
    assert (q - 1) * size == q * size - size;
  }

  /** Concatenating the first k slices gives the first min(k * size, n) elements. */
  lemma {:induction false} PartsPrefix<T>(xs: seq<T>, size: nat, k: nat)
    requires size > 0 && k <= PartCount(|xs|, size)
    ensures k * size >= |xs| ==> Flatten(Parts(xs, size)[..k]) == xs
    ensures Flatten(Parts(xs, size)[..k]) == xs[..Min(k * size, |xs|)]
  {
    var ps := Parts(xs, size);
    if k > 0 {
      PartsPrefix(xs, size, k - 1);
      assert ps[..k][..k - 1] == ps[..k - 1];
      PartStartInRange(|xs|, size, k - 1);
      assert (k - 1) * size + size == k * size;
      var lo, hi := (k - 1) * size, Min(k * size, |xs|);
      assert Flatten(ps[..k]) == xs[..lo] + xs[lo..hi];
      assert xs[..lo] + xs[lo..hi] == xs[..hi];
    }
    if k * size >= |xs| {
      assert xs[..Min(k * size, |xs|)] == xs;
    }
  }

  /** The slices partition the sequence in order; each holds between 1 and
      `size` elements. */
  lemma PartsPartition<T>(xs: seq<T>, size: nat)
    requires size > 0
    ensures Flatten(Parts(xs, size)) == xs
    ensures forall i :: 0 <= i < |Parts(xs, size)| ==> 0 < |Parts(xs, size)[i]| <= size
  {
    var ps := Parts(xs, size);
    PartCountIsCeiling(|xs|, size);
    PartsPrefix(xs, size, |ps|);
    assert ps[..|ps|] == ps;
    forall i | 0 <= i < |ps|
      ensures 0 < |ps[i]| <= size
    {
      PartStartInRange(|xs|, size, i);
      assert (i + 1) * size == i * size + size;
    }
  }

}
