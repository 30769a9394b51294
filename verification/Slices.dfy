/** Slices, buckets and filtered pages of a list. */
module Slices {
  import opened Prelude

  function Min(a: int, b: int): int {
    if a <= b then a else b
  }

  /** At most `limit` elements from `offset` on, clipped at the end as Python slices and SQL pages are. */
  function Slice<T>(xs: seq<T>, offset: nat, limit: nat): seq<T> {
    xs[Min(offset, |xs|)..Min(offset + limit, |xs|)]
  }

  /** How many steps of `size` start before n. */
  function Count(n: nat, size: nat): nat
    requires size > 0
  {
    (n + size - 1) / size
  }

  function Offset(i: nat, size: nat): nat {
    i * size
  }

  /** The slices at 0, size, 2*size, ... below the length. */
  function Buckets<T>(xs: seq<T>, size: nat): (buckets: seq<seq<T>>)
    requires size > 0
    ensures |buckets| == Count(|xs|, size)
  {
    seq(Count(|xs|, size), i requires 0 <= i => Slice(xs, Offset(i, size), size))
  }

  lemma OffsetNext(i: nat, size: nat)
    ensures Offset(i + 1, size) == Offset(i, size) + size
  {
  }

  lemma OffsetWithin(i: nat, n: nat, size: nat)
    requires size > 0
    ensures i < Count(n, size) <==> Offset(i, size) < n
  {
    var q := Count(n, size);
    assert n + size - 1 == q * size + (n + size - 1) % size;
    if i < q {
      assert i * size <= (q - 1) * size;
    } else {
      assert i * size >= q * size;
    }
  }

  /** The first i slices are a prefix. */
  lemma {:induction false} SlicesArePrefix<T>(xs: seq<T>, size: nat, slices: seq<seq<T>>)
    requires forall i :: 0 <= i < |slices| ==> slices[i] == Slice(xs, Offset(i, size), size)
    ensures Flatten(slices) == xs[..Min(Offset(|slices|, size), |xs|)]
  {
    if slices != [] {
      var k := |slices| - 1;
      SlicesArePrefix(xs, size, slices[..k]);
      assert slices == slices[..k] + [slices[k]];
      FlattenConcat(slices[..k], [slices[k]]);
      assert Flatten([slices[k]]) == slices[k] + Flatten([slices[k]][1..]);
      OffsetNext(k, size);
      assert Offset(k, size) >= 0;
    }
  }

  /** The slices at offsets 0, size, 2*size, ... up to any offset at or past the end. */
  lemma SlicesCover<T>(xs: seq<T>, size: nat, slices: seq<seq<T>>)
    requires forall i :: 0 <= i < |slices| ==> slices[i] == Slice(xs, Offset(i, size), size)
    requires |xs| <= Offset(|slices|, size)
    ensures Flatten(slices) == xs
  {
    SlicesArePrefix(xs, size, slices);
  }

  /** Buckets partition the list in order; none is empty, none is longer than the size, and all but
      the last are full. */
  lemma BucketsPartition<T>(xs: seq<T>, size: nat)
    requires size > 0
    ensures Flatten(Buckets(xs, size)) == xs
    ensures forall i :: 0 <= i < |Buckets(xs, size)| ==> 0 < |Buckets(xs, size)[i]| <= size
    ensures forall i :: 0 <= i < |Buckets(xs, size)| - 1 ==> |Buckets(xs, size)[i]| == size
  {
    var buckets := Buckets(xs, size);
    OffsetWithin(|buckets|, |xs|, size);
    SlicesCover(xs, size, buckets);
    forall i | 0 <= i < |buckets|
      ensures 0 < |buckets[i]| <= size && (i < |buckets| - 1 ==> |buckets[i]| == size)
    {
      OffsetWithin(i, |xs|, size);
      OffsetWithin(i + 1, |xs|, size);
      OffsetNext(i, size);
    }
  }
}
