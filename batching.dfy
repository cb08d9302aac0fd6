/**
 * The gid batching of the extraction entrypoint: the list is cut into
 * consecutive slices of `batch_size`, one slice per start index
 * `0, size, 2 * size, ...` below the list's length.
 */
module Batching {
  import opened Common

  /** Number of gids fetched together before the entrypoint pauses. */
  const BatchSize: nat := 100

  /** `[xs[i : i + size] for i in range(start, len(xs), size)]`; a Python
      slice past the end stops at the end. */
  function BatchesFrom<T>(xs: seq<T>, size: nat, start: nat): (batches: seq<seq<T>>)
    requires 0 < size
    ensures forall k :: 0 <= k < |batches| ==> 0 < |batches[k]| <= size
    decreases |xs| - start
  {
    if start >= |xs| then []
    else [xs[start..Min(start + size, |xs|)]] + BatchesFrom(xs, size, start + size)
  }

  /** Line 68: no batch is empty or longer than `size`, and there are
      batches exactly when there are gids. */
  function Batches<T>(xs: seq<T>, size: nat): (batches: seq<seq<T>>)
    requires 0 < size
    ensures forall k :: 0 <= k < |batches| ==> 0 < |batches[k]| <= size
    ensures |batches| == 0 <==> |xs| == 0
  {
    BatchesFrom(xs, size, 0)
  }

  /** Concatenating the batches gives back the list from `start` on. */
  lemma {:induction false} BatchesFromFlatten<T>(xs: seq<T>, size: nat, start: nat)
    requires 0 < size && start <= |xs|
    ensures Flatten(BatchesFrom(xs, size, start)) == xs[start..]
    decreases |xs| - start
  {
    if start < |xs| {
      var end := Min(start + size, |xs|);
      BatchesFromFlatten(xs, size, end);
      if end < start + size {
        assert BatchesFrom(xs, size, start + size) == [];
      }
      assert xs[start..] == xs[start..end] + xs[end..];
    }
  }

  /** Nothing is lost, duplicated or reordered. */
  lemma BatchesRoundTrip<T>(xs: seq<T>, size: nat)
    requires 0 < size
    ensures Flatten(Batches(xs, size)) == xs
  {
    BatchesFromFlatten(xs, size, 0);
  }

  /** Batch `k` is the slice starting at `start + k * size`. */
  lemma {:induction false} BatchesFromAt<T>(xs: seq<T>, size: nat, start: nat, k: nat)
    requires 0 < size && k < |BatchesFrom(xs, size, start)|
    ensures start + k * size < |xs|
    ensures BatchesFrom(xs, size, start)[k] == xs[start + k * size..Min(start + k * size + size, |xs|)]
    decreases k
  {
    if k > 0 {
      BatchesFromAt(xs, size, start + size, k - 1);
      assert start + size + (k - 1) * size == start + k * size;
    }
  }

  /** With the entrypoint's batch size, the count of batches from `start` is
      the ceiling of the remaining length over 100. */
  lemma {:induction false} BatchesFromCount<T>(xs: seq<T>, start: nat)
    requires start <= |xs|
    ensures |BatchesFrom(xs, BatchSize, start)| == (|xs| - start + BatchSize - 1) / BatchSize
    decreases |xs| - start
  {
    if start < |xs| && start + BatchSize < |xs| {
      BatchesFromCount(xs, start + BatchSize);
    }
  }

  /** All batches but the last are full. */
  lemma {:induction false} BatchesFromFull<T>(xs: seq<T>, size: nat, start: nat)
    requires 0 < size
    ensures forall k :: 0 <= k < |BatchesFrom(xs, size, start)| - 1 ==> |BatchesFrom(xs, size, start)[k]| == size
    decreases |xs| - start
  {
    if start < |xs| {
      BatchesFromFull(xs, size, start + size);
      if start + size >= |xs| {
        assert |BatchesFrom(xs, size, start)| == 1;
      }
    }
  }

  /** The batches of a list: every batch is the slice at its own offset, all
      but the last hold exactly `size` elements, the last holds between 1 and
      `size`. */
  lemma BatchesShape<T>(xs: seq<T>, size: nat)
    requires 0 < size
    ensures |xs| == 0 <==> |Batches(xs, size)| == 0
    ensures forall k :: 0 <= k < |Batches(xs, size)| ==>
      k * size < |xs| && Batches(xs, size)[k] == xs[k * size..Min(k * size + size, |xs|)]
    ensures forall k :: 0 <= k < |Batches(xs, size)| - 1 ==> |Batches(xs, size)[k]| == size
    ensures 0 < |Batches(xs, size)| ==> 0 < |Batches(xs, size)[|Batches(xs, size)| - 1]| <= size
  {
    forall k | 0 <= k < |Batches(xs, size)|
      ensures k * size < |xs| && Batches(xs, size)[k] == xs[k * size..Min(k * size + size, |xs|)]
    {
      BatchesFromAt(xs, size, 0, k);
    }
    BatchesFromFull(xs, size, 0);
  }

  /** There are ceil(n / 100) batches of the gid list, none for an empty list. */
  lemma BatchCount<T>(xs: seq<T>)
    ensures |Batches(xs, BatchSize)| == (|xs| + BatchSize - 1) / BatchSize
  {
    BatchesFromCount(xs, 0);
  }
}
