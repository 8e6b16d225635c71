/**
 * How the statements are dealt out to lanes: one chunk size computed from the
 * statement count and the thread count, then consecutive chunks of that size.
 */
module Lanes {
  import opened Wrappers

  /** The chunks, concatenated in lane order. */
  function Flatten<T>(chunks: seq<seq<T>>): seq<T>
  {
    if chunks == [] then [] else chunks[0] + Flatten(chunks[1..])
  }

  lemma {:induction false} FlattenAppend<T>(a: seq<seq<T>>, b: seq<seq<T>>)
    ensures Flatten(a + b) == Flatten(a) + Flatten(b)
  {
    if a == [] {
      assert a + b == b;
    } else {
      assert (a + b)[1..] == a[1..] + b;
      FlattenAppend(a[1..], b);
    }
  }

  /** The chunks concatenated are those but the last, then the last. */
  lemma FlattenSnoc<T>(chunks: seq<seq<T>>)
    requires chunks != []
    ensures Flatten(chunks) == Flatten(chunks[..|chunks| - 1]) + chunks[|chunks| - 1]
  {
    var init, last := chunks[..|chunks| - 1], chunks[|chunks| - 1];
    assert chunks == init + [last];
    FlattenAppend(init, [last]);
    assert Flatten([last]) == last + Flatten([last][1..]);
  }

  /**
   * Consecutive chunks of `size` elements; only the last chunk may be
   * shorter, and no chunk is empty, so an empty list has no chunk at all.
   */
  function Chunk<T>(xs: seq<T>, size: nat): (r: seq<seq<T>>)
    requires size >= 1
    ensures Flatten(r) == xs
    ensures forall i :: 0 <= i < |r| - 1 ==> |r[i]| == size
    ensures |r| > 0 ==> 1 <= |r[|r| - 1]| <= size
    ensures |r| == 0 <==> |xs| == 0
    decreases |xs|
  {
    if |xs| == 0 then []
    else if |xs| <= size then
      assert Flatten([xs]) == xs + Flatten([xs][1..]);
      [xs]
    else
      var rest := Chunk(xs[size..], size);
      assert ([xs[..size]] + rest)[1..] == rest;
      assert xs == xs[..size] + xs[size..];
      [xs[..size]] + rest
  }

  /** A list of at most `n * size` elements is dealt into at most `n` chunks. */
  lemma {:induction false} ChunkCountBound<T>(xs: seq<T>, size: nat, n: nat)
    requires size >= 1
    requires |xs| <= n * size
    ensures |Chunk(xs, size)| <= n
    decreases |xs|
  {
    if |xs| > size {
      assert (n - 1) * size == n * size - size;
      ChunkCountBound(xs[size..], size, n - 1);
    }
  }

  /**
   * `len(cqls)/NumThreads + 1` with Go's `/`, which truncates toward zero
   * (for the non-negative dividend here that is `l / n` for positive `n` and
   * `-(l / -n)` for negative `n`). For positive `n` this is the least count
   * whose `n` multiples exceed `l`: a ceiling only when `n` does not divide
   * `l`.
   */
  function ChunkSize(l: nat, n: int): (size: int)
    requires n != 0
    ensures n > 0 ==> (size - 1) * n <= l < size * n
    ensures n < 0 ==> size <= 1
  {
    if n > 0 then l / n + 1 else -(l / -n) + 1
  }

  /** Why statements could not be dealt to lanes. */
  datatype PartitionError =
    | DivisionByZero                // a thread count of 0 reaches `len(cqls)/0`
    | ChunkSizeNotPositive(size: int)  // a negative thread count gave a size below 1

  /**
   * The lanes of `cqls` for `numThreads` threads. No option check rejects a
   * thread count of 0 or below, so these are error results here.
   */
  function Partition(cqls: seq<string>, numThreads: int): (r: Result<seq<seq<string>>, PartitionError>)
    ensures numThreads == 0 <==> r == Failure(DivisionByZero)
    ensures numThreads > 0 ==> r.Success?
    ensures r.Success? ==> Flatten(r.value) == cqls
    ensures r.Success? ==> (|r.value| == 0 <==> |cqls| == 0)
  {
    if numThreads == 0 then Failure(DivisionByZero)
    else
      var size := ChunkSize(|cqls|, numThreads);
      if size < 1 then Failure(ChunkSizeNotPositive(size)) else Success(Chunk(cqls, size))
  }

  /**
   * With at least one thread the statements go to at most `numThreads`
   * lanes, every lane but the last has exactly `len/numThreads + 1`
   * statements, and the last has between 1 and that many.
   */
  lemma PartitionLanes(cqls: seq<string>, numThreads: int)
    requires numThreads >= 1
    ensures Partition(cqls, numThreads).Success?
    ensures |Partition(cqls, numThreads).value| <= numThreads
    ensures var lanes := Partition(cqls, numThreads).value;
            && (forall i :: 0 <= i < |lanes| - 1 ==> |lanes[i]| == |cqls| / numThreads + 1)
            && (|lanes| > 0 ==> 1 <= |lanes[|lanes| - 1]| <= |cqls| / numThreads + 1)
  {
    var size := ChunkSize(|cqls|, numThreads);
    assert |cqls| <= numThreads * size;
    ChunkCountBound(cqls, size, numThreads);
  }

  /**
   * Four statements on four threads: the chunk size is 2, so only two lanes
   * get work and each lane holds more than the ceiling 4/4 = 1.
   */
  lemma PartitionFourOnFour(a: string, b: string, c: string, d: string)
    ensures Partition([a, b, c, d], 4) == Success([[a, b], [c, d]])
  {
    var xs := [a, b, c, d];
    assert ChunkSize(4, 4) == 2;
    assert xs[..2] == [a, b] && xs[2..] == [c, d];
    assert Chunk([c, d], 2) == [[c, d]];
    assert Chunk(xs, 2) == [[a, b]] + Chunk([c, d], 2);
    assert Partition(xs, 4) == Success(Chunk(xs, 2));
    assert [[a, b]] + [[c, d]] == [[a, b], [c, d]];
  }

  /** Five statements on two threads: lanes of three and two. */
  lemma PartitionFiveOnTwo(a: string, b: string, c: string, d: string, e: string)
    ensures Partition([a, b, c, d, e], 2) == Success([[a, b, c], [d, e]])
  {
    var xs := [a, b, c, d, e];
    assert ChunkSize(5, 2) == 3;
    assert xs[..3] == [a, b, c] && xs[3..] == [d, e];
    assert Chunk([d, e], 3) == [[d, e]];
    assert Chunk(xs, 3) == [[a, b, c]] + Chunk([d, e], 3);
    assert Partition(xs, 2) == Success(Chunk(xs, 3));
    assert [[a, b, c]] + [[d, e]] == [[a, b, c], [d, e]];
  }

  /** No statements: no lane at all, whatever the positive thread count. */
  lemma PartitionEmpty(numThreads: int)
    requires numThreads >= 1
    ensures Partition([], numThreads) == Success([])
  {
  }
}
