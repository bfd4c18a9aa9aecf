/**
 Chunk planning for one n-gram order: the row space `[0, count)` is walked by
 `(0..count).step_by(c)`, each start `offset` selects the rows
 `skip(offset).take(c)`, and each chunk is named with its index `offset / c`
 and the label `count / c + 1`.
 */
module Chunking {

  import opened Seqs

  /** `(lo..hi).step_by(step)`: lo, lo + step, lo + 2*step, ... while below hi. */
  function StepBy(lo: nat, hi: nat, step: nat): seq<nat>
    requires step > 0
    decreases hi - lo
  {
    if lo >= hi then [] else [lo] + StepBy(lo + step, hi, step)
  }

  lemma StepByUnfold(lo: nat, hi: nat, step: nat)
    requires step > 0
    requires lo < hi
    ensures |StepBy(lo, hi, step)| > 0
    ensures StepBy(lo, hi, step)[0] == lo
    ensures StepBy(lo, hi, step)[1..] == StepBy(lo + step, hi, step)
  {
  }

  /** The true number of chunks: the ceiling of x / c. */
  function CeilDiv(x: nat, c: nat): nat
    requires c > 0
  {
    x / c + (if x % c == 0 then 0 else 1)
  }

  /** The chunk starts of an order with `count` rows. */
  function ChunkStarts(count: nat, c: nat): seq<nat>
    requires c > 0
  {
    StepBy(0, count, c)
  }

  /** The chunk-count label written into every output name: `count / c + 1`. */
  function Label(count: nat, c: nat): nat
    requires c > 0
  {
    count / c + 1
  }

  /** `iter.skip(n)` on a finite sequence. */
  function Skip<T>(s: seq<T>, n: nat): seq<T> {
    if n >= |s| then [] else s[n..]
  }

  /** `iter.take(n)` on a finite sequence. */
  function Take<T>(s: seq<T>, n: nat): seq<T> {
    if n >= |s| then s else s[..n]
  }

  /** The rows of the chunk that starts at `offset`: those in
      [offset, min(offset + c, |rows|)). */
  function ChunkRows<T>(rows: seq<T>, offset: nat, c: nat): seq<T> {
    if offset >= |rows| then [] else rows[offset..Min(offset + c, |rows|)]
  }

  /** `skip(offset).take(c)` selects exactly the chunk's rows, at most c of
      them, and nothing once `offset` is past the end. */
  lemma ChunkRowsIsSkipTake<T>(rows: seq<T>, offset: nat, c: nat)
    ensures Take(Skip(rows, offset), c) == ChunkRows(rows, offset, c)
    ensures |ChunkRows(rows, offset, c)| <= c
    ensures offset < |rows| ==> forall i | 0 <= i < |ChunkRows(rows, offset, c)| ::
      ChunkRows(rows, offset, c)[i] == rows[offset + i]
  {
    if offset < |rows| {
      var rest := rows[offset..];
      if c < |rest| {
        assert rest[..c] == rows[offset..offset + c];
      }
    }
  }

  /** The chunks of `rows`, one per start produced by `step_by`. */
  function Chunks<T>(rows: seq<T>, c: nat): (cs: seq<seq<T>>)
    requires c > 0
    ensures |cs| == |ChunkStarts(|rows|, c)|
  {
    var starts := ChunkStarts(|rows|, c);
    seq(|starts|, i requires 0 <= i < |starts| => ChunkRows(rows, starts[i], c))
  }

  /** Integer division is determined by any quotient/remainder decomposition. */
  lemma DivUnique(x: nat, c: nat, q: int, r: int)
    requires c > 0
    requires 0 <= r < c
    requires x == q * c + r
    ensures x / c == q
    ensures x % c == r
  {
    var q', r' := x / c, x % c;
    assert q' * c + r' == q * c + r;
    if q' > q {
      MulAtLeast(q' - q, c);
    } else if q' < q {
      MulAtLeast(q - q', c);
    }
  }

  lemma MulAtLeast(d: int, c: nat)
    requires d >= 1
    ensures d * c >= c
  {
    assert d * c == (d - 1) * c + c;
  }

  lemma MulMonotone(a: nat, b: nat, c: nat)
    requires a <= b
    ensures a * c <= b * c
  {
    assert b * c == a * c + (b - a) * c;
  }

  /** ceil(count / c) chunks of width c reach the end of the rows. */
  lemma CeilDivCovers(count: nat, c: nat)
    requires c > 0
    ensures CeilDiv(count, c) * c >= count
  {
    var q, r := count / c, count % c;
    if r != 0 {
      assert (q + 1) * c == q * c + c;
    }
  }

  /** `step_by` yields `lo + i*c` at position i, and ceil((hi - lo) / c) values. */
  lemma {:induction false} StepByShape(lo: nat, hi: nat, c: nat)
    requires c > 0
    ensures |StepBy(lo, hi, c)| == if lo >= hi then 0 else CeilDiv(hi - lo, c)
    ensures forall i | 0 <= i < |StepBy(lo, hi, c)| :: StepBy(lo, hi, c)[i] == lo + i * c
    decreases hi - lo
  {
    if lo < hi {
      var x := hi - lo;
      var rest := StepBy(lo + c, hi, c);
      StepByShape(lo + c, hi, c);
      if x <= c {
        assert rest == [];
        if x == c {
          DivUnique(x, c, 1, 0);
        } else {
          DivUnique(x, c, 0, x);
        }
      } else {
        DivUnique(x, c, (x - c) / c + 1, (x - c) % c);
      }
      var all := StepBy(lo, hi, c);
      assert all == [lo] + rest;
      forall i | 0 < i < |all|
        ensures all[i] == lo + i * c
      {
        assert all[i] == rest[i - 1];
      }
    }
  }

  /** `step_by` stays within its range. */
  lemma {:induction false} StepByBelow(lo: nat, hi: nat, c: nat)
    requires c > 0
    ensures forall i | 0 <= i < |StepBy(lo, hi, c)| :: lo <= StepBy(lo, hi, c)[i] < hi
    decreases hi - lo
  {
    if lo < hi {
      StepByBelow(lo + c, hi, c);
      StepByUnfold(lo, hi, c);
      var all, rest := StepBy(lo, hi, c), StepBy(lo + c, hi, c);
      forall i | 0 < i < |all|
        ensures lo <= all[i] < hi
      {
        assert all[i] == rest[i - 1];
      }
    }
  }

  /** The chunk starts are exactly k*c for k below ceil(count / c), and the
      chunk index `offset / c` computed from a start is its position k. */
  lemma ChunkStartsExact(count: nat, c: nat)
    requires c > 0
    ensures |ChunkStarts(count, c)| == CeilDiv(count, c)
    ensures forall k | 0 <= k < |ChunkStarts(count, c)| ::
      ChunkStarts(count, c)[k] == k * c && ChunkStarts(count, c)[k] / c == k
  {
    StepByShape(0, count, c);
    if count == 0 {
      DivUnique(0, c, 0, 0);
    }
    forall k | 0 <= k < |ChunkStarts(count, c)|
      ensures ChunkStarts(count, c)[k] / c == k
    {
      DivUnique(k * c, c, k, 0);
    }
  }

  /** Chunk k covers the rows [k*c, min((k+1)*c, count)). */
  lemma ChunkCovers<T>(rows: seq<T>, c: nat, k: nat)
    requires c > 0
    requires k < |Chunks(rows, c)|
    ensures k * c < |rows|
    ensures Chunks(rows, c)[k] == rows[k * c..Min((k + 1) * c, |rows|)]
  {
    var starts := ChunkStarts(|rows|, c);
    ChunkStartsExact(|rows|, c);
    StepByBelow(0, |rows|, c);
    var o := starts[k];
    assert o == k * c && o < |rows|;
    assert Chunks(rows, c)[k] == ChunkRows(rows, o, c);
    assert o + c == (k + 1) * c;
  }

  /** Every row index lies in exactly one chunk, the one with index i / c. */
  lemma RowInExactlyOneChunk(count: nat, c: nat, i: nat)
    requires c > 0
    requires i < count
    ensures i / c < |ChunkStarts(count, c)|
    ensures forall k | 0 <= k < |ChunkStarts(count, c)| ::
      (ChunkStarts(count, c)[k] <= i < ChunkStarts(count, c)[k] + c) <==> k == i / c
  {
    var starts := ChunkStarts(count, c);
    ChunkStartsExact(count, c);
    var m := |starts|;
    var q := i / c;
    assert q < m by {
      if q >= m {
        CeilDivCovers(count, c);
        MulMonotone(m, q, c);
        assert false;
      }
    }
    forall k | 0 <= k < m
      ensures (starts[k] <= i < starts[k] + c) <==> k == q
    {
      if starts[k] <= i < starts[k] + c {
        DivUnique(i, c, k, i - k * c);
      }
    }
  }

  /** The chunks, concatenated in order, give back exactly the rows: no row is
      skipped and none is repeated across chunk boundaries. */
  lemma ChunksPartitionRows<T>(rows: seq<T>, c: nat)
    requires c > 0
    ensures Flatten(Chunks(rows, c)) == rows
  {
    ChunksFromPartition(rows, 0, c);
    ChunksFromMatches(rows, 0, c);
    assert Chunks(rows, c) == ChunksFrom(rows, 0, c);
  }

  /** The chunks whose starts are `lo`, `lo + c`, ... below the row count. */
  function ChunksFrom<T>(rows: seq<T>, lo: nat, c: nat): seq<seq<T>>
    requires c > 0
    decreases |rows| - lo
  {
    if lo >= |rows| then [] else [ChunkRows(rows, lo, c)] + ChunksFrom(rows, lo + c, c)
  }

  /** `ChunksFrom` has one chunk per `step_by` start, in order. */
  lemma {:induction false} ChunksFromMatches<T>(rows: seq<T>, lo: nat, c: nat)
    requires c > 0
    ensures |ChunksFrom(rows, lo, c)| == |StepBy(lo, |rows|, c)|
    ensures forall i | 0 <= i < |ChunksFrom(rows, lo, c)| ::
      ChunksFrom(rows, lo, c)[i] == ChunkRows(rows, StepBy(lo, |rows|, c)[i], c)
    decreases |rows| - lo
  {
    if lo < |rows| {
      ChunksFromMatches(rows, lo + c, c);
      StepByUnfold(lo, |rows|, c);
      var cs, rest := ChunksFrom(rows, lo, c), ChunksFrom(rows, lo + c, c);
      var starts := StepBy(lo, |rows|, c);
      forall i | 0 < i < |cs|
        ensures cs[i] == ChunkRows(rows, starts[i], c)
      {
        assert cs[i] == rest[i - 1];
        assert starts[i] == StepBy(lo + c, |rows|, c)[i - 1];
      }
    }
  }

  /** The last chunk reaches the end of the rows. */
  lemma ChunksFromLast<T>(rows: seq<T>, lo: nat, c: nat)
    requires c > 0
    requires lo < |rows| <= lo + c
    ensures Flatten(ChunksFrom(rows, lo, c)) == rows[lo..]
  {
    var head := ChunkRows(rows, lo, c);
    assert ChunksFrom(rows, lo + c, c) == [];
    FlattenCons(head, []);
  }

  /** A chunk followed by the rest of the rows is the rows from its start. */
  lemma ChunksFromStep<T>(rows: seq<T>, lo: nat, c: nat)
    requires c > 0
    requires lo + c < |rows|
    requires Flatten(ChunksFrom(rows, lo + c, c)) == rows[lo + c..]
    ensures Flatten(ChunksFrom(rows, lo, c)) == rows[lo..]
  {
    var head, rest := ChunkRows(rows, lo, c), ChunksFrom(rows, lo + c, c);
    FlattenCons(head, rest);
    assert head == rows[lo..lo + c];
    assert rows[lo..lo + c] + rows[lo + c..] == rows[lo..];
  }

  lemma {:induction false} ChunksFromPartition<T>(rows: seq<T>, lo: nat, c: nat)
    requires c > 0
    requires lo <= |rows|
    ensures Flatten(ChunksFrom(rows, lo, c)) == rows[lo..]
    decreases |rows| - lo
  {
    if lo + c < |rows| {
      ChunksFromPartition(rows, lo + c, c);
      ChunksFromStep(rows, lo, c);
    } else if lo < |rows| {
      ChunksFromLast(rows, lo, c);
    }
  }

  /** The label is at least the true chunk count, and exceeds it by one exactly
      when c divides count. */
  lemma LabelVersusChunkCount(count: nat, c: nat)
    requires c > 0
    ensures Label(count, c) >= |ChunkStarts(count, c)|
    ensures Label(count, c) == |ChunkStarts(count, c)| <==> count % c != 0
    ensures Label(count, c) == |ChunkStarts(count, c)| + 1 <==> count % c == 0
  {
    ChunkStartsExact(count, c);
  }

  /** Ten rows in chunks of four: starts 0, 4, 8 and widths 4, 4, 2. */
  lemma TenRowsInChunksOfFour<T>(rows: seq<T>)
    requires |rows| == 10
    ensures ChunkStarts(10, 4) == [0, 4, 8]
    ensures |Chunks(rows, 4)| == 3
    ensures |Chunks(rows, 4)[0]| == 4 && |Chunks(rows, 4)[1]| == 4 && |Chunks(rows, 4)[2]| == 2
  {
    assert StepBy(12, 10, 4) == [];
    assert StepBy(8, 10, 4) == [8];
    assert StepBy(4, 10, 4) == [4, 8];
    assert ChunkStarts(10, 4) == [0, 4, 8];
  }
}
