/** Chunk planning and the concurrency ceiling of `downloadParts`
    (downloader.go). The planner walks `start` from 0 in steps of the chunk
    size and emits the half-open range `[start, min(start + chunkSize, length))`. */
module ChunkPlanner {

  /** The half-open byte range `[start, end)` handed to one download task. */
  datatype ChunkRange = ChunkRange(start: int, end: int)
  {
    function Size(): int { end - start }
    predicate Contains(b: int) { start <= b < end }
  }

  /** The range the loop emits when its variable holds `start`. */
  function ChunkAt(start: int, length: int, chunkSize: int): ChunkRange
  {
    ChunkRange(start, if start + chunkSize > length then length else start + chunkSize)
  }

  /** The ranges the loop emits once its variable has reached `start`: none
      when `start` is at or past the end, otherwise a first range at `start`. */
  function PlanFrom(start: int, length: int, chunkSize: int): (r: seq<ChunkRange>)
    requires chunkSize > 0
    ensures r == [] <==> start >= length
    ensures r != [] ==> r[0].start == start
    decreases length - start
  {
    if start >= length then []
    else [ChunkAt(start, length, chunkSize)] + PlanFrom(start + chunkSize, length, chunkSize)
  }

  /** The ranges planned for a file of `length` bytes: none when there is
      nothing to download, otherwise a first range at 0. */
  function Plan(length: int, chunkSize: int): (r: seq<ChunkRange>)
    requires chunkSize > 0
    ensures r == [] <==> length <= 0
    ensures r != [] ==> r[0].start == 0
  {
    PlanFrom(0, length, chunkSize)
  }

  /** Integer ceiling of `n / d`, in place of `math.Ceil` over float64. */
  function CeilDiv(n: int, d: int): (q: int)
    requires d > 0
    ensures (q - 1) * d < n <= q * d
  {
    var k := (-n) / d;
    assert -n == k * d + (-n) % d;
    -k
  }

  /** The number of chunks of at most `chunkSize` bytes that `length` bytes need. */
  function ChunkCount(length: int, chunkSize: int): int
    requires chunkSize > 0
  {
    if length <= 0 then 0 else CeilDiv(length, chunkSize)
  }

  /** `maxProcesses` in downloadParts: the capacity of the `guard` channel. */
  function MaxProcesses(maxNumParallelDownloads: int, length: int, chunkSize: int): (n: int)
    requires chunkSize > 0
    ensures maxNumParallelDownloads != 0 ==> n == maxNumParallelDownloads
    ensures maxNumParallelDownloads == 0 ==> (n - 1) * chunkSize < length <= n * chunkSize
  {
    if maxNumParallelDownloads == 0 then CeilDiv(length, chunkSize) else maxNumParallelDownloads
  }

  lemma MulLeft(a: int, b: int, d: int)
    requires a <= b && d > 0
    ensures a * d <= b * d
  {
  }

  /** The ceiling quotient is the only integer bracketing `n` that way. */
  lemma {:induction false} CeilDivUnique(n: int, d: int, q: int)
    requires d > 0 && (q - 1) * d < n <= q * d
    ensures CeilDiv(n, d) == q
  {
    var p := CeilDiv(n, d);
    if p < q {
      MulLeft(p, q - 1, d);
    } else if p > q {
      MulLeft(q, p - 1, d);
    }
  }

  /** Range `i` emitted from `start` on exists exactly when
      `start + i * chunkSize < length`, and is the one emitted at that offset. */
  lemma {:induction false} PlanFromAt(start: int, length: int, chunkSize: int, i: int)
    requires chunkSize > 0 && 0 <= i
    ensures i < |PlanFrom(start, length, chunkSize)| <==> start + i * chunkSize < length
    ensures i < |PlanFrom(start, length, chunkSize)| ==>
      PlanFrom(start, length, chunkSize)[i] == ChunkAt(start + i * chunkSize, length, chunkSize)
    decreases i
  {
    if start < length && i > 0 {
      PlanFromAt(start + chunkSize, length, chunkSize, i - 1);
      assert start + chunkSize + (i - 1) * chunkSize == start + i * chunkSize;
    } else if start >= length {
      MulLeft(0, i, chunkSize);
    }
  }

  /** The loop emits `ceil((length - start) / chunkSize)` ranges from `start` on. */
  lemma {:induction false} PlanFromCount(start: int, length: int, chunkSize: int)
    requires chunkSize > 0
    ensures |PlanFrom(start, length, chunkSize)| == ChunkCount(length - start, chunkSize)
    decreases length - start
  {
    if start < length {
      PlanFromCount(start + chunkSize, length, chunkSize);
      var n := length - start;
      if n <= chunkSize {
        CeilDivUnique(n, chunkSize, 1);
      } else {
        var q := CeilDiv(n - chunkSize, chunkSize);
        CeilDivUnique(n, chunkSize, q + 1);
      }
    }
  }

  /** The closed form of the plan: range `i` is `ChunkAt(i * chunkSize)`, for
      every `i` with `i * chunkSize < length`. */
  lemma PlanShape(length: int, chunkSize: int)
    requires chunkSize > 0
    ensures var r := Plan(length, chunkSize);
      && |r| == ChunkCount(length, chunkSize)
      && (forall i :: 0 <= i < |r| ==> r[i] == ChunkAt(i * chunkSize, length, chunkSize))
      && (forall i :: 0 <= i ==> (i < |r| <==> i * chunkSize < length))
  {
    PlanFromCount(0, length, chunkSize);
    forall i | 0 <= i
      ensures i < |Plan(length, chunkSize)| <==> i * chunkSize < length
      ensures i < |Plan(length, chunkSize)| ==> Plan(length, chunkSize)[i] == ChunkAt(i * chunkSize, length, chunkSize)
    {
      PlanFromAt(0, length, chunkSize, i);
    }
  }

  /** The plan is empty exactly when there is nothing to download, starts at
      0, ends at `length`, and consecutive ranges meet. */
  lemma PlanContiguous(length: int, chunkSize: int)
    requires chunkSize > 0
    ensures var r := Plan(length, chunkSize);
      && (r == [] <==> length <= 0)
      && (r != [] ==> r[0].start == 0 && r[|r| - 1].end == length)
      && (forall i :: 0 <= i < |r| ==> r[i].start < r[i].end)
      && (forall i :: 0 <= i < |r| - 1 ==> r[i].end == r[i + 1].start)
  {
    PlanShape(length, chunkSize);
  }

  /** Range `i` starts at byte `i * chunkSize`. */
  lemma PlanStarts(length: int, chunkSize: int, i: int)
    requires chunkSize > 0 && 0 <= i < |Plan(length, chunkSize)|
    ensures Plan(length, chunkSize)[i].start == i * chunkSize
  {
    PlanShape(length, chunkSize);
  }

  /** Every range is `chunkSize` long except the last, which is 1 to
      `chunkSize` long. */
  lemma PlanChunkSizes(length: int, chunkSize: int)
    requires chunkSize > 0
    ensures var r := Plan(length, chunkSize);
      && (forall i :: 0 <= i < |r| - 1 ==> r[i].Size() == chunkSize)
      && (r != [] ==> 1 <= r[|r| - 1].Size() <= chunkSize)
  {
    var r := Plan(length, chunkSize);
    forall i | 0 <= i < |r| - 1 ensures r[i].Size() == chunkSize {
      PlanFromAt(0, length, chunkSize, i);
      PlanFromAt(0, length, chunkSize, i + 1);
    }
    if r != [] {
      PlanFromAt(0, length, chunkSize, |r| - 1);
      PlanFromAt(0, length, chunkSize, |r|);
    }
  }

  /** There are `ceil(length / chunkSize)` ranges, none when `length <= 0`. */
  lemma PlanCount(length: int, chunkSize: int)
    requires chunkSize > 0
    ensures |Plan(length, chunkSize)| == ChunkCount(length, chunkSize)
    ensures length <= 0 ==> |Plan(length, chunkSize)| == 0
    ensures length > 0 ==> (|Plan(length, chunkSize)| - 1) * chunkSize < length <= |Plan(length, chunkSize)| * chunkSize
  {
    PlanShape(length, chunkSize);
  }

  /** Distinct ranges never share a byte: an earlier range ends no later than
      a later one starts. */
  lemma PlanDisjoint(length: int, chunkSize: int)
    requires chunkSize > 0
    ensures var r := Plan(length, chunkSize);
      forall i, j :: 0 <= i < j < |r| ==> r[i].end <= r[j].start
  {
    var r := Plan(length, chunkSize);
    forall i, j | 0 <= i < j < |r| ensures r[i].end <= r[j].start {
      PlanPairOrdered(length, chunkSize, i, j);
    }
  }

  /** One pair of the plan: range `i` ends no later than range `j > i` starts. */
  lemma PlanPairOrdered(length: int, chunkSize: int, i: int, j: int)
    requires chunkSize > 0 && 0 <= i < j < |Plan(length, chunkSize)|
    ensures Plan(length, chunkSize)[i].end <= Plan(length, chunkSize)[j].start
  {
    PlanFromAt(0, length, chunkSize, i);
    PlanFromAt(0, length, chunkSize, j);
    MulLeft(i + 1, j, chunkSize);
    assert (i + 1) * chunkSize == i * chunkSize + chunkSize;
  }

  /** Byte `b` of the file lies in the range with index `b / chunkSize`. */
  lemma PlanLocate(length: int, chunkSize: int, b: int)
    requires chunkSize > 0 && 0 <= b < length
    ensures b / chunkSize < |Plan(length, chunkSize)|
    ensures Plan(length, chunkSize)[b / chunkSize].Contains(b)
  {
    var i := b / chunkSize;
    assert b == i * chunkSize + b % chunkSize;
    PlanFromAt(0, length, chunkSize, i);
  }

  /** Every planned range lies inside `[0, length)`. */
  lemma PlanWithin(length: int, chunkSize: int, i: int)
    requires chunkSize > 0 && 0 <= i < |Plan(length, chunkSize)|
    ensures 0 <= Plan(length, chunkSize)[i].start && Plan(length, chunkSize)[i].end <= length
  {
    PlanFromAt(0, length, chunkSize, i);
    MulLeft(0, i, chunkSize);
  }

  /** Range `i` is non-empty, lies in `[0, length)`, and the next range, if
      any, starts where it ends. */
  lemma PlanStep(length: int, chunkSize: int, i: int)
    requires chunkSize > 0 && 0 <= i < |Plan(length, chunkSize)|
    ensures var r := Plan(length, chunkSize);
      0 <= r[i].start < r[i].end <= length && (i + 1 < |r| ==> r[i + 1].start == r[i].end)
  {
    var r := Plan(length, chunkSize);
    PlanFromAt(0, length, chunkSize, i);
    MulLeft(0, i, chunkSize);
    if i + 1 < |r| {
      PlanFromAt(0, length, chunkSize, i + 1);
      assert (i + 1) * chunkSize == i * chunkSize + chunkSize;
    }
  }

  /** A byte belongs to some planned range exactly when it lies in
      `[0, length)`. */
  lemma PlanCovers(length: int, chunkSize: int, b: int)
    requires chunkSize > 0
    ensures var r := Plan(length, chunkSize);
      (exists i :: 0 <= i < |r| && r[i].Contains(b)) <==> 0 <= b < length
  {
    var r := Plan(length, chunkSize);
    forall i | 0 <= i < |r| && r[i].Contains(b) ensures 0 <= b < length {
      PlanWithin(length, chunkSize, i);
    }
    if 0 <= b < length {
      PlanLocate(length, chunkSize, b);
    }
  }

  /** With no configured limit the `guard` channel admits one task per planned range;
      for a negative length (an unknown Content-Length) it is not positive. */
  lemma {:induction false} CeilingIsChunkCount(maxNumParallelDownloads: int, length: int, chunkSize: int)
    requires chunkSize > 0
    ensures maxNumParallelDownloads == 0 && length >= 0 ==>
      MaxProcesses(maxNumParallelDownloads, length, chunkSize) == |Plan(length, chunkSize)|
    ensures maxNumParallelDownloads == 0 && length < 0 ==>
      MaxProcesses(maxNumParallelDownloads, length, chunkSize) <= 0
  {
    PlanShape(length, chunkSize);
    if maxNumParallelDownloads == 0 && length == 0 {
      CeilDivUnique(0, chunkSize, 0);
    }
    if maxNumParallelDownloads == 0 && length < 0 {
      var n := MaxProcesses(maxNumParallelDownloads, length, chunkSize);
      if n > 0 {
        MulLeft(0, n - 1, chunkSize);
      }
    }
  }

  /** The chunk loop of downloadParts: returns the ranges it hands to the
      download tasks, in the order it starts them. */
  method PlanChunks(length: int, chunkSize: int) returns (chunks: seq<ChunkRange>)
    requires chunkSize > 0
    ensures chunks == Plan(length, chunkSize)
    ensures |chunks| == ChunkCount(length, chunkSize)
    ensures forall i :: 0 <= i < |chunks| ==> 0 <= chunks[i].start < chunks[i].end <= length
  {
    chunks := [];
    var start := 0;
    while start < length
      invariant chunks + PlanFrom(start, length, chunkSize) == Plan(length, chunkSize)
      decreases length - start
    {
      var end := start + chunkSize;
      if start + chunkSize > length {
        end := length;
      }
      assert ChunkAt(start, length, chunkSize) == ChunkRange(start, end);
      ghost var rest := PlanFrom(start + chunkSize, length, chunkSize);
      assert PlanFrom(start, length, chunkSize) == [ChunkRange(start, end)] + rest;
      assert (chunks + [ChunkRange(start, end)]) + rest == chunks + ([ChunkRange(start, end)] + rest);
      chunks := chunks + [ChunkRange(start, end)];
      start := start + chunkSize;
    }
    PlanFromCount(0, length, chunkSize);
    forall i | 0 <= i < |chunks| ensures 0 <= chunks[i].start < chunks[i].end <= length {
      PlanFromAt(0, length, chunkSize, i);
      MulLeft(0, i, chunkSize);
    }
  }

  /** The plan for the 43-byte test text of downloader_test.go with a chunk size of 10. */
  lemma TestTextPlan()
    ensures Plan(43, 10) == [ChunkRange(0, 10), ChunkRange(10, 20), ChunkRange(20, 30),
                             ChunkRange(30, 40), ChunkRange(40, 43)]
  {
  }
}
