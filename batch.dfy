/** Minibatch helpers for training: right-padding of variable-length sequences into a
    matrix, and a cursor that hands out consecutive minibatches epoch after epoch. */
module Batch {

  /** Why `pad` fails: `max()` of the empty list of sizes raises ValueError. */
  datatype PadError = EmptyData

  datatype Result<T> = Ok(value: T) | Err(error: PadError)

  /** `pad`'s return value: the zero-padded matrix and each row's original length. */
  datatype Padded = Padded(matrix: array2<real>, sizes: seq<nat>)

  /** Python's `max` of a non-empty list. */
  function Max(s: seq<int>): (m: int)
    requires |s| > 0
    ensures forall i :: 0 <= i < |s| ==> s[i] <= m
    ensures exists i :: 0 <= i < |s| && s[i] == m
  {
    if |s| == 1 then s[0]
    else
      var rest := Max(s[1..]);
      if s[0] >= rest then s[0] else rest
  }

  /** `pad(data)`: a len(data) x max(sizes) matrix of zeros whose row i starts with
      data[i], together with the row lengths. */
  method Pad(data: seq<seq<real>>) returns (r: Result<Padded>)
    ensures r.Err? <==> |data| == 0
    ensures r.Ok? ==>
      var matrix, sizes := r.value.matrix, r.value.sizes;
      && |sizes| == |data|
      && (forall i :: 0 <= i < |data| ==> sizes[i] == |data[i]|)
      && matrix.Length0 == |data| && matrix.Length1 == Max(sizes)
      && (forall i, j :: 0 <= i < matrix.Length0 && 0 <= j < matrix.Length1 ==>
            matrix[i, j] == if j < sizes[i] then data[i][j] else 0.0)
  {
    if |data| == 0 {
      return Err(EmptyData);
    }
    var sizes: seq<nat> := seq(|data|, i requires 0 <= i < |data| => |data[i]|);
    var rows := |data|;
    var padded := new real[rows, Max(sizes)]((i, j) => 0.0);
    for i := 0 to |sizes|
      invariant forall k, j :: 0 <= k < rows && 0 <= j < padded.Length1 ==>
        padded[k, j] == if k < i && j < sizes[k] then data[k][j] else 0.0
    {
      var length := sizes[i];
      assert length <= padded.Length1;
      forall j | 0 <= j < length {
        padded[i, j] := data[i][j];
      }
    }
    return Ok(Padded(padded, sizes));
  }

  /** A Python slice bound: a negative index counts from the end, then it is clamped to [0, n]. */
  function SliceBound(i: int, n: nat): (b: nat)
    ensures b <= n
  {
    if i < 0 then (if i + n < 0 then 0 else i + n) else if i > n then n else i
  }

  /** Python's `s[lo:hi]` on a list or on a numpy array's first axis. */
  function PySlice<T>(s: seq<T>, lo: int, hi: int): (r: seq<T>)
    ensures 0 <= lo <= hi <= |s| ==> r == s[lo..hi]
    ensures 0 <= lo <= |s| <= hi ==> r == s[lo..]
    ensures 0 <= hi <= lo ==> r == []
    ensures |r| <= |s|
  {
    var a, b := SliceBound(lo, |s|), SliceBound(hi, |s|);
    if a < b then s[a..b] else []
  }

  /** `data_helper`: holds the data x and labels y and hands out consecutive minibatches.
      With `smallBatch` the last batch of an epoch may be short; without it the epoch ends
      early and its tail is skipped. */
  class DataHelper<A, B> {
    const x: seq<A>
    const y: seq<B>
    var batchI: int
    var epoch: int
    const length: nat := |x|
    const smallBatch: bool

    /** The cursor points at an item of x (or at 0 when x is empty). */
    ghost predicate CursorInRange()
      reads this
    {
      batchI == 0 || 0 < batchI < length
    }

    constructor (x: seq<A>, y: seq<B>, smallBatch: bool := true)
      ensures this.x == x && this.y == y && this.smallBatch == smallBatch && length == |x|
      ensures batchI == 0 && epoch == 0
      ensures CursorInRange()
    {
      this.x, this.y := x, y;
      batchI, epoch := 0, 0;
      this.smallBatch := smallBatch;
    }

    /** `reset()`: rewinds the cursor and touches nothing else. */
    method Reset()
      modifies this`batchI
      ensures batchI == 0 && epoch == old(epoch)
      ensures CursorInRange()
    {
      batchI := 0;
    }

    /** `next_batch(batch_size)`. */
    method NextBatch(batchSize: int) returns (batchX: seq<A>, batchY: seq<B>)
      modifies this`batchI, this`epoch
      ensures old(batchI) + batchSize < length ==>
        && batchX == PySlice(x, old(batchI), old(batchI) + batchSize)
        && batchY == PySlice(y, old(batchI), old(batchI) + batchSize)
        && batchI == old(batchI) + batchSize && epoch == old(epoch)
      ensures old(batchI) + batchSize >= length && smallBatch ==>
        && batchX == PySlice(x, old(batchI), |x|) && batchY == PySlice(y, old(batchI), |y|)
        && batchI == 0 && epoch == old(epoch) + 1
      ensures old(batchI) + batchSize >= length && !smallBatch ==>
        && batchX == PySlice(x, 0, batchSize) && batchY == PySlice(y, 0, batchSize)
        && batchI == 0 && epoch == old(epoch) + 1
      ensures old(CursorInRange()) && batchSize >= 0 ==>
        && CursorInRange()
        && (old(batchI) + batchSize < length ==> batchX == x[old(batchI)..old(batchI) + batchSize])
        && (old(batchI) + batchSize >= length && smallBatch ==> batchX == x[old(batchI)..])
        && (old(batchI) + batchSize >= length && !smallBatch && batchSize <= length ==> batchX == x[..batchSize])
    {
      if batchI + batchSize < length {
        var outBatch := batchI;
        batchI := batchI + batchSize;
        batchX := PySlice(x, outBatch, outBatch + batchSize);
        batchY := PySlice(y, outBatch, outBatch + batchSize);
      } else if smallBatch {
        var outBatch := batchI;
        batchI := 0;
        epoch := epoch + 1;
        batchX := PySlice(x, outBatch, |x|);
        batchY := PySlice(y, outBatch, |y|);
      } else {
        batchI := 0;
        epoch := epoch + 1;
        batchX := PySlice(x, 0, batchSize);
        batchY := PySlice(y, 0, batchSize);
      }
    }
  }

  /** In small-batch mode, the batches handed out from a rewound cursor until the epoch
      wraps are the whole of x, in order, each item exactly once. */
  method OneEpoch<A, B>(h: DataHelper<A, B>, batchSize: int) returns (items: seq<A>)
    requires h.smallBatch && batchSize > 0 && h.batchI == 0
    modifies h
    ensures items == h.x
    ensures h.epoch == old(h.epoch) + 1 && h.batchI == 0
  {
    items := [];
    var start := h.epoch;
    while h.epoch == start
      invariant h.epoch == start ==> h.CursorInRange() && items == h.x[..h.batchI]
      invariant h.epoch != start ==> h.epoch == start + 1 && h.batchI == 0 && items == h.x
      decreases if h.epoch == start then h.length - h.batchI + 1 else 0
    {
      var batchX, _ := h.NextBatch(batchSize);
      items := items + batchX;
    }
  }
}
