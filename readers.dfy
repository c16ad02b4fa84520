/**
 * How the readers of mpytools/io.py turn a row selection into rows of a
 * column: Python's range, the forward-read-then-stride conversion of
 * FitsFile and BigFile, HDF5File's reversed strided read and its
 * unique/inverse index read, and BaseFile.read/write choosing the row and
 * data representation a format supports.
 *
 * A column is a sequence of rows; reading rows r means Gather(col, r).
 */
module Readers {
  import opened Wrappers
  import opened Seqs
  import opened Arith
  import opened Formats

  // ---------------------------------------------------------------------
  // Python's range.

  /** len(range(a, b, s)) */
  function RangeLen(a: int, b: int, s: int): nat
  {
    if s > 0 && a < b then (b - a - 1) / s + 1
    else if s < 0 && a > b then (a - b - 1) / (-s) + 1
    else 0
  }

  /** range(a, b, s): a, then the range from a + s, while b is not reached. */
  function RangeSeq(a: int, b: int, s: int): seq<int>
    decreases if s > 0 then b - a else a - b
  {
    if (s > 0 && a < b) || (s < 0 && a > b) then [a] + RangeSeq(a + s, b, s) else []
  }

  /** The arithmetic progression a, a + s, ..., of len terms. */
  function Progression(a: int, len: nat, s: int): (r: seq<int>)
    ensures |r| == len
  {
    seq(len, k => a + k * s)
  }

  /** One step of a range shortens it by one. */
  lemma {:induction false} RangeLenStep(a: int, b: int, s: int)
    requires (s > 0 && a < b) || (s < 0 && a > b)
    ensures RangeLen(a + s, b, s) + 1 == RangeLen(a, b, s)
  {
    if s > 0 {
      DivStep(b - a - 1, s);
    } else {
      DivStep(a - b - 1, -s);
    }
  }

  lemma {:induction false} DivStep(x: int, m: int)
    requires m > 0 && x >= 0
    ensures x >= m ==> (x - m) / m + 1 == x / m
    ensures x < m ==> x / m == 0
  {
    if x >= m {
      DivUnique(x - m, m, x / m - 1, x % m);
    } else {
      DivUnique(x, m, 0, x);
    }
  }

  lemma {:induction false} ProgressionCons(a: int, len: nat, s: int)
    requires len > 0
    ensures Progression(a, len, s) == [a] + Progression(a + s, len - 1, s)
  {
    var p, p' := Progression(a, len, s), Progression(a + s, len - 1, s);
    forall k | 1 <= k < len ensures p[k] == p'[k - 1] {
      assert (a + s) + (k - 1) * s == a + k * s;
    }
  }

  /** The closed form of a range: len(range(a, b, s)) terms of the progression from a by s. */
  lemma {:induction false} RangeSeqClosedForm(a: int, b: int, s: int)
    requires s != 0
    ensures RangeSeq(a, b, s) == Progression(a, RangeLen(a, b, s), s)
    decreases if s > 0 then b - a else a - b
  {
    if (s > 0 && a < b) || (s < 0 && a > b) {
      RangeSeqClosedForm(a + s, b, s);
      RangeLenStep(a, b, s);
      ProgressionCons(a, RangeLen(a, b, s), s);
    }
  }

  /** A progression read backwards is the progression down from its last term, and only that one. */
  lemma {:induction false} ReverseProgression(a: int, len: nat, m: int, c: int)
    requires len > 0
    ensures Reverse(Progression(a, len, m)) == Progression(c, len, -m) <==> c == a + (len - 1) * m
  {
    var r, p := Reverse(Progression(a, len, m)), Progression(c, len, -m);
    assert r[0] == a + (len - 1) * m && p[0] == c;
    if c == a + (len - 1) * m {
      forall k | 0 <= k < len ensures r[k] == p[k] {
        assert r[k] == a + (len - 1 - k) * m;
        assert (len - 1 - k) * m == (len - 1) * m - k * m;
      }
    }
  }

  /** Every index list whose entries lie in [0, n). */
  predicate InBounds(idx: seq<int>, n: int)
  {
    forall k :: 0 <= k < |idx| ==> 0 <= idx[k] < n
  }

  lemma {:induction false} RangeSeqWithin(a: int, b: int, s: int)
    ensures s > 0 ==> forall k :: 0 <= k < |RangeSeq(a, b, s)| ==> a <= RangeSeq(a, b, s)[k] < b
    ensures s < 0 ==> forall k :: 0 <= k < |RangeSeq(a, b, s)| ==> b < RangeSeq(a, b, s)[k] <= a
    decreases if s > 0 then b - a else a - b
  {
    if (s > 0 && a < b) || (s < 0 && a > b) {
      RangeSeqWithin(a + s, b, s);
    }
  }

  lemma {:induction false} RangeSeqUnit(a: int, b: int)
    ensures RangeSeq(a, b, 1) == Interval(a, b)
    decreases b - a
  {
    if a < b {
      RangeSeqUnit(a + 1, b);
    }
  }

  // ---------------------------------------------------------------------
  // Row selections as _read_rows receives them.

  /**
   * A row selection: a slice object, whose stop is None only when a
   * negative step runs down to row 0, or an index array. Bounds are
   * non-negative: numpy would wrap a -1 to the last row.
   */
  datatype Rows = Range(start: int, stop: Option<int>, step: int) | Index(idx: seq<int>)

  /** What the normalised selection of a size-row file looks like. */
  predicate Normalised(rows: Rows, size: nat)
  {
    match rows
    case Range(start, stop, step) =>
      && step != 0
      && (step > 0 ==> stop.Some? && 0 <= start <= size && 0 <= stop.value <= size)
      && (step < 0 ==> 0 <= start < size && (stop.Some? ==> 0 <= stop.value < size))
    case Index(idx) => forall k :: 0 <= k < |idx| ==> 0 <= idx[k] < size
  }

  /** The stop of a range, None standing for "down to row 0" (io.py:470, 539, 690). */
  function StopOf(start: int, stop: Option<int>, step: int): int
  {
    stop.GetOr(-1)
  }

  /** The rows a selection denotes, in order. */
  function Positions(rows: Rows): seq<int>
  {
    match rows
    case Range(start, stop, step) => RangeSeq(start, StopOf(start, stop, step), step)
    case Index(idx) => idx
  }

  lemma {:induction false} PositionsInRange(rows: Rows, size: nat)
    requires Normalised(rows, size)
    ensures forall k :: 0 <= k < |Positions(rows)| ==> 0 <= Positions(rows)[k] < size
  {
    if rows.Range? {
      RangeSeqWithin(rows.start, StopOf(rows.start, rows.stop, rows.step), rows.step);
    }
  }

  /** The rows a selection reads from col (numpy's col[rows]). */
  function Selection<T>(col: seq<T>, rows: Rows): seq<T>
    requires Normalised(rows, |col|)
  {
    PositionsInRange(rows, |col|);
    Gather(col, Positions(rows))
  }

  /**
   * How numpy resolves one bound of a slice over n rows: a negative bound
   * counts from the end, then the bound is clamped to [0, n] for a positive
   * step and to [-1, n - 1] for a negative one; None is the far end in the
   * step's direction.
   */
  function NumpyBound(b: Option<int>, step: int, n: nat, isStart: bool): (r: int)
    ensures step > 0 ==> 0 <= r <= n
    ensures step < 0 ==> -1 <= r <= n - 1
  {
    var lo := if step < 0 then -1 else 0;
    var hi := if step < 0 then n - 1 else n;
    match b
    case None => if isStart == (step > 0) then lo else hi
    case Some(v) =>
      var w := if v < 0 then v + n else v;
      if w < lo then lo else if w > hi then hi else w
  }

  /** The rows numpy's col[start:stop:step] reads from n rows, in order; all of them exist. */
  function NumpyRows(start: int, stop: Option<int>, step: int, n: nat): (r: seq<int>)
    requires step != 0
    ensures InBounds(r, n)
  {
    var a := NumpyBound(Some(start), step, n, true);
    var b := NumpyBound(stop, step, n, false);
    RangeSeqWithin(a, b, step);
    RangeSeq(a, b, step)
  }

  /** numpy's col[rows]: a slice resolved as numpy resolves it, or fancy indexing. */
  function NumpyTake<T>(col: seq<T>, rows: Rows): seq<T>
    requires Normalised(rows, |col|)
  {
    match rows
    case Range(start, stop, step) => Gather(col, NumpyRows(start, stop, step, |col|))
    case Index(idx) => Gather(col, idx)
  }

  /** On a normalised selection numpy leaves every bound as it is, so it reads exactly Positions. */
  lemma {:induction false} NumpyTakeOfNormalised<T>(col: seq<T>, rows: Rows)
    requires Normalised(rows, |col|)
    ensures NumpyTake(col, rows) == Selection(col, rows)
  {
    if rows.Range? {
      assert NumpyRows(rows.start, rows.stop, rows.step, |col|) == Positions(rows);
    }
  }

  /**
   * Why a normalised bound is never negative: numpy reads a stop of -1 as
   * the last row, so range(1, -1, -1) over three rows reads nothing.
   */
  lemma {:induction false} NumpyWrapsMinusOne()
    ensures RangeSeq(1, -1, -1) == [1, 0]
    ensures NumpyRows(1, Some(-1), -1, 3) == []
  {
    assert RangeSeq(1, -1, -1) == [1] + RangeSeq(0, -1, -1);
    assert RangeSeq(0, -1, -1) == [0] + RangeSeq(-1, -1, -1);
  }

  // ---------------------------------------------------------------------
  // Slicing with steps.

  /** col[a:b] for 0 <= a, b <= len(col) */
  function PySlice<T>(col: seq<T>, a: int, b: int): seq<T>
    requires 0 <= a <= |col| && 0 <= b <= |col|
  {
    if a < b then col[a..b] else []
  }

  /** x[::s] for s > 0: the elements at 0, s, 2s, ... */
  function StrideFwd<T>(x: seq<T>, s: int): seq<T>
    requires s > 0
  {
    StrideUp(x, 0, s)
  }

  /** The elements of x at i, i + s, i + 2s, ... below |x|. */
  function StrideUp<T>(x: seq<T>, i: int, s: int): seq<T>
    requires 0 <= i && s > 0
    decreases |x| - i
  {
    if i < |x| then [x[i]] + StrideUp(x, i + s, s) else []
  }

  /** x[::s] for s < 0: the elements at |x| - 1, |x| - 1 + s, ... */
  function StrideBack<T>(x: seq<T>, s: int): seq<T>
    requires s < 0
  {
    StrideDown(x, |x| - 1, s)
  }

  /** The elements of x at i, i + s, i + 2s, ... down to 0. */
  function StrideDown<T>(x: seq<T>, i: int, s: int): seq<T>
    requires i < |x| && s < 0
    decreases i
  {
    if 0 <= i then [x[i]] + StrideDown(x, i + s, s) else []
  }

  function Reverse<T>(x: seq<T>): (r: seq<T>)
    ensures |r| == |x| && forall k :: 0 <= k < |x| ==> r[k] == x[|x| - 1 - k]
  {
    seq(|x|, k requires 0 <= k < |x| => x[|x| - 1 - k])
  }

  /** col[a:b][::s] reads the rows of range(a, b, s). */
  lemma {:induction false} StrideFwdRange<T>(col: seq<T>, a: int, b: int, s: int)
    requires 0 <= a <= |col| && 0 <= b <= |col| && s > 0
    ensures InBounds(RangeSeq(a, b, s), |col|)
    ensures StrideFwd(PySlice(col, a, b), s) == Gather(col, RangeSeq(a, b, s))
  {
    if a < b {
      StrideUpRange(col, a, b, 0, s);
    }
  }

  /** Striding col[a:b] from offset i reads the rows of range(a + i, b, s). */
  lemma {:induction false} StrideUpRange<T>(col: seq<T>, a: int, b: int, i: int, s: int)
    requires 0 <= a <= b <= |col| && 0 <= i && s > 0
    ensures InBounds(RangeSeq(a + i, b, s), |col|)
    ensures StrideUp(col[a..b], i, s) == Gather(col, RangeSeq(a + i, b, s))
    decreases b - a - i
  {
    if a + i < b {
      StrideUpRange(col, a, b, i + s, s);
      StrideUpStep(col, a, b, i, s);
    }
  }

  lemma {:induction false} StrideUpStep<T>(col: seq<T>, a: int, b: int, i: int, s: int)
    requires 0 <= a <= b <= |col| && 0 <= i && a + i < b && s > 0
    requires InBounds(RangeSeq(a + (i + s), b, s), |col|)
    requires StrideUp(col[a..b], i + s, s) == Gather(col, RangeSeq(a + (i + s), b, s))
    ensures InBounds(RangeSeq(a + i, b, s), |col|)
    ensures StrideUp(col[a..b], i, s) == Gather(col, RangeSeq(a + i, b, s))
  {
    var x, rest := col[a..b], RangeSeq(a + (i + s), b, s);
    assert RangeSeq(a + i, b, s) == [a + i] + rest;
    GatherCons(col, a + i, rest);
    assert StrideUp(x, i, s) == [x[i]] + StrideUp(x, i + s, s);
    assert x[i] == col[a + i];
  }

  /** col[lo:hi][::s] with s < 0 reads the rows of range(hi - 1, lo - 1, s). */
  lemma {:induction false} StrideBackRange<T>(col: seq<T>, lo: int, hi: int, s: int)
    requires 0 <= lo <= |col| && 0 <= hi <= |col| && s < 0
    ensures InBounds(RangeSeq(hi - 1, lo - 1, s), |col|)
    ensures StrideBack(PySlice(col, lo, hi), s) == Gather(col, RangeSeq(hi - 1, lo - 1, s))
  {
    if lo < hi {
      var x := col[lo..hi];
      var top := hi - lo - 1;
      assert PySlice(col, lo, hi) == x && |x| - 1 == top && lo + top == hi - 1;
      StrideDownRange(col, lo, hi, top, s);
      assert StrideBack(x, s) == StrideDown(x, top, s);
    }
  }

  /** Striding col[lo:hi] down from offset i reads the rows of range(lo + i, lo - 1, s). */
  lemma {:induction false} StrideDownRange<T>(col: seq<T>, lo: int, hi: int, i: int, s: int)
    requires 0 <= lo <= hi <= |col| && i < hi - lo && s < 0
    ensures InBounds(RangeSeq(lo + i, lo - 1, s), |col|)
    ensures StrideDown(col[lo..hi], i, s) == Gather(col, RangeSeq(lo + i, lo - 1, s))
    decreases i
  {
    if 0 <= i {
      StrideDownRange(col, lo, hi, i + s, s);
      StrideDownStep(col, lo, hi, i, s);
    }
  }

  lemma {:induction false} StrideDownStep<T>(col: seq<T>, lo: int, hi: int, i: int, s: int)
    requires 0 <= lo <= hi <= |col| && 0 <= i < hi - lo && s < 0
    requires InBounds(RangeSeq(lo + (i + s), lo - 1, s), |col|)
    requires StrideDown(col[lo..hi], i + s, s) == Gather(col, RangeSeq(lo + (i + s), lo - 1, s))
    ensures InBounds(RangeSeq(lo + i, lo - 1, s), |col|)
    ensures StrideDown(col[lo..hi], i, s) == Gather(col, RangeSeq(lo + i, lo - 1, s))
  {
    var x, rest := col[lo..hi], RangeSeq(lo + (i + s), lo - 1, s);
    assert RangeSeq(lo + i, lo - 1, s) == [lo + i] + rest;
    GatherCons(col, lo + i, rest);
    assert StrideDown(x, i, s) == [x[i]] + StrideDown(x, i + s, s);
    assert x[i] == col[lo + i];
  }

  // ---------------------------------------------------------------------
  // FitsFile._read_rows and BigFile._read_rows (io.py:467-473, 687-693).

  /** Read the rows between the range's ends in file order, then take every step-th from the far end. */
  function ForwardThenStride<T>(col: seq<T>, start: int, stop: Option<int>, step: int): seq<T>
    requires Normalised(Range(start, stop, step), |col|)
  {
    if step < 0 then
      var st := StopOf(start, stop, step);
      StrideBack(PySlice(col, st + 1, start + 1), step)
    else
      StrideFwd(PySlice(col, start, stop.value), step)
  }

  /** The conversion reads exactly range(start, stop, step), negative steps included. */
  lemma {:induction false} ForwardThenStrideReadsRange<T>(col: seq<T>, start: int, stop: Option<int>, step: int)
    requires Normalised(Range(start, stop, step), |col|)
    ensures ForwardThenStride(col, start, stop, step) == Selection(col, Range(start, stop, step))
  {
    if step < 0 {
      ForwardThenStrideBackward(col, start, stop, step);
    } else {
      StrideFwdRange(col, start, stop.value, step);
      assert Positions(Range(start, stop, step)) == RangeSeq(start, stop.value, step);
    }
  }

  lemma {:induction false} ForwardThenStrideBackward<T>(col: seq<T>, start: int, stop: Option<int>, step: int)
    requires Normalised(Range(start, stop, step), |col|) && step < 0
    ensures StrideBack(PySlice(col, StopOf(start, stop, step) + 1, start + 1), step)
            == Selection(col, Range(start, stop, step))
  {
    var st := StopOf(start, stop, step);
    StrideBackRange(col, st + 1, start + 1, step);
    assert start + 1 - 1 == start && st + 1 - 1 == st;
    assert Positions(Range(start, stop, step)) == RangeSeq(start, st, step);
  }

  // ---------------------------------------------------------------------
  // HDF5File._read_rows (io.py:533-543).

  /**
   * As written: a negative step reads range(stop + 1, start + 1, |step|)
   * forwards and reverses it. This starts from the lowest row of the
   * intended range only when |step| divides start - stop - 1.
   */
  function Hdf5RangeRead<T>(col: seq<T>, start: int, stop: Option<int>, step: int): seq<T>
    requires Normalised(Range(start, stop, step), |col|)
  {
    if step < 0 then
      var st := StopOf(start, stop, step);
      Reverse(StrideFwd(PySlice(col, st + 1, start + 1), -step))
    else
      StrideFwd(PySlice(col, start, stop.value), step)
  }

  /** The rows Hdf5RangeRead reads, in order. */
  function Hdf5RangePositions(start: int, stop: Option<int>, step: int): seq<int>
  {
    if step < 0 then Reverse(RangeSeq(StopOf(start, stop, step) + 1, start + 1, -step))
    else RangeSeq(start, StopOf(start, stop, step), step)
  }

  lemma {:induction false} Hdf5RangeReadPositions<T>(col: seq<T>, start: int, stop: Option<int>, step: int)
    requires Normalised(Range(start, stop, step), |col|)
    ensures InBounds(Hdf5RangePositions(start, stop, step), |col|)
    ensures Hdf5RangeRead(col, start, stop, step) == Gather(col, Hdf5RangePositions(start, stop, step))
  {
    if step < 0 {
      Hdf5BackwardReadPositions(col, start, stop, step);
    } else {
      StrideFwdRange(col, start, stop.value, step);
      assert Hdf5RangePositions(start, stop, step) == RangeSeq(start, stop.value, step);
    }
  }

  lemma {:induction false} Hdf5BackwardReadPositions<T>(col: seq<T>, start: int, stop: Option<int>, step: int)
    requires Normalised(Range(start, stop, step), |col|) && step < 0
    ensures var fwd := RangeSeq(StopOf(start, stop, step) + 1, start + 1, -step);
            && InBounds(Reverse(fwd), |col|)
            && Reverse(StrideFwd(PySlice(col, StopOf(start, stop, step) + 1, start + 1), -step)) == Gather(col, Reverse(fwd))
  {
    var st := StopOf(start, stop, step);
    var fwd := RangeSeq(st + 1, start + 1, -step);
    StrideFwdRange(col, st + 1, start + 1, -step);
    GatherReverse(col, fwd);
  }

  /**
   * Reversing range(st + 1, start + 1, m) gives range(start, st, -m) exactly
   * when the range is empty or m divides start - st - 1.
   */
  lemma {:induction false} Hdf5ReversalAgreesIff(start: int, st: int, m: int)
    requires m > 0
    ensures Reverse(RangeSeq(st + 1, start + 1, m)) == RangeSeq(start, st, -m)
            <==> start <= st || (start - st - 1) % m == 0
  {
    if start > st {
      var x := start - st - 1;
      var len := x / m + 1;
      assert RangeLen(st + 1, start + 1, m) == len;
      assert RangeLen(start, st, -m) == len;
      RangeSeqClosedForm(st + 1, start + 1, m);
      RangeSeqClosedForm(start, st, -m);
      ReverseCongruence(RangeSeq(st + 1, start + 1, m), RangeSeq(start, st, -m),
                        Progression(st + 1, len, m), Progression(start, len, -m));
      ReverseProgression(st + 1, len, m, start);
      DivisibleIff(x, m);
    }
  }

  lemma {:induction false} ReverseCongruence(f: seq<int>, g: seq<int>, f': seq<int>, g': seq<int>)
    requires f == f' && g == g'
    ensures Reverse(f) == g <==> Reverse(f') == g'
  {
  }

  lemma {:induction false} DivisibleIff(x: int, m: int)
    requires m > 0
    ensures x % m == 0 <==> x == (x / m) * m
  {
    assert x == m * (x / m) + x % m;
  }

  /** A step of -1 is always read correctly. */
  lemma {:induction false} Hdf5UnitStepAgrees<T>(col: seq<T>, start: int, stop: Option<int>)
    requires Normalised(Range(start, stop, -1), |col|)
    ensures Hdf5RangeRead(col, start, stop, -1) == Selection(col, Range(start, stop, -1))
  {
    assert Hdf5Aligned(start, stop, -1);
    Hdf5RangeReadAligned(col, start, stop, -1);
  }

  /** A strided HDF5 read agrees with range(start, stop, step) iff the stride is aligned. */
  predicate Hdf5Aligned(start: int, stop: Option<int>, step: int)
  {
    var st := StopOf(start, stop, step);
    step < 0 ==> start <= st || (start - st - 1) % (-step) == 0
  }

  lemma {:induction false} Hdf5PositionsAligned(start: int, stop: Option<int>, step: int)
    requires Hdf5Aligned(start, stop, step)
    ensures Hdf5RangePositions(start, stop, step) == Positions(Range(start, stop, step))
  {
    if step < 0 {
      var st, m := StopOf(start, stop, step), -step;
      Hdf5ReversalAgreesIff(start, st, m);
      var g := RangeSeq(start, st, -m);
      assert -m == step;
      assert g == RangeSeq(start, st, step);
    }
  }

  lemma {:induction false} Hdf5RangeReadAligned<T>(col: seq<T>, start: int, stop: Option<int>, step: int)
    requires Normalised(Range(start, stop, step), |col|) && Hdf5Aligned(start, stop, step)
    ensures Hdf5RangeRead(col, start, stop, step) == Selection(col, Range(start, stop, step))
  {
    Hdf5RangeReadPositions(col, start, stop, step);
    Hdf5PositionsAligned(start, stop, step);
  }

  /** rows[1::-2] of a two-row column is [row 1]; the HDF5 reader returns [row 0]. */
  lemma {:induction false} Hdf5StridedMisread()
    ensures Hdf5RangeRead([10, 11], 1, None, -2) == [10]
    ensures Selection([10, 11], Range(1, None, -2)) == [11]
  {
    var col := [10, 11];
    assert PySlice(col, 0, 2) == col;
    StrideTwoOfTwo();
    assert Reverse([10]) == [10];
    assert Positions(Range(1, None, -2)) == [1] by {
      assert RangeSeq(-1, -1, -2) == [];
    }
  }

  lemma {:induction false} StrideTwoOfTwo()
    ensures StrideFwd([10, 11], 2) == [10]
  {
    assert StrideUp([10, 11], 2, 2) == [];
  }

  /**
   * Corrected: the forward read starts at the lowest row of the intended
   * range, start - |step| * ((start - stop - 1) // |step|).
   */
  function Hdf5RangeReadCorrected<T>(col: seq<T>, start: int, stop: Option<int>, step: int): (r: seq<T>)
    requires Normalised(Range(start, stop, step), |col|)
    ensures r == Selection(col, Range(start, stop, step))
  {
    if step < 0 then
      var lo := LowestRow(start, StopOf(start, stop, step), -step);
      Hdf5BackwardReadCorrected(col, start, stop, step);
      Reverse(StrideFwd(PySlice(col, lo, start + 1), -step))
    else
      StrideFwdRange(col, start, stop.value, step);
      StrideFwd(PySlice(col, start, stop.value), step)
  }

  /** The lowest element of range(start, st, -m), or st + 1 when that range is empty. */
  function LowestRow(start: int, st: int, m: int): (lo: int)
    requires m > 0
    ensures st + 1 <= lo && (start > st ==> lo <= start) && (start <= st ==> lo == st + 1)
  {
    if start > st then
      var x := start - st - 1;
      assert x == m * (x / m) + x % m;
      MulNonneg(m, x / m);
      start - m * (x / m)
    else st + 1
  }

  lemma {:induction false} Hdf5BackwardReadCorrected<T>(col: seq<T>, start: int, stop: Option<int>, step: int)
    requires Normalised(Range(start, stop, step), |col|) && step < 0
    ensures var lo := LowestRow(start, StopOf(start, stop, step), -step);
            && 0 <= lo <= |col| && 0 <= start + 1 <= |col|
            && Reverse(StrideFwd(PySlice(col, lo, start + 1), -step)) == Selection(col, Range(start, stop, step))
  {
    var st, m := StopOf(start, stop, step), -step;
    var lo := LowestRow(start, st, m);
    LowestOfRange(start, st, m);
    StrideFwdRange(col, lo, start + 1, m);
    GatherReverse(col, RangeSeq(lo, start + 1, m));
    assert -m == step;
    assert Positions(Range(start, stop, step)) == RangeSeq(start, st, -m);
    assert Reverse(StrideFwd(PySlice(col, lo, start + 1), m)) == Gather(col, RangeSeq(start, st, -m));
  }

  lemma {:induction false} GatherReverse<T>(col: seq<T>, idx: seq<int>)
    requires InBounds(idx, |col|)
    ensures InBounds(Reverse(idx), |col|)
    ensures Reverse(Gather(col, idx)) == Gather(col, Reverse(idx))
  {
  }

  /** range(start, st, -m) is range(lo, start + 1, m) reversed, for lo its lowest element. */
  lemma {:induction false} LowestOfRange(start: int, st: int, m: int)
    requires m > 0
    ensures Reverse(RangeSeq(LowestRow(start, st, m), start + 1, m)) == RangeSeq(start, st, -m)
  {
    var lo := LowestRow(start, st, m);
    if start > st {
      var q := (start - st - 1) / m;
      assert lo == start - m * q;
      LowestRowLen(start, st, m, q);
      Hdf5ReversalAgreesIff(start, lo - 1, m);
      assert lo - 1 + 1 == lo;
      RangeSeqClosedForm(start, lo - 1, -m);
      RangeSeqClosedForm(start, st, -m);
    } else {
      Hdf5ReversalAgreesIff(start, st, m);
    }
  }

  /** Stopping just below the lowest element leaves the length of range(start, st, -m) unchanged. */
  lemma {:induction false} LowestRowLen(start: int, st: int, m: int, q: int)
    requires m > 0 && start > st && q == (start - st - 1) / m
    ensures RangeLen(start, start - m * q - 1, -m) == q + 1 == RangeLen(start, st, -m)
    ensures (start - (start - m * q - 1) - 1) % m == 0
  {
    var x := start - st - 1;
    assert x == m * q + x % m;
    MulNonneg(m, q);
    DivUnique(m * q, m, q, 0);
    assert start - (start - m * q - 1) - 1 == m * q;
    assert (m * q) % m == 0 by { DivUnique(m * q, m, q, 0); }
  }

  // np.unique(rows, return_inverse=True) and grp[column][rows][inverse].

  predicate Increasing(u: seq<int>)
  {
    forall i, j :: 0 <= i < j < |u| ==> u[i] < u[j]
  }

  function InsertSorted(u: seq<int>, x: int): (r: seq<int>)
    requires Increasing(u)
    ensures Increasing(r)
    ensures forall y :: y in r <==> y in u || y == x
  {
    if u == [] then [x]
    else if x < u[0] then [x] + u
    else if x == u[0] then u
    else
      var rest := InsertSorted(u[1..], x);
      assert forall y :: y in u <==> y == u[0] || y in u[1..];
      assert forall k :: 0 <= k < |rest| ==> rest[k] in rest;
      var r := [u[0]] + rest;
      r
  }

  /** np.unique: the distinct values of idx in increasing order. */
  function Unique(idx: seq<int>): (u: seq<int>)
    ensures Increasing(u)
    ensures forall y :: y in u <==> y in idx
  {
    if idx == [] then []
    else
      var u := InsertSorted(Unique(idx[..|idx| - 1]), idx[|idx| - 1]);
      assert idx == idx[..|idx| - 1] + [idx[|idx| - 1]];
      u
  }

  /** The inverse of np.unique: where each entry of idx sits in u. */
  function Inverse(u: seq<int>, idx: seq<int>): (inv: seq<int>)
    requires forall k :: 0 <= k < |idx| ==> idx[k] in u
    ensures |inv| == |idx|
    ensures forall k :: 0 <= k < |idx| ==> 0 <= inv[k] < |u| && u[inv[k]] == idx[k]
  {
    seq(|idx|, k requires 0 <= k < |idx| => IndexOf(u, idx[k]))
  }

  function Hdf5IndexRead<T>(col: seq<T>, idx: seq<int>): seq<T>
    requires forall k :: 0 <= k < |idx| ==> 0 <= idx[k] < |col|
  {
    var u := Unique(idx);
    assert forall k :: 0 <= k < |u| ==> u[k] in idx;
    Gather(Gather(col, u), Inverse(u, idx))
  }

  /** Reading the sorted distinct rows and then permuting by the inverse gives col[idx]. */
  lemma {:induction false} Hdf5IndexReadCorrect<T>(col: seq<T>, idx: seq<int>)
    requires forall k :: 0 <= k < |idx| ==> 0 <= idx[k] < |col|
    ensures Hdf5IndexRead(col, idx) == Gather(col, idx)
  {
    var u := Unique(idx);
    assert forall k :: 0 <= k < |u| ==> u[k] in idx;
    var inv := Inverse(u, idx);
    forall k | 0 <= k < |idx| ensures Gather(Gather(col, u), inv)[k] == col[idx[k]] {
      assert Gather(col, u)[inv[k]] == col[u[inv[k]]];
    }
  }

  // ---------------------------------------------------------------------
  // BaseFile.read (io.py:361-372): choosing the representation of the rows.

  /** A unit-step range over [a, b). */
  function UnitRange(a: int, b: int): Rows
  {
    Range(a, Some(b), 1)
  }

  /** The rows read by a list of selections, one after the other. */
  function PlanPositions(plan: seq<Rows>): seq<int>
  {
    if plan == [] then [] else PlanPositions(plan[..|plan| - 1]) + Positions(plan[|plan| - 1])
  }

  /**
   * Slice.to_slices for an index list: runs of consecutive rows, each a
   * unit-step range, read one after the other.
   */
  function ToSlices(idx: seq<int>): (plan: seq<Rows>)
    ensures forall j :: 0 <= j < |plan| ==> UnitRun(plan[j])
  {
    if idx == [] then [] else AddRow(ToSlices(idx[..|idx| - 1]), idx[|idx| - 1])
  }

  /** The next row x extends the last run when it continues it, and opens a new run otherwise. */
  function AddRow(plan: seq<Rows>, x: int): (plan': seq<Rows>)
    requires forall j :: 0 <= j < |plan| ==> UnitRun(plan[j])
    ensures forall j :: 0 <= j < |plan'| ==> UnitRun(plan'[j])
  {
    if plan != [] && UnitRun(plan[|plan| - 1]) && plan[|plan| - 1].stop == Some(x) then
      plan[..|plan| - 1] + [UnitRange(plan[|plan| - 1].start, x + 1)]
    else
      plan + [UnitRange(x, x + 1)]
  }

  predicate UnitRun(rows: Rows)
  {
    rows.Range? && rows.step == 1 && rows.stop.Some? && rows.start < rows.stop.value
  }

  lemma {:induction false} UnitRangePositions(a: int, b: int)
    ensures Positions(UnitRange(a, b)) == Interval(a, b)
  {
    RangeSeqUnit(a, b);
  }

  lemma {:induction false} PlanPositionsAppend(plan: seq<Rows>, p: Rows)
    ensures PlanPositions(plan + [p]) == PlanPositions(plan) + Positions(p)
  {
    assert (plan + [p])[..|plan|] == plan;
  }

  lemma {:induction false} ExtendRun(init: seq<Rows>, a: int, x: int, pre: seq<int>)
    requires a <= x
    requires PlanPositions(init + [UnitRange(a, x)]) == pre
    ensures PlanPositions(init + [UnitRange(a, x + 1)]) == pre + [x]
  {
    var done := PlanPositions(init);
    calc {
      PlanPositions(init + [UnitRange(a, x + 1)]);
      { PlanPositionsAppend(init, UnitRange(a, x + 1)); UnitRangePositions(a, x + 1); }
      done + Interval(a, x + 1);
      { IntervalSplit(a, x, x + 1); assert Interval(x, x + 1) == [x]; }
      done + (Interval(a, x) + [x]);
      (done + Interval(a, x)) + [x];
      { PlanPositionsAppend(init, UnitRange(a, x)); UnitRangePositions(a, x); }
      pre + [x];
    }
  }

  lemma {:induction false} NewRun(plan: seq<Rows>, x: int, pre: seq<int>)
    requires PlanPositions(plan) == pre
    ensures PlanPositions(plan + [UnitRange(x, x + 1)]) == pre + [x]
  {
    PlanPositionsAppend(plan, UnitRange(x, x + 1));
    UnitRangePositions(x, x + 1);
  }

  /** The runs read the index list back, in order. */
  lemma {:induction false} ToSlicesPositions(idx: seq<int>)
    ensures PlanPositions(ToSlices(idx)) == idx
  {
    if idx != [] {
      var pre, x := idx[..|idx| - 1], idx[|idx| - 1];
      ToSlicesPositions(pre);
      AddRowPositions(ToSlices(pre), x, pre);
      assert ToSlices(idx) == AddRow(ToSlices(pre), x);
      SnocLast(idx);
    }
  }

  lemma {:induction false} AddRowPositions(plan: seq<Rows>, x: int, pre: seq<int>)
    requires forall j :: 0 <= j < |plan| ==> UnitRun(plan[j])
    requires PlanPositions(plan) == pre
    ensures PlanPositions(AddRow(plan, x)) == pre + [x]
  {
    if plan != [] && UnitRun(plan[|plan| - 1]) && plan[|plan| - 1].stop == Some(x) {
      var init, last := plan[..|plan| - 1], plan[|plan| - 1];
      assert last == UnitRange(last.start, x);
      SnocLast(plan);
      ExtendRun(init, last.start, x, pre);
    } else {
      NewRun(plan, x, pre);
    }
  }

  /** The selections BaseFile.read passes to _read_rows. */
  function ReadPlan(rows: Rows, kinds: seq<RowKind>): seq<Rows>
  {
    match rows
    case Index(idx) => if IndexRows !in kinds then ToSlices(idx) else [rows]
    case Range(_, _, _) => if SliceRows !in kinds then [Index(Positions(rows))] else [rows]
  }

  function KindOf(rows: Rows): RowKind
  {
    if rows.Range? then SliceRows else IndexRows
  }

  /** Every selection handed to a reader is of a kind it declares, and together they read the same rows. */
  lemma {:induction false} ReadPlanSupported(rows: Rows, kinds: seq<RowKind>)
    requires kinds != [] && forall k :: 0 <= k < |kinds| ==> kinds[k] in [SliceRows, IndexRows]
    ensures forall j :: 0 <= j < |ReadPlan(rows, kinds)| ==> KindOf(ReadPlan(rows, kinds)[j]) in kinds
    ensures PlanPositions(ReadPlan(rows, kinds)) == Positions(rows)
  {
    var plan := ReadPlan(rows, kinds);
    assert [rows][..0] == [];
    if rows.Range? && SliceRows !in kinds {
      assert kinds[0] == IndexRows;
      assert [Index(Positions(rows))][..0] == [];
    }
    if rows.Index? && IndexRows !in kinds {
      assert kinds[0] == SliceRows;
      ToSlicesPositions(rows.idx);
    }
  }

  datatype ReadError =
    | NotImplemented         // BaseFile._read_rows
    | WrongRowKind           // rows.start on an index array
    | NothingToConcatenate   // np.concatenate of an empty list (tmp[0])

  /** format._read_rows(column, rows) */
  function ReadRows<T>(f: Format, col: seq<T>, rows: Rows): Result<seq<T>, ReadError>
    requires Normalised(rows, |col|)
  {
    match f
    case Base => Err(NotImplemented)
    case Fits => if rows.Range? then Ok(ForwardThenStride(col, rows.start, rows.stop, rows.step)) else Err(WrongRowKind)
    case BigFile => if rows.Range? then Ok(ForwardThenStride(col, rows.start, rows.stop, rows.step)) else Err(WrongRowKind)
    case Hdf5 =>
      if rows.Range? then Ok(Hdf5RangeRead(col, rows.start, rows.stop, rows.step)) else Ok(Hdf5IndexRead(col, rows.idx))
    case Binary => Ok(NumpyTake(col, rows))
    case Asdf => Ok(NumpyTake(col, rows))
  }

  /** [self._read_rows(column, rows=row) for row in plan], concatenated; the first failure propagates. */
  function ReadAll<T>(f: Format, col: seq<T>, plan: seq<Rows>): Result<seq<T>, ReadError>
    requires forall j :: 0 <= j < |plan| ==> Normalised(plan[j], |col|)
  {
    if plan == [] then Ok([])
    else
      match ReadAll(f, col, plan[..|plan| - 1])
      case Err(e) => Err(e)
      case Ok(prefix) =>
        match ReadRows(f, col, plan[|plan| - 1])
        case Err(e) => Err(e)
        case Ok(piece) => Ok(prefix + piece)
  }

  lemma {:induction false} ReadPlanNormalised(rows: Rows, kinds: seq<RowKind>, size: nat)
    requires Normalised(rows, size)
    ensures forall j :: 0 <= j < |ReadPlan(rows, kinds)| ==> Normalised(ReadPlan(rows, kinds)[j], size)
  {
    PositionsInRange(rows, size);
    if rows.Index? && IndexRows !in kinds {
      var plan := ToSlices(rows.idx);
      ToSlicesPositions(rows.idx);
      forall j | 0 <= j < |plan| ensures Normalised(plan[j], size) {
        PlanPositionsPiece(plan, j);
        var p := plan[j];
        RangeSeqUnit(p.start, p.stop.value);
        InInterval(p.start, p.stop.value, p.start);
        InInterval(p.start, p.stop.value, p.stop.value - 1);
        assert p.start in Positions(p) && p.stop.value - 1 in Positions(p);
        assert p.start in rows.idx && p.stop.value - 1 in rows.idx;
      }
    }
  }

  lemma {:induction false} PlanPositionsPiece(plan: seq<Rows>, j: nat)
    requires j < |plan|
    ensures forall e :: e in Positions(plan[j]) ==> e in PlanPositions(plan)
  {
    if j < |plan| - 1 {
      PlanPositionsPiece(plan[..|plan| - 1], j);
    }
  }

  /** BaseFile.read after the selection is normalised. */
  function FileRead<T>(f: Format, col: seq<T>, rows: Rows): Result<seq<T>, ReadError>
    requires Normalised(rows, |col|)
  {
    var plan := ReadPlan(rows, ReadKinds(f));
    ReadPlanNormalised(rows, ReadKinds(f), |col|);
    if plan == [] then Err(NothingToConcatenate) else ReadAll(f, col, plan)
  }

  lemma {:induction false} ReadAllGather<T>(f: Format, col: seq<T>, plan: seq<Rows>)
    requires forall j :: 0 <= j < |plan| ==> Normalised(plan[j], |col|)
    requires forall j :: 0 <= j < |plan| ==> ReadRows(f, col, plan[j]) == Ok(Selection(col, plan[j]))
    ensures InBounds(PlanPositions(plan), |col|)
    ensures ReadAll(f, col, plan) == Ok(Gather(col, PlanPositions(plan)))
  {
    if plan != [] {
      var n := |plan| - 1;
      ReadAllGather(f, col, plan[..n]);
      PositionsInRange(plan[n], |col|);
      GatherAppend(col, PlanPositions(plan[..n]), Positions(plan[n]));
    }
  }

  /**
   * Every built-in format reads exactly the selected rows, in order, except
   * HDF5 on a negative step it does not divide, and an empty index list
   * for the readers that split index lists into ranges.
   */
  lemma {:induction false} FileReadSelects<T>(f: Format, col: seq<T>, rows: Rows)
    requires f != Base && Normalised(rows, |col|)
    requires rows.Index? && IndexRows !in ReadKinds(f) ==> rows.idx != []
    requires f == Hdf5 && rows.Range? ==> Hdf5Aligned(rows.start, rows.stop, rows.step)
    ensures FileRead(f, col, rows) == Ok(Selection(col, rows))
  {
    var plan := ReadPlan(rows, ReadKinds(f));
    ReadPlanNormalised(rows, ReadKinds(f), |col|);
    ReadPlanSupported(rows, ReadKinds(f));
    if f == Hdf5 {
      assert plan == [rows];
    }
    forall j | 0 <= j < |plan| ensures ReadRows(f, col, plan[j]) == Ok(Selection(col, plan[j])) {
      ReadRowsSelects(f, col, plan[j]);
    }
    ReadAllGather(f, col, plan);
  }

  /** Each built-in reader reads a selection of a kind it declares correctly, HDF5 ranges when aligned. */
  lemma {:induction false} ReadRowsSelects<T>(f: Format, col: seq<T>, p: Rows)
    requires f != Base && Normalised(p, |col|) && KindOf(p) in ReadKinds(f)
    requires f == Hdf5 && p.Range? ==> Hdf5Aligned(p.start, p.stop, p.step)
    ensures ReadRows(f, col, p) == Ok(Selection(col, p))
  {
    if p.Range? {
      ForwardThenStrideReadsRange(col, p.start, p.stop, p.step);
      if f == Hdf5 {
        Hdf5RangeReadAligned(col, p.start, p.stop, p.step);
      }
    } else if f == Hdf5 {
      Hdf5IndexReadCorrect(col, p.idx);
    }
    if f == Binary || f == Asdf {
      NumpyTakeOfNormalised(col, p);
    }
  }

  lemma {:induction false} FileReadBase<T>(col: seq<T>, rows: Rows)
    requires Normalised(rows, |col|)
    ensures FileRead(Base, col, rows).Err?
  {
    var plan := ReadPlan(rows, ReadKinds(Base));
    assert plan == [rows];
    assert plan[..0] == [];
  }

  // ---------------------------------------------------------------------
  // BaseFile.write (io.py:386-394): choosing the shape of the data.

  /** The shape handed to _write_data for data that is a dict or an array. */
  function WriteShape(isDict: bool, kinds: seq<DataKind>): DataKind
  {
    if isDict then (if DictData !in kinds then ArrayData else DictData)
    else (if ArrayData !in kinds then DictData else ArrayData)
  }

  /** Every format gets a shape it declares, and data already in such a shape is not converted. */
  lemma {:induction false} WriteShapeSupported(f: Format, isDict: bool)
    ensures WriteShape(isDict, WriteKinds(f)) in WriteKinds(f)
    ensures (if isDict then DictData else ArrayData) in WriteKinds(f)
            ==> WriteShape(isDict, WriteKinds(f)) == (if isDict then DictData else ArrayData)
  {
  }
}
