/**
 * Row-partition arithmetic of FileStack (mpytools/io.py): the even split of
 * a row count into n parts, the prefix-sum offset tables of files and ranks,
 * worker slices (unit-step ranges or explicit index lists) and the overlap of
 * a slice with a file's row window.
 */
module Partition {
  import opened Seqs
  import opened Arith

  function Max(a: int, b: int): int { if a < b then b else a }
  function Min(a: int, b: int): int { if a < b then a else b }

  // ---------------------------------------------------------------------
  // The even split: part i of n owns [i * total // n, (i + 1) * total // n).

  function Bound(i: nat, n: nat, total: nat): nat
    requires n > 0
  {
    i * total / n
  }

  lemma {:induction false} BoundMono(i: nat, j: nat, n: nat, total: nat)
    requires n > 0 && i <= j
    ensures Bound(i, n, total) <= Bound(j, n, total)
  {
    MulSub(total, j, i);
    MulNonneg(total, j - i);
    assert j * total - i * total == total * j - total * i;
    DivMono(i * total, j * total, n);
  }

  lemma {:induction false} BoundEnds(n: nat, total: nat)
    requires n > 0
    ensures Bound(0, n, total) == 0 && Bound(n, n, total) == total
  {
    DivUnique(n * total, n, total, 0);
  }

  /** The boundaries 0 = b[0] <= b[1] <= ... <= b[n] = total of the even split. */
  function EvenBounds(n: nat, total: nat): (b: seq<int>)
    requires n > 0
    ensures |b| == n + 1 && Monotone(b) && b[0] == 0 && b[n] == total
  {
    BoundEnds(n, total);
    var b := seq(n + 1, i requires 0 <= i <= n => Bound(i, n, total));
    assert Monotone(b) by {
      forall i, j | 0 <= i <= j < |b| ensures b[i] <= b[j] {
        BoundMono(i, j, n, total);
      }
    }
    b
  }

  /** The size of part i of the even split (io.py:257 for files, io.py:126 for ranks). */
  function Share(i: nat, n: nat, total: nat): nat
    requires i < n
  {
    BoundMono(i, i + 1, n, total);
    Bound(i + 1, n, total) - Bound(i, n, total)
  }

  /** Each share is the floor or the ceiling of total / n. */
  lemma {:induction false} ShareIsFloorOrCeil(i: nat, n: nat, total: nat)
    requires i < n
    ensures Share(i, n, total) == total / n || Share(i, n, total) == (total + n - 1) / n
  {
    assert (i + 1) * total == i * total + total;
    DivAddStep(i * total, total, n);
  }

  /** Two shares of the same split differ by at most one row. */
  lemma {:induction false} SharesBalanced(i: nat, j: nat, n: nat, total: nat)
    requires i < n && j < n
    ensures Share(i, n, total) - Share(j, n, total) <= 1
  {
    ShareIsFloorOrCeil(i, n, total);
    ShareIsFloorOrCeil(j, n, total);
    CeilFloor(total, n);
  }

  /** The sizes given to the n files at write time (io.py:256-257). */
  function EvenSizes(n: nat, total: nat): (s: seq<nat>)
    ensures |s| == n
  {
    seq(n, i requires 0 <= i < n => Share(i, n, total))
  }

  // ---------------------------------------------------------------------
  // Prefix sums: np.cumsum([0] + sizes).

  function CumSums(s: seq<nat>): (c: seq<nat>)
    ensures |c| == |s| + 1 && c[0] == 0
    ensures forall i :: 0 <= i < |s| ==> c[i + 1] == c[i] + s[i]
  {
    if s == [] then [0]
    else
      var c := CumSums(s[..|s| - 1]);
      c + [c[|s| - 1] + s[|s| - 1]]
  }

  lemma {:induction false} CumSumsMonotone(s: seq<nat>)
    ensures Monotone(CumSums(s))
  {
    var c := CumSums(s);
    forall i, j | 0 <= i <= j < |c| ensures c[i] <= c[j] {
      var k := i;
      while k < j
        invariant i <= k <= j && c[i] <= c[k]
      {
        k := k + 1;
      }
    }
  }

  lemma {:induction false} CumSumsLast(s: seq<nat>)
    ensures CumSums(s)[|s|] == Sum(s)
  {
    if s != [] {
      CumSumsLast(s[..|s| - 1]);
    }
  }

  /** The prefix sums of a sequence of lengths are the boundaries of the pieces in the concatenation. */
  lemma {:induction false} CumSumsAtMost(s: seq<nat>, j: nat)
    requires j <= |s|
    ensures CumSums(s)[j] <= CumSums(s)[|s|]
  {
    CumSumsMonotone(s);
  }

  lemma {:induction false} CumSumsOfLengths<T>(ss: seq<seq<T>>)
    ensures CumSums(Lengths(ss))[|ss|] == |Flatten(ss)|
  {
    CumSumsLast(Lengths(ss));
    FlattenLength(ss);
  }

  lemma {:induction false} CumSumsPrefixAt(s: seq<nat>, k: nat, j: nat)
    requires j <= k <= |s|
    ensures CumSums(s[..k])[j] == CumSums(s)[j]
  {
    if j > 0 {
      CumSumsPrefixAt(s, k, j - 1);
      assert s[..k][j - 1] == s[j - 1];
    }
  }

  /** The prefix sums of a prefix are a prefix of the prefix sums. */
  lemma {:induction false} CumSumsPrefix(s: seq<nat>, k: nat)
    requires k <= |s|
    ensures CumSums(s[..k]) == CumSums(s)[..k + 1]
  {
    forall j | 0 <= j <= k ensures CumSums(s[..k])[j] == CumSums(s)[j] {
      CumSumsPrefixAt(s, k, j);
    }
  }

  /** Piece i of a concatenation sits at [c[i], c[i+1]) where c are the prefix sums of the lengths. */
  lemma {:induction false} FlattenPiece<T>(ss: seq<seq<T>>, i: nat)
    requires i < |ss|
    ensures CumSums(Lengths(ss))[i + 1] <= |Flatten(ss)|
    ensures Flatten(ss)[CumSums(Lengths(ss))[i]..CumSums(Lengths(ss))[i + 1]] == ss[i]
  {
    if i < |ss| - 1 {
      FlattenPiece(ss[..|ss| - 1], i);
    }
    FlattenPieceStep(ss, i);
  }

  /** Dropping the last piece leaves the earlier prefix sums unchanged. */
  lemma {:induction false} LengthsPrefixCumSums<T>(ss: seq<seq<T>>, j: nat)
    requires j < |ss|
    ensures CumSums(Lengths(ss[..|ss| - 1]))[j] == CumSums(Lengths(ss))[j]
  {
    assert Lengths(ss[..|ss| - 1]) == Lengths(ss)[..|ss| - 1];
    CumSumsPrefixAt(Lengths(ss), |ss| - 1, j);
  }

  lemma {:induction false} FlattenPieceStep<T>(ss: seq<seq<T>>, i: nat)
    requires i < |ss|
    requires var ss' := ss[..|ss| - 1];
             i < |ss'| ==> CumSums(Lengths(ss'))[i + 1] <= |Flatten(ss')|
                           && Flatten(ss')[CumSums(Lengths(ss'))[i]..CumSums(Lengths(ss'))[i + 1]] == ss[i]
    ensures CumSums(Lengths(ss))[i + 1] <= |Flatten(ss)|
    ensures Flatten(ss)[CumSums(Lengths(ss))[i]..CumSums(Lengths(ss))[i + 1]] == ss[i]
  {
    var last := |ss| - 1;
    var ss' := ss[..last];
    var c := CumSums(Lengths(ss));
    var f' := Flatten(ss');
    CumSumsOfLengths(ss');
    LengthsPrefixCumSums(ss, last);
    FlattenSnoc(ss);
    if i < last {
      LengthsPrefixCumSums(ss, i);
      LengthsPrefixCumSums(ss, i + 1);
      SliceOfAppendLeft(f', ss[last], c[i], c[i + 1]);
    } else {
      SliceOfAppendRight(f', ss[last]);
    }
  }

  lemma {:induction false} EvenSizesCumSumsAt(n: nat, total: nat, k: nat)
    requires 0 < n && k <= n
    ensures CumSums(EvenSizes(n, total))[k] == Bound(k, n, total)
  {
    if k == 0 {
      BoundEnds(n, total);
    } else {
      EvenSizesCumSumsAt(n, total, k - 1);
      assert EvenSizes(n, total)[k - 1] == Share(k - 1, n, total);
    }
  }

  /** The prefix sums of the even split sizes are the even split boundaries. */
  lemma {:induction false} EvenSizesCumSums(n: nat, total: nat)
    requires n > 0
    ensures CumSums(EvenSizes(n, total)) == EvenBounds(n, total)
  {
    forall k | 0 <= k <= n ensures CumSums(EvenSizes(n, total))[k] == EvenBounds(n, total)[k] {
      EvenSizesCumSumsAt(n, total, k);
    }
  }

  /** The file sizes chosen at write time add up to the total row count. */
  lemma {:induction false} EvenSizesSum(n: nat, total: nat)
    requires n > 0
    ensures Sum(EvenSizes(n, total)) == total
  {
    EvenSizesCumSums(n, total);
    CumSumsLast(EvenSizes(n, total));
  }

  // ---------------------------------------------------------------------
  // Tiling: consecutive windows between monotone boundaries.

  function Tiles(b: seq<int>): seq<seq<int>>
    requires |b| >= 1
  {
    seq(|b| - 1, i requires 0 <= i < |b| - 1 => Interval(b[i], b[i + 1]))
  }

  /** Windows between monotone boundaries enumerate [b[0], b[last]) once, in order. */
  lemma {:induction false} TilesConcat(b: seq<int>)
    requires |b| >= 1 && Monotone(b)
    ensures Flatten(Tiles(b)) == Interval(b[0], b[|b| - 1])
  {
    if |b| > 1 {
      var m := |b| - 1;
      var b' := b[..m];
      assert Tiles(b)[..m - 1] == Tiles(b');
      TilesConcat(b');
      IntervalSplit(b[0], b[m - 1], b[m]);
    }
  }

  /** Every position in [b[0], b[last]) lies in a window (and, b being monotone, in one only). */
  lemma {:induction false} TilesOwner(b: seq<int>, x: int) returns (i: nat)
    requires |b| >= 1 && Monotone(b) && b[0] <= x < b[|b| - 1]
    ensures i < |b| - 1 && b[i] <= x < b[i + 1]
  {
    TilesConcat(b);
    InInterval(b[0], b[|b| - 1], x);
    InFlatten(Tiles(b), x);
    var j :| 0 <= j < |Tiles(b)| && x in Tiles(b)[j];
    InInterval(b[j], b[j + 1], x);
    i := j;
  }

  /** Pieces of a sequence cut at monotone boundaries concatenate back to the cut span. */
  lemma {:induction false} CutsConcat<T>(g: seq<T>, c: seq<int>)
    requires |c| >= 1 && Monotone(c) && 0 <= c[0] && c[|c| - 1] <= |g|
    ensures Flatten(seq(|c| - 1, i requires 0 <= i < |c| - 1 => g[c[i]..c[i + 1]])) == g[c[0]..c[|c| - 1]]
  {
    if |c| > 1 {
      var m := |c| - 1;
      var c' := c[..m];
      var pieces := seq(|c| - 1, i requires 0 <= i < |c| - 1 => g[c[i]..c[i + 1]]);
      assert pieces[..m - 1] == seq(|c'| - 1, i requires 0 <= i < |c'| - 1 => g[c'[i]..c'[i + 1]]);
      CutsConcat(g, c');
      assert g[c[0]..c[m - 1]] + g[c[m - 1]..c[m]] == g[c[0]..c[m]];
    }
  }

  // ---------------------------------------------------------------------
  // Worker slices.

  /** A worker's rows: a unit-step range [start, stop) or an explicit index list. */
  datatype Slice = Span(start: int, stop: int) | Indices(idx: seq<int>)

  function Positions(s: Slice): seq<int>
  {
    match s
    case Span(a, b) => Interval(a, b)
    case Indices(idx) => idx
  }

  function SizeOf(s: Slice): nat
  {
    |Positions(s)|
  }

  /** Slice.shift: every position moved by delta. */
  function Shift(s: Slice, delta: int): (r: Slice)
    ensures |Positions(r)| == |Positions(s)|
    ensures forall k :: 0 <= k < |Positions(s)| ==> Positions(r)[k] == Positions(s)[k] + delta
  {
    match s
    case Span(a, b) => Span(a + delta, b + delta)
    case Indices(idx) => Indices(seq(|idx|, k requires 0 <= k < |idx| => idx[k] + delta))
  }

  /** The default slice of rank r among p ranks over total rows (io.py:124-127). */
  function DefaultSlice(r: nat, p: nat, total: nat): Slice
    requires r < p
  {
    Span(Bound(r, p, total), Bound(r + 1, p, total))
  }

  /** The default slices, taken in rank order, enumerate [0, total) exactly once and in order. */
  lemma {:induction false} DefaultSlicesTile(p: nat, total: nat)
    requires p > 0
    ensures Flatten(seq(p, r requires 0 <= r < p => Positions(DefaultSlice(r, p, total)))) == Interval(0, total)
  {
    var b := EvenBounds(p, total);
    assert seq(p, r requires 0 <= r < p => Positions(DefaultSlice(r, p, total))) == Tiles(b);
    TilesConcat(b);
  }

  /** Each row of [0, total) is owned by some rank under the default split. */
  lemma {:induction false} DefaultSliceOwnerExists(p: nat, total: nat, x: int)
    requires p > 0 && 0 <= x < total
    ensures exists r :: 0 <= r < p && x in Positions(DefaultSlice(r, p, total))
  {
    var b := EvenBounds(p, total);
    var r := TilesOwner(b, x);
    assert b[r] == Bound(r, p, total) && b[r + 1] == Bound(r + 1, p, total);
    InInterval(b[r], b[r + 1], x);
    assert x in Positions(DefaultSlice(r, p, total));
  }

  /** No row is owned by two ranks under the default split. */
  lemma {:induction false} DefaultSliceOwnerUnique(p: nat, total: nat, x: int, r: nat, r': nat)
    requires r < p && r' < p
    requires x in Positions(DefaultSlice(r, p, total)) && x in Positions(DefaultSlice(r', p, total))
    ensures r == r'
  {
    InInterval(Bound(r, p, total), Bound(r + 1, p, total), x);
    InInterval(Bound(r', p, total), Bound(r' + 1, p, total), x);
    if r < r' {
      BoundMono(r + 1, r', p, total);
    } else if r' < r {
      BoundMono(r' + 1, r, p, total);
    }
  }

  /** The default slice sizes of two ranks differ by at most one, and each is the floor or ceiling of total / p. */
  lemma {:induction false} DefaultSliceBalanced(p: nat, total: nat, r: nat, r': nat)
    requires r < p && r' < p
    ensures SizeOf(DefaultSlice(r, p, total)) == total / p || SizeOf(DefaultSlice(r, p, total)) == (total + p - 1) / p
    ensures SizeOf(DefaultSlice(r, p, total)) - SizeOf(DefaultSlice(r', p, total)) <= 1
  {
    BoundMono(r, r + 1, p, total);
    BoundMono(r', r' + 1, p, total);
    ShareIsFloorOrCeil(r, p, total);
    SharesBalanced(r, r', p, total);
  }

  // ---------------------------------------------------------------------
  // Write windows: rank r writes [cumsizes[r], cumsizes[r+1]) (io.py:557-558, 602-606, 729-730).

  function WriteWindow(sizes: seq<nat>, r: nat): Slice
    requires r < |sizes|
  {
    var c := CumSums(sizes);
    Span(c[r], c[r + 1])
  }

  /** BigFile's offset, the sum of the lengths of the lower ranks, is the start of the window. */
  lemma {:induction false} OffsetIsWindowStart(sizes: seq<nat>, r: nat)
    requires r < |sizes|
    ensures Sum(sizes[..r]) == WriteWindow(sizes, r).start
    ensures WriteWindow(sizes, r).stop == WriteWindow(sizes, r).start + sizes[r]
  {
    CumSumsLast(sizes[..r]);
    CumSumsPrefix(sizes, r);
  }

  /** The write windows of all ranks, in rank order, tile [0, sum of sizes) exactly. */
  lemma {:induction false} WriteWindowsTile(sizes: seq<nat>)
    ensures Flatten(seq(|sizes|, r requires 0 <= r < |sizes| => Positions(WriteWindow(sizes, r)))) == Interval(0, Sum(sizes))
  {
    var c := CumSums(sizes);
    CumSumsMonotone(sizes);
    CumSumsLast(sizes);
    assert seq(|sizes|, r requires 0 <= r < |sizes| => Positions(WriteWindow(sizes, r))) == Tiles(c);
    TilesConcat(c);
  }

  /** One rank's dset[start:stop] = data: the window is overwritten, the rest is untouched. */
  method WriteWindowInto<T>(dset: array<T>, start: nat, data: seq<T>)
    requires start + |data| <= dset.Length
    modifies dset
    ensures dset[..start] == old(dset[..start])
    ensures dset[start..start + |data|] == data
    ensures dset[start + |data|..] == old(dset[start + |data|..])
  {
    var k := 0;
    while k < |data|
      invariant 0 <= k <= |data|
      invariant dset[..start] == old(dset[..start])
      invariant dset[start..start + k] == data[..k]
      invariant dset[start + |data|..] == old(dset[start + |data|..])
    {
      dset[start + k] := data[k];
      k := k + 1;
    }
  }

  lemma {:induction false} PrefixGrow<T>(a: seq<T>, x: nat, y: nat, pre: seq<T>, piece: seq<T>)
    requires x <= y <= |a| && a[..x] == pre && a[x..y] == piece
    ensures a[..y] == pre + piece
  {
    assert a[..y] == a[..x] + a[x..y];
  }

  /**
   * The effect of every rank executing dset[start:stop] = data on a shared
   * dataset of cumsizes[-1] rows (io.py:565-566, 604-608, 774): afterwards
   * the dataset holds the ranks' data laid end to end in rank order.
   */
  method PlaceWindows<T>(dset: array<T>, chunks: seq<seq<T>>)
    requires dset.Length == Sum(Lengths(chunks))
    modifies dset
    ensures dset[..] == Flatten(chunks)
  {
    var c := CumSums(Lengths(chunks));
    CumSumsLast(Lengths(chunks));
    var r := 0;
    while r < |chunks|
      invariant 0 <= r <= |chunks| && c[r] <= dset.Length
      invariant dset[..c[r]] == Flatten(chunks[..r])
    {
      CumSumsAtMost(Lengths(chunks), r + 1);
      assert c[r + 1] == c[r] + |chunks[r]|;
      WriteWindowInto(dset, c[r], chunks[r]);
      PrefixGrow(dset[..], c[r], c[r + 1], Flatten(chunks[..r]), chunks[r]);
      FlattenTake(chunks, r);
      r := r + 1;
    }
    assert chunks[..|chunks|] == chunks;
  }

  // ---------------------------------------------------------------------
  // Slice.find(other, return_index=True) for a file window [lo, hi).

  /**
   * The contract FileStack relies on: rows are the slice's positions inside
   * [lo, hi), relative to lo; offsets are where they sit in the slice's own
   * enumeration, increasing, and every such position is found.
   */
  ghost predicate FindContract(lo: int, hi: int, s: Slice, rows: Slice, offsets: Slice)
  {
    var p, rs, os := Positions(s), Positions(rows), Positions(offsets);
    && |rs| == |os|
    && (forall q :: 0 <= q < |os| ==> 0 <= os[q] < |p| && p[os[q]] == lo + rs[q] && lo <= p[os[q]] < hi)
    && (forall q, q' :: 0 <= q < q' < |os| ==> os[q] < os[q'])
    && (forall k :: 0 <= k < |p| && lo <= p[k] < hi ==> k in os)
  }

  /** The indices k of idx with idx[k] in [lo, hi), in increasing order. */
  function Hits(idx: seq<int>, lo: int, hi: int): (ks: seq<nat>)
    ensures forall q :: 0 <= q < |ks| ==> ks[q] < |idx| && lo <= idx[ks[q]] < hi
    ensures forall q, q' :: 0 <= q < q' < |ks| ==> ks[q] < ks[q']
    ensures forall k :: 0 <= k < |idx| && lo <= idx[k] < hi ==> k in ks
  {
    if idx == [] then []
    else
      var ks := Hits(idx[..|idx| - 1], lo, hi);
      if lo <= idx[|idx| - 1] < hi then ks + [|idx| - 1] else ks
  }

  lemma {:induction false} FindSpanContract(lo: int, hi: int, a: int, b: int)
    ensures var first := Max(a, lo);
            var last := Max(first, Min(b, hi));
            FindContract(lo, hi, Span(a, b), Span(first - lo, last - lo), Span(first - a, last - a))
  {
    var first := Max(a, lo);
    var last := Max(first, Min(b, hi));
    var os := Interval(first - a, last - a);
    forall k | 0 <= k < |Interval(a, b)| && lo <= Interval(a, b)[k] < hi
      ensures k in os
    {
      assert os[a + k - first] == k;
    }
  }

  /** Slice(lo, hi, 1).find(s, return_index=True), for a unit-step or index slice s. */
  function Find(lo: int, hi: int, s: Slice): (r: (Slice, Slice))
    ensures s.Span? ==> r.0.Span? && r.1.Span?
  {
    match s
    case Span(a, b) =>
      var first := Max(a, lo);
      var last := Max(first, Min(b, hi));
      (Span(first - lo, last - lo), Span(first - a, last - a))
    case Indices(idx) =>
      var ks := Hits(idx, lo, hi);
      (Indices(seq(|ks|, q requires 0 <= q < |ks| => idx[ks[q]] - lo)), Indices(ks))
  }

  /** What find returns meets the contract FileStack relies on. */
  lemma {:induction false} FindSpec(lo: int, hi: int, s: Slice)
    ensures FindContract(lo, hi, s, Find(lo, hi, s).0, Find(lo, hi, s).1)
  {
    if s.Span? {
      FindSpanContract(lo, hi, s.start, s.stop);
    } else {
      FindIndicesContract(lo, hi, s.idx);
    }
  }

  lemma {:induction false} FindIndicesContract(lo: int, hi: int, idx: seq<int>)
    ensures FindContract(lo, hi, Indices(idx), Find(lo, hi, Indices(idx)).0, Find(lo, hi, Indices(idx)).1)
  {
    var ks := Hits(idx, lo, hi);
    var rows := seq(|ks|, q requires 0 <= q < |ks| => idx[ks[q]] - lo);
    assert Find(lo, hi, Indices(idx)) == (Indices(rows), Indices(ks));
    assert Positions(Indices(idx)) == idx && Positions(Indices(rows)) == rows && Positions(Indices(ks)) == ks;
  }

  // ---------------------------------------------------------------------
  // np.argsort on the keys it is given in FileStack.read.

  /**
   * np.argsort of keys forming a permutation of 0..m-1: the order that lists
   * the keys ascending, i.e. the inverse permutation.
   */
  function ArgsortPermutation(keys: seq<int>): (order: seq<nat>)
    requires forall j :: 0 <= j < |keys| ==> j in keys
    ensures |order| == |keys|
    ensures forall j :: 0 <= j < |keys| ==> order[j] < |keys| && keys[order[j]] == j
  {
    seq(|keys|, j requires 0 <= j < |keys| => IndexOf(keys, j))
  }

  ghost predicate StrictlyIncreasing(keys: seq<int>)
  {
    forall j, j' :: 0 <= j < j' < |keys| ==> keys[j] < keys[j']
  }

  /** np.argsort of strictly increasing keys: they are already in order. */
  function ArgsortIncreasing(keys: seq<int>): (order: seq<nat>)
    requires StrictlyIncreasing(keys)
  {
    seq(|keys|, j => j)
  }

  /** order lists every index of keys once, and the keys it lists ascend (what np.argsort returns). */
  ghost predicate SortsKeys(keys: seq<int>, order: seq<nat>)
  {
    && |order| == |keys|
    && (forall j :: 0 <= j < |order| ==> order[j] < |keys|)
    && (forall i :: 0 <= i < |keys| ==> i in order)
    && (forall j, j' :: 0 <= j < j' < |order| ==> keys[order[j]] < keys[order[j']])
  }

  lemma {:induction false} ArgsortPermutationSorts(keys: seq<int>)
    requires Distinct(keys)
    requires forall q :: 0 <= q < |keys| ==> 0 <= keys[q] < |keys|
    requires forall j :: 0 <= j < |keys| ==> j in keys
    ensures SortsKeys(keys, ArgsortPermutation(keys))
  {
    var order := ArgsortPermutation(keys);
    forall i | 0 <= i < |keys| ensures i in order {
      var j := keys[i];
      assert keys[order[j]] == keys[i];
    }
  }

  lemma {:induction false} ArgsortIncreasingSorts(keys: seq<int>)
    requires StrictlyIncreasing(keys)
    ensures SortsKeys(keys, ArgsortIncreasing(keys))
  {
    var order := ArgsortIncreasing(keys);
    forall i | 0 <= i < |keys| ensures i in order {
      assert order[i] == i;
    }
  }

  /** Distinct keys in [0, n) that include every j < n number exactly n. */
  lemma {:induction false} PermutationLength(keys: seq<int>, n: nat)
    requires Distinct(keys)
    requires forall q :: 0 <= q < |keys| ==> 0 <= keys[q] < n
    requires forall j :: 0 <= j < n ==> j in keys
    ensures |keys| == n
  {
    DistinctCard(keys);
    DistinctCard(Interval(0, n));
    var a := set x | x in keys;
    var b := set x | x in Interval(0, n);
    assert a == b by {
      forall x | x in a ensures x in b {
        var q :| 0 <= q < |keys| && keys[q] == x;
        assert Interval(0, n)[x] == x;
      }
      forall x | x in b ensures x in a {
        var q :| 0 <= q < n && Interval(0, n)[q] == x;
      }
    }
  }
}
