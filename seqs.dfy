/** Sequence helpers shared by the partition, column and stack modules. */
module Seqs {

  /** Concatenation of a list of pieces, left to right (numpy's concatenate). */
  function Flatten<T>(ss: seq<seq<T>>): seq<T>
  {
    if ss == [] then [] else Flatten(ss[..|ss| - 1]) + ss[|ss| - 1]
  }

  /** The integers a, a+1, ..., b-1 (Python's range(a, b)). */
  function Interval(a: int, b: int): (r: seq<int>)
    ensures |r| == if a <= b then b - a else 0
    ensures forall k :: 0 <= k < |r| ==> r[k] == a + k
  {
    if a < b then seq(b - a, k => a + k) else []
  }

  /** The elements of col at the positions idx, in the order of idx (numpy's col[idx]). */
  function Gather<T>(col: seq<T>, idx: seq<int>): (r: seq<T>)
    requires forall k :: 0 <= k < |idx| ==> 0 <= idx[k] < |col|
    ensures |r| == |idx|
    ensures forall k :: 0 <= k < |idx| ==> r[k] == col[idx[k]]
  {
    seq(|idx|, k requires 0 <= k < |idx| => col[idx[k]])
  }

  function Sum(s: seq<int>): int
  {
    if s == [] then 0 else Sum(s[..|s| - 1]) + s[|s| - 1]
  }

  function Lengths<T>(ss: seq<seq<T>>): (r: seq<nat>)
    ensures |r| == |ss| && forall i :: 0 <= i < |ss| ==> r[i] == |ss[i]|
  {
    seq(|ss|, i requires 0 <= i < |ss| => |ss[i]|)
  }

  ghost predicate Monotone(b: seq<int>)
  {
    forall i, j :: 0 <= i <= j < |b| ==> b[i] <= b[j]
  }

  ghost predicate Distinct<T>(s: seq<T>)
  {
    forall p, q :: 0 <= p < q < |s| ==> s[p] != s[q]
  }

  /** A non-empty sequence is its prefix followed by its last element. */
  lemma {:induction false} SnocLast<T>(s: seq<T>)
    requires s != []
    ensures s[..|s| - 1] + [s[|s| - 1]] == s
  {
  }

  lemma {:induction false} SliceOfSlice<T>(g: seq<T>, a: int, b: int, x: int, y: int)
    requires 0 <= a <= b <= |g| && 0 <= x <= y <= b - a
    ensures g[a..b][x..y] == g[a + x..a + y]
  {
    forall k | 0 <= k < y - x ensures g[a..b][x..y][k] == g[a + x..a + y][k] {
      assert g[a..b][x..y][k] == g[a..b][x + k] == g[a + x + k];
    }
  }

  lemma {:induction false} SliceOfAppendLeft<T>(a: seq<T>, b: seq<T>, x: int, y: int)
    requires 0 <= x <= y <= |a|
    ensures (a + b)[x..y] == a[x..y]
  {
  }

  lemma {:induction false} SliceOfAppendRight<T>(a: seq<T>, b: seq<T>)
    ensures (a + b)[|a|..|a| + |b|] == b
  {
  }

  lemma {:induction false} FlattenAppend<T>(a: seq<seq<T>>, b: seq<seq<T>>)
    ensures Flatten(a + b) == Flatten(a) + Flatten(b)
    decreases |b|
  {
    if b == [] {
      assert a + b == a;
    } else {
      var b' := b[..|b| - 1];
      assert (a + b)[..|a + b| - 1] == a + b';
      FlattenAppend(a, b');
      FlattenSnoc(a + b);
      FlattenSnoc(b);
    }
  }

  lemma {:induction false} FlattenSnoc<T>(ss: seq<seq<T>>)
    requires ss != []
    ensures Flatten(ss) == Flatten(ss[..|ss| - 1]) + ss[|ss| - 1]
  {
  }

  lemma {:induction false} FlattenPush<T>(ss: seq<seq<T>>, x: seq<T>)
    ensures Flatten(ss + [x]) == Flatten(ss) + x
  {
    assert (ss + [x])[..|ss|] == ss;
  }

  lemma {:induction false} FlattenTake<T>(ss: seq<seq<T>>, r: nat)
    requires r < |ss|
    ensures Flatten(ss[..r + 1]) == Flatten(ss[..r]) + ss[r]
  {
    assert ss[..r + 1][..r] == ss[..r];
    FlattenSnoc(ss[..r + 1]);
  }

  lemma {:induction false} FlattenPair<T>(x: seq<T>, y: seq<T>)
    ensures Flatten([x, y]) == x + y
  {
    assert [x, y][..1] == [x];
    assert [x][..0] == [];
    assert Flatten([x]) == Flatten([]) + x;
  }

  lemma {:induction false} FlattenLength<T>(ss: seq<seq<T>>)
    ensures |Flatten(ss)| == Sum(Lengths(ss))
  {
    if ss != [] {
      assert Lengths(ss)[..|ss| - 1] == Lengths(ss[..|ss| - 1]);
      FlattenLength(ss[..|ss| - 1]);
    }
  }

  lemma {:induction false} InInterval(a: int, b: int, x: int)
    ensures x in Interval(a, b) <==> a <= x < b
  {
    if a <= x < b {
      assert Interval(a, b)[x - a] == x;
    }
  }

  lemma {:induction false} IntervalSplit(a: int, m: int, b: int)
    requires a <= m <= b
    ensures Interval(a, m) + Interval(m, b) == Interval(a, b)
  {
  }

  lemma {:induction false} GatherAppend<T>(col: seq<T>, x: seq<int>, y: seq<int>)
    requires forall k :: 0 <= k < |x| ==> 0 <= x[k] < |col|
    requires forall k :: 0 <= k < |y| ==> 0 <= y[k] < |col|
    ensures Gather(col, x + y) == Gather(col, x) + Gather(col, y)
  {
  }

  lemma {:induction false} GatherCons<T>(col: seq<T>, x: int, r: seq<int>)
    requires 0 <= x < |col| && forall k :: 0 <= k < |r| ==> 0 <= r[k] < |col|
    ensures Gather(col, [x] + r) == [col[x]] + Gather(col, r)
  {
  }

  lemma {:induction false} GatherInterval<T>(col: seq<T>, a: int, b: int)
    requires 0 <= a <= b <= |col|
    ensures Gather(col, Interval(a, b)) == col[a..b]
  {
  }

  /** An element of a concatenation comes from one of the pieces. */
  lemma {:induction false} InFlatten<T>(ss: seq<seq<T>>, x: T)
    requires x in Flatten(ss)
    ensures exists i :: 0 <= i < |ss| && x in ss[i]
  {
    var last := |ss| - 1;
    if x !in ss[last] {
      InFlatten(ss[..last], x);
      var i :| 0 <= i < last && x in ss[..last][i];
      assert x in ss[i];
    }
  }

  /** A sequence without repetitions has as many distinct elements as entries. */
  lemma {:induction false} DistinctCard<T>(s: seq<T>)
    requires Distinct(s)
    ensures |set x | x in s| == |s|
  {
    if s != [] {
      var s' := s[..|s| - 1];
      assert Distinct(s');
      DistinctCard(s');
      assert (set x | x in s) == (set x | x in s') + {s[|s| - 1]};
      assert s[|s| - 1] !in (set x | x in s');
    }
  }

  function IndexOf<T(==)>(s: seq<T>, x: T): (p: nat)
    requires x in s
    ensures p < |s| && s[p] == x
  {
    if s[0] == x then 0 else 1 + IndexOf(s[1..], x)
  }
}
