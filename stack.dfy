/**
 * FileStack (mpytools/io.py:70-267): several catalogue files seen as one
 * table whose rows are the files' rows laid end to end in file order, split
 * among the MPI ranks.  The model is that of one rank; the column contents
 * of the files on disk and the row counts of the other ranks (an MPI
 * allgather) are parameters.
 */
module Stack {
  import opened Wrappers
  import opened Seqs
  import opened Partition
  import opened Columns
  import Formats
  import Readers

  /** What the stack keeps of one opened file: its row count, column names and header. */
  datatype FileMeta = FileMeta(csize: nat, columns: seq<string>, header: map<string, Formats.Value>)

  /** The columns of one file on disk, by name. */
  type Contents = map<string, seq<int>>

  datatype StackError =
    | MissingColumn(file: nat)   // the file holding some of the rows has no such column
    | NothingToConcatenate       // np.concatenate of an empty list (io.py:235)

  function FileSizes(files: seq<FileMeta>): (s: seq<nat>)
    ensures |s| == |files| && forall i :: 0 <= i < |files| ==> s[i] == files[i].csize
  {
    seq(|files|, i requires 0 <= i < |files| => files[i].csize)
  }

  /** sum(sizes), as a natural number. */
  function Total(sizes: seq<nat>): nat
  {
    CumSums(sizes)[|sizes|]
  }

  function CFileSize(files: seq<FileMeta>): nat
  {
    Total(FileSizes(files))
  }

  function FileColumns(files: seq<FileMeta>): seq<seq<string>>
  {
    seq(|files|, i requires 0 <= i < |files| => files[i].columns)
  }

  function FileHeaders(files: seq<FileMeta>): seq<map<string, Formats.Value>>
  {
    seq(|files|, i requires 0 <= i < |files| => files[i].header)
  }

  /** Every slice position is a row of the stack. */
  ghost predicate InStack(s: Slice, n: int)
  {
    forall k :: 0 <= k < |Positions(s)| ==> 0 <= Positions(s)[k] < n
  }

  // ---------------------------------------------------------------------
  // The stack's column: the files' columns end to end.

  ghost predicate ContentsFit(files: seq<FileMeta>, contents: seq<Contents>)
  {
    && |contents| == |files|
    && forall i, c :: 0 <= i < |files| && c in contents[i] ==> |contents[i][c]| == files[i].csize
  }

  /** Column `column` of file i; a file without it stands in with rows that are never read. */
  function ColumnOf(files: seq<FileMeta>, contents: seq<Contents>, column: string, i: nat): (col: seq<int>)
    requires ContentsFit(files, contents) && i < |files|
    ensures |col| == files[i].csize
  {
    if column in contents[i] then contents[i][column] else seq(files[i].csize, _ => 0)
  }

  function FileColumnsOf(files: seq<FileMeta>, contents: seq<Contents>, column: string): (cols: seq<seq<int>>)
    requires ContentsFit(files, contents)
    ensures Lengths(cols) == FileSizes(files)
  {
    seq(|files|, i requires 0 <= i < |files| => ColumnOf(files, contents, column, i))
  }

  function StackColumn(files: seq<FileMeta>, contents: seq<Contents>, column: string): (g: seq<int>)
    requires ContentsFit(files, contents)
    ensures |g| == CFileSize(files)
  {
    var cols := FileColumnsOf(files, contents, column);
    CumSumsOfLengths(cols);
    Flatten(cols)
  }

  /** File i's column is the stack's column between the file boundaries i and i + 1. */
  lemma {:induction false} StackColumnCuts(files: seq<FileMeta>, contents: seq<Contents>, column: string, i: nat)
    requires ContentsFit(files, contents) && i < |files|
    ensures var c := CumSums(FileSizes(files));
            c[i] <= c[i + 1] <= |StackColumn(files, contents, column)|
            && StackColumn(files, contents, column)[c[i]..c[i + 1]] == ColumnOf(files, contents, column, i)
  {
    FlattenPiece(FileColumnsOf(files, contents, column), i);
  }

  // ---------------------------------------------------------------------
  // FileStack.fileslices (io.py:145-150) and the pieces read for one slice.

  /** Slice(cumsizes[i], cumsizes[i+1], 1).find(s, return_index=True) for every file i. */
  function FileSlices(sizes: seq<nat>, s: Slice): (r: seq<(Slice, Slice)>)
    ensures |r| == |sizes|
  {
    var c := CumSums(sizes);
    seq(|sizes|, i requires 0 <= i < |sizes| => Find(c[i], c[i + 1], s))
  }

  /** File i's pair holds the slice's rows inside the file, relative to its start, and their offsets in the slice. */
  lemma {:induction false} FileSlicesSpec(sizes: seq<nat>, s: Slice, i: nat)
    requires i < |sizes|
    ensures FindContract(CumSums(sizes)[i], CumSums(sizes)[i + 1], s, FileSlices(sizes, s)[i].0, FileSlices(sizes, s)[i].1)
  {
    var c := CumSums(sizes);
    assert FileSlices(sizes, s)[i] == Find(c[i], c[i + 1], s);
    FindSpec(c[i], c[i + 1], s);
  }

  /** The slice has rows in file i (the `if rows:` test of io.py:227). */
  function Touches(sizes: seq<nat>, s: Slice, i: nat): bool
    requires i < |sizes|
  {
    var c := CumSums(sizes);
    SizeOf(Find(c[i], c[i + 1], s).0) > 0
  }

  /** For each file: the slice has rows in it and it lacks the column. */
  function MissingFlags(sizes: seq<nat>, contents: seq<Contents>, column: string, s: Slice): (m: seq<bool>)
    requires |contents| == |sizes|
    ensures |m| == |sizes|
  {
    seq(|sizes|, j requires 0 <= j < |sizes| => Touches(sizes, s, j) && column !in contents[j])
  }

  /** The first position from i on that holds true. */
  function FirstTrue(b: seq<bool>, i: nat): Option<nat>
    requires i <= |b|
    decreases |b| - i
  {
    if i == |b| then None
    else if b[i] then Some(i)
    else FirstTrue(b, i + 1)
  }

  /** It is the least such position, and there is none exactly when it finds none. */
  lemma {:induction false} FirstTrueSpec(b: seq<bool>, i: nat)
    requires i <= |b|
    ensures var m := FirstTrue(b, i);
            && (m.Some? ==> i <= m.value < |b| && b[m.value] && forall j :: i <= j < m.value ==> !b[j])
            && (m.None? <==> forall j :: i <= j < |b| ==> !b[j])
    decreases |b| - i
  {
    if i < |b| {
      FirstTrueSpec(b, i + 1);
    }
  }

  /** The first file that the slice touches and that lacks the column (io.py:227-228). */
  function FirstMissing(sizes: seq<nat>, contents: seq<Contents>, column: string, s: Slice): Option<nat>
    requires |contents| == |sizes|
  {
    FirstTrue(MissingFlags(sizes, contents, column, s), 0)
  }

  /** It is the least such file, and there is none exactly when every file the slice touches has the column. */
  lemma {:induction false} FirstMissingSpec(sizes: seq<nat>, contents: seq<Contents>, column: string, s: Slice)
    requires |contents| == |sizes|
    ensures var m := FirstMissing(sizes, contents, column, s);
            && (m.Some? ==> m.value < |sizes| && Touches(sizes, s, m.value) && column !in contents[m.value]
                            && forall j :: 0 <= j < m.value && Touches(sizes, s, j) ==> column in contents[j])
            && (m.None? <==> forall j :: 0 <= j < |sizes| && Touches(sizes, s, j) ==> column in contents[j])
  {
    var flags := MissingFlags(sizes, contents, column, s);
    FirstTrueSpec(flags, 0);
    assert forall j :: 0 <= j < |sizes| ==> (flags[j] <==> Touches(sizes, s, j) && column !in contents[j]);
  }

  /**
   * What one slice contributes to FileStack.read: the stack's rows at the
   * slice's positions, in the slice's order; nothing for an empty slice; the
   * first file lacking the column when one holds some of the rows.
   */
  function SlicePiece(files: seq<FileMeta>, contents: seq<Contents>, column: string, s: Slice): (r: Result<Option<seq<int>>, StackError>)
    requires ContentsFit(files, contents) && InStack(s, CFileSize(files))
    ensures r.Err? <==> FirstMissing(FileSizes(files), contents, column, s).Some?
    ensures r.Ok? ==> (r.value.None? <==> SizeOf(s) == 0)
  {
    match FirstMissing(FileSizes(files), contents, column, s)
    case Some(i) => Err(MissingColumn(i))
    case None =>
      Ok(if SizeOf(s) == 0 then None else Some(Gather(StackColumn(files, contents, column), Positions(s))))
  }

  /** The offsets of the pieces read so far, concatenated (np.concatenate(idx)). */
  function Keys(idx: seq<Slice>): seq<int>
  {
    if idx == [] then [] else Keys(idx[..|idx| - 1]) + Positions(idx[|idx| - 1])
  }

  /** [iidx.start for iidx in idx]. */
  function Starts(idx: seq<Slice>): seq<int>
    requires forall t :: 0 <= t < |idx| ==> idx[t].Span?
  {
    seq(|idx|, t requires 0 <= t < |idx| => idx[t].start)
  }

  /**
   * The state of the reassembly after the files below boundary `upto`: R is
   * the concatenation of the rows read, K that of their offsets in the slice;
   * each row read is the stack's row at its offset's position, every offset
   * whose position lies below `upto` was read once, and (for a unit-step
   * slice) the offsets ascend.
   */
  ghost predicate Assembled(g: seq<int>, p: seq<int>, upto: int, r: seq<int>, k: seq<int>, ascending: bool)
  {
    && |r| == |k|
    && (forall t :: 0 <= t < |k| ==> 0 <= k[t] < |p| && 0 <= p[k[t]] < upto && p[k[t]] < |g| && r[t] == g[p[k[t]]])
    && Distinct(k)
    && (forall j :: 0 <= j < |p| && 0 <= p[j] < upto ==> j in k)
    && (ascending ==> StrictlyIncreasing(k))
  }

  /** Reading one more file, [lo, hi), keeps the reassembly state, now up to hi. */
  lemma {:induction false} AssembleStep(g: seq<int>, s: Slice, lo: int, hi: int, rows: Slice, offsets: Slice,
                     r: seq<int>, k: seq<int>, ascending: bool)
    requires forall j :: 0 <= j < |Positions(s)| ==> 0 <= Positions(s)[j] < |g|
    requires ascending ==> StrictlyIncreasing(Positions(s))
    requires 0 <= lo <= hi <= |g|
    requires FindContract(lo, hi, s, rows, offsets)
    requires Assembled(g, Positions(s), lo, r, k, ascending)
    ensures forall q :: 0 <= q < |Positions(rows)| ==> 0 <= Positions(rows)[q] < hi - lo
    ensures Assembled(g, Positions(s), hi, r + Gather(g[lo..hi], Positions(rows)), k + Positions(offsets), ascending)
  {
    var p, rs, os := Positions(s), Positions(rows), Positions(offsets);
    StepRows(g, p, lo, hi, rs, os, r, k);
    StepDistinct(p, lo, os, k);
    StepCover(p, lo, hi, os, k);
    if ascending {
      StepAscending(p, lo, os, k);
    }
  }

  lemma {:induction false} StepRows(g: seq<int>, p: seq<int>, lo: int, hi: int, rs: seq<int>, os: seq<int>, r: seq<int>, k: seq<int>)
    requires 0 <= lo <= hi <= |g|
    requires |rs| == |os|
    requires forall q :: 0 <= q < |os| ==> 0 <= os[q] < |p| && p[os[q]] == lo + rs[q] && lo <= p[os[q]] < hi
    requires |r| == |k|
    requires forall t :: 0 <= t < |k| ==> 0 <= k[t] < |p| && 0 <= p[k[t]] < lo && p[k[t]] < |g| && r[t] == g[p[k[t]]]
    ensures forall q :: 0 <= q < |rs| ==> 0 <= rs[q] < hi - lo
    ensures var r', k' := r + Gather(g[lo..hi], rs), k + os;
            |r'| == |k'|
            && forall t :: 0 <= t < |k'| ==> 0 <= k'[t] < |p| && 0 <= p[k'[t]] < hi && p[k'[t]] < |g| && r'[t] == g[p[k'[t]]]
  {
    var piece := Gather(g[lo..hi], rs);
    var r', k' := r + piece, k + os;
    forall t | |k| <= t < |k'|
      ensures 0 <= k'[t] < |p| && 0 <= p[k'[t]] < hi && p[k'[t]] < |g| && r'[t] == g[p[k'[t]]]
    {
      var q := t - |k|;
      assert k'[t] == os[q] && r'[t] == piece[q] == g[lo..hi][rs[q]];
    }
  }

  lemma {:induction false} StepDistinct(p: seq<int>, lo: int, os: seq<int>, k: seq<int>)
    requires forall q :: 0 <= q < |os| ==> 0 <= os[q] < |p| && lo <= p[os[q]]
    requires forall q, q' :: 0 <= q < q' < |os| ==> os[q] < os[q']
    requires forall t :: 0 <= t < |k| ==> 0 <= k[t] < |p| && p[k[t]] < lo
    requires Distinct(k)
    ensures Distinct(k + os)
  {
    var k' := k + os;
    forall t, t' | 0 <= t < t' < |k'| ensures k'[t] != k'[t'] {
      if t >= |k| {
        assert os[t - |k|] < os[t' - |k|];
      } else if t' >= |k| {
        assert p[k'[t]] < lo <= p[k'[t']];
      }
    }
  }

  lemma {:induction false} StepCover(p: seq<int>, lo: int, hi: int, os: seq<int>, k: seq<int>)
    requires forall j :: 0 <= j < |p| && lo <= p[j] < hi ==> j in os
    requires forall j :: 0 <= j < |p| && 0 <= p[j] < lo ==> j in k
    ensures forall j :: 0 <= j < |p| && 0 <= p[j] < hi ==> j in k + os
  {
    forall j | 0 <= j < |p| && 0 <= p[j] < hi ensures j in k + os {
      if p[j] < lo {
        assert j in k;
      } else {
        assert j in os;
      }
    }
  }

  lemma {:induction false} StepAscending(p: seq<int>, lo: int, os: seq<int>, k: seq<int>)
    requires StrictlyIncreasing(p)
    requires forall q :: 0 <= q < |os| ==> 0 <= os[q] < |p| && lo <= p[os[q]]
    requires forall q, q' :: 0 <= q < q' < |os| ==> os[q] < os[q']
    requires forall t :: 0 <= t < |k| ==> 0 <= k[t] < |p| && p[k[t]] < lo
    requires StrictlyIncreasing(k)
    ensures StrictlyIncreasing(k + os)
  {
    var k' := k + os;
    forall t, t' | 0 <= t < t' < |k'| ensures k'[t] < k'[t'] {
      if t >= |k| {
        assert os[t - |k|] < os[t' - |k|];
      } else if t' >= |k| {
        assert p[k'[t]] < lo <= p[k'[t']];
      }
    }
  }

  /** Strictly ascending offsets, each below their count, are 0, 1, 2, ... */
  lemma {:induction false} AscendingGaps(k: seq<int>, i: nat, j: nat)
    requires StrictlyIncreasing(k) && i <= j < |k|
    ensures k[j] - k[i] >= j - i
    decreases j - i
  {
    if i < j {
      AscendingGaps(k, i + 1, j);
    }
  }

  lemma {:induction false} AscendingIdentity(k: seq<int>)
    requires StrictlyIncreasing(k)
    requires forall t :: 0 <= t < |k| ==> 0 <= k[t] < |k|
    ensures forall t :: 0 <= t < |k| ==> k[t] == t
  {
    forall t | 0 <= t < |k| ensures k[t] == t {
      AscendingGaps(k, 0, t);
      AscendingGaps(k, t, |k| - 1);
    }
  }

  /** Index slice: rows put back in the slice's order by argsort of their offsets (io.py:231-232). */
  lemma {:induction false} FinishIndices(g: seq<int>, p: seq<int>, upto: int, r: seq<int>, k: seq<int>)
    requires Assembled(g, p, upto, r, k, false)
    requires forall j :: 0 <= j < |p| ==> 0 <= p[j] < upto && p[j] < |g|
    ensures |k| == |p| && forall j :: 0 <= j < |k| ==> j in k
    ensures Gather(r, ArgsortPermutation(k)) == Gather(g, p)
  {
    PermutationLength(k, |p|);
    var order := ArgsortPermutation(k);
    forall j | 0 <= j < |p| ensures Gather(r, order)[j] == Gather(g, p)[j] {
      assert k[order[j]] == j;
    }
  }

  /** Unit-step slice: the pieces, taken in file order, are already the slice's rows (io.py:233-234). */
  lemma {:induction false} FinishSpan(g: seq<int>, p: seq<int>, upto: int, r: seq<int>, k: seq<int>)
    requires Assembled(g, p, upto, r, k, true)
    requires forall j :: 0 <= j < |p| ==> 0 <= p[j] < upto && p[j] < |g|
    ensures r == Gather(g, p)
  {
    PermutationLength(k, |p|);
    AscendingIdentity(k);
  }

  lemma {:induction false} KeysAppend(idx: seq<Slice>, x: Slice)
    ensures Keys(idx + [x]) == Keys(idx) + Positions(x)
  {
    assert (idx + [x])[..|idx|] == idx;
  }

  // ---------------------------------------------------------------------
  // FileStack.read (io.py:221-236) over the list of slices.

  /** The non-empty pieces of the slices, in slice order, or the first error. */
  function ReadPieces(files: seq<FileMeta>, contents: seq<Contents>, column: string, ss: seq<Slice>): Result<seq<seq<int>>, StackError>
    requires ContentsFit(files, contents)
    requires forall s :: s in ss ==> InStack(s, CFileSize(files))
  {
    if ss == [] then Ok([])
    else AddPiece(ReadPieces(files, contents, column, ss[..|ss| - 1]), SlicePiece(files, contents, column, ss[|ss| - 1]))
  }

  /** toret after one more slice: unchanged for an empty slice, the first error kept. */
  function AddPiece(acc: Result<seq<seq<int>>, StackError>, piece: Result<Option<seq<int>>, StackError>): (r: Result<seq<seq<int>>, StackError>)
    ensures r.Ok? <==> acc.Ok? && piece.Ok?
    ensures r.Ok? ==> r.value == acc.value + (if piece.value.Some? then [piece.value.value] else [])
  {
    match acc
    case Err(e) => Err(e)
    case Ok(ps) =>
      match piece
      case Err(e) => Err(e)
      case Ok(None) => Ok(ps)
      case Ok(Some(x)) => Ok(ps + [x])
  }

  /** FileStack.read as written: concatenating no piece at all fails. */
  function ReadOutcome(files: seq<FileMeta>, contents: seq<Contents>, column: string, ss: seq<Slice>): Result<seq<int>, StackError>
    requires ContentsFit(files, contents)
    requires forall s :: s in ss ==> InStack(s, CFileSize(files))
  {
    match ReadPieces(files, contents, column, ss)
    case Err(e) => Err(e)
    case Ok(ps) => if ps == [] then Err(NothingToConcatenate) else Ok(Flatten(ps))
  }

  /** FileStack.read as evidently intended: a rank without rows reads an empty column. */
  function ReadOutcomeCorrected(files: seq<FileMeta>, contents: seq<Contents>, column: string, ss: seq<Slice>): Result<seq<int>, StackError>
    requires ContentsFit(files, contents)
    requires forall s :: s in ss ==> InStack(s, CFileSize(files))
  {
    match ReadPieces(files, contents, column, ss)
    case Err(e) => Err(e)
    case Ok(ps) => Ok(Flatten(ps))
  }

  function AllPositions(ss: seq<Slice>): seq<int>
  {
    if ss == [] then [] else AllPositions(ss[..|ss| - 1]) + Positions(ss[|ss| - 1])
  }

  ghost predicate NoMissing(files: seq<FileMeta>, contents: seq<Contents>, column: string, ss: seq<Slice>)
    requires |contents| == |files|
  {
    forall s :: s in ss ==> FirstMissing(FileSizes(files), contents, column, s).None?
  }

  /** Every position of every slice is a row of the stack. */
  lemma {:induction false} AllPositionsInStack(ss: seq<Slice>, n: int)
    requires forall s :: s in ss ==> InStack(s, n)
    ensures forall j :: 0 <= j < |AllPositions(ss)| ==> 0 <= AllPositions(ss)[j] < n
  {
    if ss != [] {
      var ss' := ss[..|ss| - 1];
      assert forall s :: s in ss' ==> s in ss;
      AllPositionsInStack(ss', n);
      assert InStack(ss[|ss| - 1], n);
    }
  }

  /** Reading fails exactly when, for some slice, a file holding some of its rows lacks the column. */
  lemma {:induction false} ReadPiecesOk(files: seq<FileMeta>, contents: seq<Contents>, column: string, ss: seq<Slice>)
    requires ContentsFit(files, contents)
    requires forall s :: s in ss ==> InStack(s, CFileSize(files))
    ensures ReadPieces(files, contents, column, ss).Ok? <==> NoMissing(files, contents, column, ss)
  {
    if ss != [] {
      var ss' := ss[..|ss| - 1];
      var last := ss[|ss| - 1];
      assert forall s :: s in ss' ==> s in ss;
      ReadPiecesOk(files, contents, column, ss');
      var piece := SlicePiece(files, contents, column, last);
      assert ReadPieces(files, contents, column, ss) == AddPiece(ReadPieces(files, contents, column, ss'), piece);
      assert piece.Ok? <==> FirstMissing(FileSizes(files), contents, column, last).None?;
      NoMissingSnoc(files, contents, column, ss);
    }
  }

  lemma {:induction false} NoMissingSnoc(files: seq<FileMeta>, contents: seq<Contents>, column: string, ss: seq<Slice>)
    requires |contents| == |files| && ss != []
    ensures NoMissing(files, contents, column, ss)
        <==> NoMissing(files, contents, column, ss[..|ss| - 1])
             && FirstMissing(FileSizes(files), contents, column, ss[|ss| - 1]).None?
  {
    assert ss == ss[..|ss| - 1] + [ss[|ss| - 1]];
    assert forall s :: s in ss <==> s in ss[..|ss| - 1] || s == ss[|ss| - 1];
  }

  /** Otherwise it yields the stack's rows at the positions of all the slices, in slice order. */
  lemma {:induction false} ReadPiecesRows(files: seq<FileMeta>, contents: seq<Contents>, column: string, ss: seq<Slice>)
    requires ContentsFit(files, contents)
    requires forall s :: s in ss ==> InStack(s, CFileSize(files))
    requires ReadPieces(files, contents, column, ss).Ok?
    ensures forall j :: 0 <= j < |AllPositions(ss)| ==> 0 <= AllPositions(ss)[j] < CFileSize(files)
    ensures Flatten(ReadPieces(files, contents, column, ss).value) == Gather(StackColumn(files, contents, column), AllPositions(ss))
  {
    AllPositionsInStack(ss, CFileSize(files));
    if ss != [] {
      var ss' := ss[..|ss| - 1];
      var s := ss[|ss| - 1];
      var g := StackColumn(files, contents, column);
      assert forall s :: s in ss' ==> s in ss;
      AllPositionsInStack(ss', CFileSize(files));
      ReadPiecesRows(files, contents, column, ss');
      var ps' := ReadPieces(files, contents, column, ss').value;
      assert InStack(s, CFileSize(files));
      GatherAppend(g, AllPositions(ss'), Positions(s));
      match SlicePiece(files, contents, column, s)
      case Ok(None) =>
      case Ok(Some(x)) =>
        FlattenPush(ps', x);
    }
  }

  /** ... and it has no piece exactly when the slices have no position at all. */
  lemma {:induction false} ReadPiecesNone(files: seq<FileMeta>, contents: seq<Contents>, column: string, ss: seq<Slice>)
    requires ContentsFit(files, contents)
    requires forall s :: s in ss ==> InStack(s, CFileSize(files))
    requires ReadPieces(files, contents, column, ss).Ok?
    ensures ReadPieces(files, contents, column, ss).value == [] <==> AllPositions(ss) == []
  {
    if ss != [] {
      var ss' := ss[..|ss| - 1];
      assert forall s :: s in ss' ==> s in ss;
      ReadPiecesNone(files, contents, column, ss');
    }
  }

  lemma {:induction false} ReadPiecesErr(files: seq<FileMeta>, contents: seq<Contents>, column: string, ss: seq<Slice>, j: nat, e: StackError)
    requires ContentsFit(files, contents)
    requires forall s :: s in ss ==> InStack(s, CFileSize(files))
    requires j <= |ss| && ReadPieces(files, contents, column, ss[..j]) == Err(e)
    ensures ReadPieces(files, contents, column, ss) == Err(e)
    decreases |ss| - j
  {
    if j < |ss| {
      ReadPiecesErrStep(files, contents, column, ss, j, e);
      ReadPiecesErr(files, contents, column, ss, j + 1, e);
    } else {
      assert ss[..j] == ss;
    }
  }

  lemma {:induction false} ReadPiecesErrStep(files: seq<FileMeta>, contents: seq<Contents>, column: string, ss: seq<Slice>, j: nat, e: StackError)
    requires ContentsFit(files, contents)
    requires forall s :: s in ss ==> InStack(s, CFileSize(files))
    requires j < |ss| && ReadPieces(files, contents, column, ss[..j]) == Err(e)
    ensures ReadPieces(files, contents, column, ss[..j + 1]) == Err(e)
  {
    var t := ss[..j + 1];
    assert t[..|t| - 1] == ss[..j];
    assert forall s :: s in t ==> s in ss;
  }

  /** Read as written fails on a rank with no rows exactly where the corrected read returns nothing. */
  lemma {:induction false} ReadEmptyRank(files: seq<FileMeta>, contents: seq<Contents>, column: string, ss: seq<Slice>)
    requires ContentsFit(files, contents)
    requires forall s :: s in ss ==> InStack(s, CFileSize(files))
    ensures ReadOutcome(files, contents, column, ss) ==
              if ReadOutcomeCorrected(files, contents, column, ss).Ok? && AllPositions(ss) == []
              then Err(NothingToConcatenate)
              else ReadOutcomeCorrected(files, contents, column, ss)
  {
    if ReadPieces(files, contents, column, ss).Ok? {
      ReadPiecesNone(files, contents, column, ss);
    }
  }

  /** One file of one row, read by rank 0 of 2: its default slice is empty and read raises. */
  lemma {:induction false} EmptyRankReadFails()
    ensures var files := [FileMeta(1, ["x"], map[])];
            var contents := [map["x" := [7]]];
            var ss := [DefaultSlice(0, 2, 1)];
            && CFileSize(files) == 1
            && InStack(ss[0], 1)
            && ReadOutcome(files, contents, "x", ss) == Err(NothingToConcatenate)
            && ReadOutcomeCorrected(files, contents, "x", ss) == Ok([])
  {
    var files := [FileMeta(1, ["x"], map[])];
    var contents: seq<Contents> := [map["x" := [7]]];
    var ss := [DefaultSlice(0, 2, 1)];
    assert CumSums(FileSizes(files))[1] == 1;
    assert ss[0] == Span(0, 0);
    ReadEmptyRank(files, contents, "x", ss);
    ReadPiecesOk(files, contents, "x", ss);
  }

  /** The ranks' default slices of a stack of total rows, in rank order. */
  function DefaultSlices(p: nat, total: nat): (ss: seq<Slice>)
    requires p > 0
    ensures |ss| == p && forall r :: 0 <= r < p ==> ss[r] == DefaultSlice(r, p, total)
  {
    seq(p, r requires 0 <= r < p => DefaultSlice(r, p, total))
  }

  /** Each rank's default slice lies inside the stack. */
  lemma {:induction false} DefaultSlicesInStack(p: nat, total: nat)
    requires p > 0
    ensures forall s :: s in DefaultSlices(p, total) ==> InStack(s, total)
  {
    forall r | 0 <= r < p ensures InStack(DefaultSlice(r, p, total), total) {
      BoundMono(r, r + 1, p, total);
      BoundMono(r + 1, p, p, total);
      BoundEnds(p, total);
    }
  }

  /** The positions of several slices, end to end, are those of each slice flattened. */
  lemma {:induction false} AllPositionsFlatten(ss: seq<Slice>)
    ensures AllPositions(ss) == Flatten(seq(|ss|, k requires 0 <= k < |ss| => Positions(ss[k])))
  {
    if ss != [] {
      var n := |ss| - 1;
      AllPositionsFlatten(ss[..n]);
      assert seq(|ss|, k requires 0 <= k < |ss| => Positions(ss[k]))[..n]
          == seq(n, k requires 0 <= k < n => Positions(ss[..n][k]));
    }
  }

  /** The ranks' default slices, end to end, enumerate the stack's rows once and in order. */
  lemma {:induction false} DefaultSlicesPositions(p: nat, total: nat)
    requires p > 0
    ensures AllPositions(DefaultSlices(p, total)) == Interval(0, total)
  {
    var ss := DefaultSlices(p, total);
    AllPositionsFlatten(ss);
    assert seq(|ss|, k requires 0 <= k < |ss| => Positions(ss[k]))
        == seq(p, r requires 0 <= r < p => Positions(DefaultSlice(r, p, total)));
    DefaultSlicesTile(p, total);
  }

  /** No slice misses the column when every file has it. */
  lemma {:induction false} NoMissingWhenAllHave(files: seq<FileMeta>, contents: seq<Contents>, column: string, ss: seq<Slice>)
    requires |contents| == |files|
    requires forall i :: 0 <= i < |files| ==> column in contents[i]
    ensures NoMissing(files, contents, column, ss)
  {
    forall s | s in ss ensures FirstMissing(FileSizes(files), contents, column, s).None? {
      FirstMissingSpec(FileSizes(files), contents, column, s);
    }
  }

  /**
   * When every file has the column, the ranks' reads of their default
   * slices succeed and, laid end to end in rank order, give the stack's
   * whole column: every row once, in order.
   */
  lemma {:induction false} DefaultReadsCoverStack(files: seq<FileMeta>, contents: seq<Contents>, column: string, p: nat)
    requires ContentsFit(files, contents) && p > 0
    requires forall i :: 0 <= i < |files| ==> column in contents[i]
    ensures forall s :: s in DefaultSlices(p, CFileSize(files)) ==> InStack(s, CFileSize(files))
    ensures ReadOutcomeCorrected(files, contents, column, DefaultSlices(p, CFileSize(files)))
            == Ok(StackColumn(files, contents, column))
  {
    var n := CFileSize(files);
    var ss := DefaultSlices(p, n);
    var g := StackColumn(files, contents, column);
    DefaultSlicesInStack(p, n);
    NoMissingWhenAllHave(files, contents, column, ss);
    ReadPiecesOk(files, contents, column, ss);
    ReadPiecesRows(files, contents, column, ss);
    DefaultSlicesPositions(p, n);
    GatherInterval(g, 0, n);
    assert Flatten(ReadPieces(files, contents, column, ss).value) == g;
  }

  lemma {:induction false} MergeEmptyHeaders(files: seq<FileMeta>)
    requires forall i :: 0 <= i < |files| ==> files[i].header == map[]
    ensures MergeHeaders(FileHeaders(files)) == map[]
  {
    if files != [] {
      var files' := files[..|files| - 1];
      MergeEmptyHeaders(files');
      assert FileHeaders(files)[..|files| - 1] == FileHeaders(files');
    }
  }

  // ---------------------------------------------------------------------
  // FileStack.write (io.py:238-267).

  /** Python's data[x:y] on a list of length n: negative bounds count from the end, all are clipped. */
  function PyIndex(x: int, n: nat): (i: nat)
    ensures i <= n
    ensures 0 <= x <= n ==> i == x
  {
    if x < 0 then Max(x + n, 0) else Min(x, n)
  }

  function PySliceRows(data: seq<int>, x: int, y: int): (r: seq<int>)
    ensures 0 <= x <= y <= |data| ==> r == data[x..y]
  {
    var a, b := PyIndex(x, |data|), PyIndex(y, |data|);
    if a < b then data[a..b] else []
  }

  /** The files after their sizes are reset to the even split of total (io.py:255-257). */
  function Resized(files: seq<FileMeta>, total: nat): (r: seq<FileMeta>)
    ensures |r| == |files|
  {
    seq(|files|, i requires 0 <= i < |files| => files[i].(csize := Share(i, |files|, total)))
  }

  lemma {:induction false} ResizedSizes(files: seq<FileMeta>, total: nat)
    ensures FileSizes(Resized(files, total)) == EvenSizes(|files|, total)
    ensures |files| > 0 ==> CFileSize(Resized(files, total)) == total
    ensures forall i :: 0 <= i < |files| ==>
              Resized(files, total)[i].columns == files[i].columns && Resized(files, total)[i].header == files[i].header
  {
    assert FileSizes(Resized(files, total)) == EvenSizes(|files|, total);
    if |files| > 0 {
      CumSumsLast(EvenSizes(|files|, total));
      EvenSizesSum(|files|, total);
    }
  }

  /**
   * The rows one rank, whose data starts at stack row `offset`, writes to the
   * file window [lo, hi) when it claims the rows `window` of the new stack:
   * its part of the file window, moved from file positions to positions in
   * the rank's data (io.py:262-267).
   */
  function Chunk(data: seq<int>, offset: int, lo: int, hi: int, window: Slice): seq<int>
    requires window.Span?
  {
    var first := Max(window.start, lo);
    var last := Max(first, Min(window.stop, hi));
    PySliceRows(data, first - offset, last - offset)
  }

  /** It is the source's two steps: find the window's rows in [lo, hi), then shift them by lo - offset. */
  lemma {:induction false} ChunkIsFindShift(data: seq<int>, offset: int, lo: int, hi: int, window: Slice)
    requires window.Span?
    ensures var shifted := Shift(Find(lo, hi, window).0, lo - offset);
            shifted.Span? && Chunk(data, offset, lo, hi, window) == PySliceRows(data, shifted.start, shifted.stop)
  {
  }

  /** The chunks for the files cut at the boundaries fc, in file order. */
  function ChunksOf(data: seq<int>, offset: int, fc: seq<nat>, window: Slice): (chunks: seq<seq<int>>)
    requires |fc| >= 1 && window.Span?
    ensures |chunks| == |fc| - 1
  {
    seq(|fc| - 1, i requires 0 <= i < |fc| - 1 => Chunk(data, offset, fc[i], fc[i + 1], window))
  }

  /** The chunks for every file, the files cut at the even split of the total (io.py:259-263). */
  function Chunks(data: seq<int>, rankSizes: seq<nat>, rank: nat, nfiles: nat, window: Slice): (chunks: seq<seq<int>>)
    requires rank < |rankSizes|
    requires window.Span?
    ensures |chunks| == nfiles
  {
    ChunksOf(data, CumSums(rankSizes)[rank], CumSums(EvenSizes(nfiles, Total(rankSizes))), window)
  }

  /** As written: the rank writes the rows of its default slice, whatever rows it holds. */
  function WrittenChunks(data: seq<int>, rankSizes: seq<nat>, rank: nat, nfiles: nat): seq<seq<int>>
    requires rank < |rankSizes|
  {
    Chunks(data, rankSizes, rank, nfiles, DefaultSlice(rank, |rankSizes|, Total(rankSizes)))
  }

  /** As evidently intended: the rank writes the rows it holds, [cumsizes[r], cumsizes[r+1]). */
  function CorrectedChunks(data: seq<int>, rankSizes: seq<nat>, rank: nat, nfiles: nat): seq<seq<int>>
    requires rank < |rankSizes|
  {
    Chunks(data, rankSizes, rank, nfiles, WriteWindow(rankSizes, rank))
  }

  /** What file i holds once every rank has written: the ranks' chunks in rank order. */
  function FileContent(datas: seq<seq<int>>, nfiles: nat, i: nat, corrected: bool): seq<int>
    requires i < nfiles
  {
    var sizes := Lengths(datas);
    Flatten(seq(|datas|, r requires 0 <= r < |datas| => RankChunks(datas[r], sizes, r, nfiles, corrected)[i]))
  }

  /** The chunks rank r writes, as written or corrected. */
  function RankChunks(data: seq<int>, rankSizes: seq<nat>, rank: nat, nfiles: nat, corrected: bool): (chunks: seq<seq<int>>)
    requires rank < |rankSizes|
    ensures |chunks| == nfiles
  {
    if corrected then CorrectedChunks(data, rankSizes, rank, nfiles) else WrittenChunks(data, rankSizes, rank, nfiles)
  }

  function Clamp(x: int, lo: int, hi: int): int
  {
    Min(Max(x, lo), hi)
  }

  /**
   * A rank holding the stack's rows [a, b) of g, writing them as the window
   * Span(a, b), puts into the file window [fc[i], fc[i+1]) exactly the
   * stack's rows of its window clamped to the file's.
   */
  lemma {:induction false} PieceChunk(g: seq<int>, a: nat, b: nat, fc: seq<nat>, i: nat)
    requires a <= b <= |g| && i + 1 < |fc| && fc[i] <= fc[i + 1] <= |g|
    ensures ChunksOf(g[a..b], a, fc, Span(a, b))[i] == g[Clamp(a, fc[i], fc[i + 1])..Clamp(b, fc[i], fc[i + 1])]
  {
    var data, lo, hi := g[a..b], fc[i], fc[i + 1];
    var first := Max(a, lo);
    var last := Max(first, Min(b, hi));
    ChunksOfAt(data, a, fc, Span(a, b), i);
    ClampedWindow(g, a, b, lo, hi);
  }

  lemma {:induction false} ChunksOfAt(data: seq<int>, offset: int, fc: seq<nat>, window: Slice, i: nat)
    requires window.Span? && i + 1 < |fc|
    ensures ChunksOf(data, offset, fc, window)[i] == Chunk(data, offset, fc[i], fc[i + 1], window)
  {
  }

  /** The rows of g[a:b] that fall in [lo, hi), located as Chunk locates them. */
  lemma {:induction false} ClampedWindow(g: seq<int>, a: nat, b: nat, lo: nat, hi: nat)
    requires a <= b <= |g| && lo <= hi <= |g|
    ensures var first := Max(a, lo);
            var last := Max(first, Min(b, hi));
            PySliceRows(g[a..b], first - a, last - a) == g[Clamp(a, lo, hi)..Clamp(b, lo, hi)]
  {
    if b <= lo {
      ClampedWindowBelow(g, a, b, lo, hi);
    } else if a >= hi {
      ClampedWindowAbove(g, a, b, lo, hi);
    } else {
      ClampedWindowOverlap(g, a, b, lo, hi);
    }
  }

  lemma {:induction false} ClampedWindowBelow(g: seq<int>, a: nat, b: nat, lo: nat, hi: nat)
    requires a <= b <= lo <= hi <= |g|
    ensures var first := Max(a, lo);
            var last := Max(first, Min(b, hi));
            PySliceRows(g[a..b], first - a, last - a) == g[Clamp(a, lo, hi)..Clamp(b, lo, hi)]
  {
    assert Max(a, lo) == lo && Min(b, hi) == b && Max(lo, b) == lo;
    assert Clamp(a, lo, hi) == lo && Clamp(b, lo, hi) == lo;
  }

  lemma {:induction false} ClampedWindowAbove(g: seq<int>, a: nat, b: nat, lo: nat, hi: nat)
    requires lo <= hi <= a <= b <= |g|
    ensures var first := Max(a, lo);
            var last := Max(first, Min(b, hi));
            PySliceRows(g[a..b], first - a, last - a) == g[Clamp(a, lo, hi)..Clamp(b, lo, hi)]
  {
    assert Max(a, lo) == a && Min(b, hi) == hi && Max(a, hi) == a;
    assert Clamp(a, lo, hi) == hi && Clamp(b, lo, hi) == hi;
  }

  lemma {:induction false} ClampedWindowOverlap(g: seq<int>, a: nat, b: nat, lo: nat, hi: nat)
    requires a <= b <= |g| && lo <= hi <= |g| && lo < b && a < hi
    ensures var first := Max(a, lo);
            var last := Max(first, Min(b, hi));
            PySliceRows(g[a..b], first - a, last - a) == g[Clamp(a, lo, hi)..Clamp(b, lo, hi)]
  {
    var first := Max(a, lo);
    var last := Min(b, hi);
    assert first <= last && Max(first, last) == last;
    assert Clamp(a, lo, hi) == first && Clamp(b, lo, hi) == last;
    SliceOfSlice(g, a, b, first - a, last - a);
  }

  /**
   * A rank's corrected chunk for the file window [fc[i], fc[i+1]) is the
   * stack's rows of the rank's window clamped to the file's.
   */
  lemma {:induction false} CorrectedChunkAt(datas: seq<seq<int>>, fc: seq<nat>, i: nat, r: nat)
    requires r < |datas| && i + 1 < |fc| && fc[i] <= fc[i + 1] <= |Flatten(datas)|
    ensures var cum := CumSums(Lengths(datas));
            var lo, hi := fc[i], fc[i + 1];
            ChunksOf(datas[r], cum[r], fc, WriteWindow(Lengths(datas), r))[i]
              == Flatten(datas)[Clamp(cum[r], lo, hi)..Clamp(cum[r + 1], lo, hi)]
  {
    var cum := CumSums(Lengths(datas));
    FlattenPiece(datas, r);
    CumSumsMonotone(Lengths(datas));
    PieceChunk(Flatten(datas), cum[r], cum[r + 1], fc, i);
  }

  /** The file boundaries of the write: the even split of the stack being written. */
  lemma {:induction false} WriteBounds(datas: seq<seq<int>>, nfiles: nat, i: nat)
    requires i < nfiles
    ensures var fc := CumSums(EvenSizes(nfiles, Total(Lengths(datas))));
            && Total(Lengths(datas)) == |Flatten(datas)|
            && fc[i] <= fc[i + 1] <= |Flatten(datas)|
  {
    var n := |Flatten(datas)|;
    CumSumsOfLengths(datas);
    CumSumsLast(Lengths(datas));
    EvenSizesCumSums(nfiles, n);
    BoundMono(i, i + 1, nfiles, n);
    BoundMono(i + 1, nfiles, nfiles, n);
    BoundEnds(nfiles, n);
  }

  /** The pieces of g between consecutive boundaries of cum, each boundary clamped to [lo, hi]. */
  function ClampedPieces(g: seq<int>, cum: seq<nat>, lo: nat, hi: nat): (pieces: seq<seq<int>>)
    requires |cum| >= 1 && Monotone(cum) && lo <= hi <= |g|
    ensures |pieces| == |cum| - 1
  {
    seq(|cum| - 1, r requires 0 <= r < |cum| - 1 => g[Clamp(cum[r], lo, hi)..Clamp(cum[r + 1], lo, hi)])
  }

  /** Cut at monotone boundaries from 0 to |g| and clamped to [lo, hi), the pieces concatenate to g[lo..hi]. */
  lemma {:induction false} ClampedCutsConcat(g: seq<int>, cum: seq<nat>, lo: nat, hi: nat)
    requires |cum| >= 1 && Monotone(cum) && cum[0] == 0 && cum[|cum| - 1] == |g| && lo <= hi <= |g|
    ensures Flatten(ClampedPieces(g, cum, lo, hi)) == g[lo..hi]
  {
    var cl := seq(|cum|, r requires 0 <= r < |cum| => Clamp(cum[r], lo, hi));
    assert Monotone(cl);
    assert ClampedPieces(g, cum, lo, hi) == seq(|cl| - 1, r requires 0 <= r < |cl| - 1 => g[cl[r]..cl[r + 1]]);
    CutsConcat(g, cl);
  }

  /**
   * With the correction, each file holds exactly its window of the stack
   * being written: the ranks' data end to end, cut at the new file
   * boundaries, every row once and in order.
   */
  lemma {:induction false} CorrectedFileContent(datas: seq<seq<int>>, nfiles: nat, i: nat)
    requires i < nfiles
    ensures var fc := CumSums(EvenSizes(nfiles, |Flatten(datas)|));
            fc[i] <= fc[i + 1] <= |Flatten(datas)|
            && FileContent(datas, nfiles, i, true) == Flatten(datas)[fc[i]..fc[i + 1]]
  {
    var g := Flatten(datas);
    var cum := CumSums(Lengths(datas));
    WriteBounds(datas, nfiles, i);
    var fc := CumSums(EvenSizes(nfiles, |g|));
    CumSumsMonotone(Lengths(datas));
    CumSumsOfLengths(datas);
    CorrectedChunksClamped(datas, nfiles, i, cum, fc);
    ClampedCutsConcat(g, cum, fc[i], fc[i + 1]);
    FileContentCorrected(datas, nfiles, i);
  }

  /** Every rank's corrected chunk for file i is its window of the stack clamped to the file's. */
  lemma {:induction false} CorrectedChunksClamped(datas: seq<seq<int>>, nfiles: nat, i: nat, cum: seq<nat>, fc: seq<nat>)
    requires i < nfiles && cum == CumSums(Lengths(datas)) && Monotone(cum)
    requires fc == CumSums(EvenSizes(nfiles, |Flatten(datas)|)) && fc[i] <= fc[i + 1] <= |Flatten(datas)|
    ensures seq(|datas|, r requires 0 <= r < |datas| => CorrectedChunks(datas[r], Lengths(datas), r, nfiles)[i])
            == ClampedPieces(Flatten(datas), cum, fc[i], fc[i + 1])
  {
    forall r | 0 <= r < |datas|
      ensures CorrectedChunks(datas[r], Lengths(datas), r, nfiles)[i] == ClampedPieces(Flatten(datas), cum, fc[i], fc[i + 1])[r]
    {
      CorrectedChunkClamped(datas, nfiles, i, cum, fc, r);
    }
  }

  lemma {:induction false} CorrectedChunkClamped(datas: seq<seq<int>>, nfiles: nat, i: nat, cum: seq<nat>, fc: seq<nat>, r: nat)
    requires i < nfiles && cum == CumSums(Lengths(datas)) && Monotone(cum) && r < |datas|
    requires fc == CumSums(EvenSizes(nfiles, |Flatten(datas)|)) && fc[i] <= fc[i + 1] <= |Flatten(datas)|
    ensures CorrectedChunks(datas[r], Lengths(datas), r, nfiles)[i] == ClampedPieces(Flatten(datas), cum, fc[i], fc[i + 1])[r]
  {
    WriteBounds(datas, nfiles, i);
    CorrectedChunkAt(datas, fc, i, r);
  }

  lemma {:induction false} FileContentCorrected(datas: seq<seq<int>>, nfiles: nat, i: nat)
    requires i < nfiles
    ensures FileContent(datas, nfiles, i, true)
            == Flatten(seq(|datas|, r requires 0 <= r < |datas| => CorrectedChunks(datas[r], Lengths(datas), r, nfiles)[i]))
  {
    var sizes := Lengths(datas);
    assert seq(|datas|, r requires 0 <= r < |datas| => RankChunks(datas[r], sizes, r, nfiles, true)[i])
        == seq(|datas|, r requires 0 <= r < |datas| => CorrectedChunks(datas[r], sizes, r, nfiles)[i]);
  }

  /** When every rank holds exactly its default share, the write as written is the corrected one. */
  lemma {:induction false} WrittenIsCorrectedWhenBalanced(rankSizes: seq<nat>, rank: nat, data: seq<int>, nfiles: nat)
    requires rank < |rankSizes|
    requires rankSizes == EvenSizes(|rankSizes|, Total(rankSizes))
    ensures WrittenChunks(data, rankSizes, rank, nfiles) == CorrectedChunks(data, rankSizes, rank, nfiles)
  {
    EvenSizesCumSums(|rankSizes|, Total(rankSizes));
  }

  /** One file sized for the four rows of two ranks holding 1 and 3 rows. */
  lemma {:induction false} UnbalancedLayout()
    ensures CumSums([1, 3]) == [0, 1, 4] && Total([1, 3]) == 4
    ensures CumSums(EvenSizes(1, 4)) == [0, 4]
    ensures DefaultSlice(0, 2, 4) == Span(0, 2) && DefaultSlice(1, 2, 4) == Span(2, 4)
  {
    assert CumSums([1]) == [0, 1];
    assert EvenSizes(1, 4) == [4];
    assert CumSums([4]) == [0, 4];
  }

  lemma {:induction false} UnbalancedRows()
    ensures PySliceRows([10], 0, 2) == [10] && PySliceRows([10], 0, 1) == [10]
    ensures PySliceRows([11, 12, 13], 1, 3) == [12, 13] && PySliceRows([11, 12, 13], 0, 3) == [11, 12, 13]
    ensures [10] + [11, 12, 13] == [10, 11, 12, 13]
  {
    assert PyIndex(2, 1) == 1;
    assert [11, 12, 13][1..3] == [12, 13];
  }

  /** With a single file, the chunks are the one chunk of the file's window. */
  lemma {:induction false} OneFileChunks(data: seq<int>, offset: int, total: nat, window: Slice)
    requires window.Span?
    ensures ChunksOf(data, offset, [0, total], window) == [Chunk(data, offset, 0, total, window)]
  {
  }

  /** Both ranks' chunks for the one file, whatever rows they hold. */
  lemma {:induction false} UnbalancedWindows(data: seq<int>, r: nat)
    requires r < 2
    ensures WrittenChunks(data, [1, 3], r, 1) == [Chunk(data, [0, 1][r], 0, 4, [Span(0, 2), Span(2, 4)][r])]
    ensures CorrectedChunks(data, [1, 3], r, 1) == [Chunk(data, [0, 1][r], 0, 4, [Span(0, 1), Span(1, 4)][r])]
  {
    UnbalancedLayout();
    assert WriteWindow([1, 3], r) == [Span(0, 1), Span(1, 4)][r];
    OneFileChunks(data, [0, 1][r], 4, [Span(0, 2), Span(2, 4)][r]);
    OneFileChunks(data, [0, 1][r], 4, [Span(0, 1), Span(1, 4)][r]);
  }

  /** Rank 0 holds row 0; its default rows are 0 and 1, and it writes row 0; corrected, it writes its window [0, 1). */
  lemma {:induction false} UnbalancedRank0()
    ensures WrittenChunks([10], [1, 3], 0, 1) == [[10]]
    ensures CorrectedChunks([10], [1, 3], 0, 1) == [[10]]
  {
    UnbalancedWindows([10], 0);
    UnbalancedRows();
  }

  /** Rank 1 holds rows 1-3; its default rows are 2 and 3, and it writes only those; corrected, it writes its window [1, 4). */
  lemma {:induction false} UnbalancedRank1()
    ensures WrittenChunks([11, 12, 13], [1, 3], 1, 1) == [[12, 13]]
    ensures CorrectedChunks([11, 12, 13], [1, 3], 1, 1) == [[11, 12, 13]]
  {
    UnbalancedWindows([11, 12, 13], 1);
    UnbalancedRows();
  }

  /**
   * Two ranks holding 1 and 3 rows write one file: as written rank 0 writes
   * its default rows 0 and 1 but holds only row 0, rank 1 writes rows 2 and 3;
   * row 1 (value 11) is lost although the file is sized for four rows.
   */
  lemma {:induction false} UnbalancedWriteLosesRows()
    ensures FileContent([[10], [11, 12, 13]], 1, 0, false) == [10, 12, 13]
  {
    assert Lengths([[10], [11, 12, 13]]) == [1, 3];
    TwoRankContent([[10], [11, 12, 13]], 1, 0, false);
    UnbalancedRank0();
    UnbalancedRank1();
  }

  /** With the correction the same file holds all four rows in order. */
  lemma {:induction false} UnbalancedWriteCorrected()
    ensures FileContent([[10], [11, 12, 13]], 1, 0, true) == [10, 11, 12, 13]
  {
    assert Lengths([[10], [11, 12, 13]]) == [1, 3];
    TwoRankContent([[10], [11, 12, 13]], 1, 0, true);
    UnbalancedRank0();
    UnbalancedRank1();
    UnbalancedRows();
  }

  /** With two ranks, a file holds rank 0's chunk followed by rank 1's. */
  lemma {:induction false} TwoRankContent(datas: seq<seq<int>>, nfiles: nat, i: nat, corrected: bool)
    requires |datas| == 2 && i < nfiles
    ensures var sizes := Lengths(datas);
            FileContent(datas, nfiles, i, corrected)
            == RankChunks(datas[0], sizes, 0, nfiles, corrected)[i] + RankChunks(datas[1], sizes, 1, nfiles, corrected)[i]
  {
    var sizes := Lengths(datas);
    var cs := seq(|datas|, r requires 0 <= r < |datas| => RankChunks(datas[r], sizes, r, nfiles, corrected)[i]);
    assert cs == [cs[0], cs[1]];
    FlattenPair(cs[0], cs[1]);
  }

  /** The offsets of unit-step pieces: non-empty spans below `upto`, their starts ascending. */
  ghost predicate SpanOffsets(idx: seq<Slice>, a: int, upto: int)
  {
    && (forall t :: 0 <= t < |idx| ==> idx[t].Span? && idx[t].start < idx[t].stop && a + idx[t].stop <= upto)
    && StrictlyIncreasing(Starts(idx))
  }

  lemma {:induction false} SpanOffsetsStep(idx: seq<Slice>, a: int, b: int, lo: int, hi: int)
    requires SpanOffsets(idx, a, lo)
    requires SizeOf(Find(lo, hi, Span(a, b)).1) > 0
    ensures SpanOffsets(idx + [Find(lo, hi, Span(a, b)).1], a, hi)
  {
    var first := Max(a, lo);
    var last := Max(first, Min(b, hi));
    assert Find(lo, hi, Span(a, b)).1 == Span(first - a, last - a);
    var idx' := idx + [Span(first - a, last - a)];
    assert forall t :: 0 <= t < |idx| ==> idx'[t] == idx[t];
    var st, st' := Starts(idx), Starts(idx');
    forall j, j' | 0 <= j < j' < |st'|
      ensures st'[j] < st'[j']
    {
      if j' < |idx| {
        assert st'[j] == st[j] && st'[j'] == st[j'];
      } else {
        assert st'[j] == idx[j].start < idx[j].stop <= lo - a <= first - a == st'[j'];
      }
    }
  }

  /**
   * The state of io.py:225-229 after the files before file i: tmp holds the
   * rows read, idx their offsets in the slice.
   */
  ghost predicate ReadState(files: seq<FileMeta>, contents: seq<Contents>, column: string, s: Slice, i: nat,
                            tmp: seq<seq<int>>, idx: seq<Slice>)
    requires ContentsFit(files, contents) && i <= |files|
  {
    var c := CumSums(FileSizes(files));
    && |tmp| == |idx| && |Keys(idx)| >= |idx|
    && Assembled(StackColumn(files, contents, column), Positions(s), c[i], Flatten(tmp), Keys(idx), s.Span?)
    && (s.Span? ==> SpanOffsets(idx, s.start, c[i]))
  }

  /** One turn of the loop over the files (io.py:226-229) keeps the state. */
  lemma {:induction false} ReadStep(files: seq<FileMeta>, contents: seq<Contents>, column: string, s: Slice, i: nat,
                 tmp: seq<seq<int>>, idx: seq<Slice>)
    requires ContentsFit(files, contents) && InStack(s, CFileSize(files)) && i < |files|
    requires ReadState(files, contents, column, s, i, tmp, idx)
    ensures var c := CumSums(FileSizes(files));
            var (rows, iidx) := Find(c[i], c[i + 1], s);
            && (SizeOf(rows) == 0 ==> ReadState(files, contents, column, s, i + 1, tmp, idx))
            && (SizeOf(rows) > 0 && column in contents[i] ==>
                  && (forall q :: 0 <= q < |Positions(rows)| ==> 0 <= Positions(rows)[q] < |contents[i][column]|)
                  && ReadState(files, contents, column, s, i + 1,
                               tmp + [Gather(contents[i][column], Positions(rows))], idx + [iidx]))
  {
    var sizes := FileSizes(files);
    var c := CumSums(sizes);
    var g := StackColumn(files, contents, column);
    var (rows, iidx) := Find(c[i], c[i + 1], s);
    CumSumsMonotone(sizes);
    CumSumsLast(sizes);
    StackColumnCuts(files, contents, column, i);
    if s.Span? {
      assert StrictlyIncreasing(Positions(s));
    }
    FindSpec(c[i], c[i + 1], s);
    AssembleStep(g, s, c[i], c[i + 1], rows, iidx, Flatten(tmp), Keys(idx), s.Span?);
    if SizeOf(rows) == 0 {
      assert Gather(g[c[i]..c[i + 1]], Positions(rows)) == [] && Positions(iidx) == [];
      assert Flatten(tmp) + [] == Flatten(tmp) && Keys(idx) + [] == Keys(idx);
      if s.Span? {
        assert SpanOffsets(idx, s.start, c[i + 1]);
      }
    } else if column in contents[i] {
      var piece := Gather(contents[i][column], Positions(rows));
      FlattenPush(tmp, piece);
      KeysAppend(idx, iidx);
      if s.Span? {
        SpanOffsetsStep(idx, s.start, s.stop, c[i], c[i + 1]);
      }
    }
  }

  /** A file holding none of the slice's rows leaves the state as it is. */
  lemma {:induction false} ReadStepSkip(files: seq<FileMeta>, contents: seq<Contents>, column: string, s: Slice, i: nat,
                     tmp: seq<seq<int>>, idx: seq<Slice>)
    requires ContentsFit(files, contents) && InStack(s, CFileSize(files)) && i < |files|
    requires ReadState(files, contents, column, s, i, tmp, idx)
    requires var c := CumSums(FileSizes(files)); SizeOf(Find(c[i], c[i + 1], s).0) == 0
    ensures ReadState(files, contents, column, s, i + 1, tmp, idx)
  {
    ReadStep(files, contents, column, s, i, tmp, idx);
  }

  /** A file holding some of the slice's rows, and the column, adds its rows and their offsets. */
  lemma {:induction false} ReadStepTake(files: seq<FileMeta>, contents: seq<Contents>, column: string, s: Slice, i: nat,
                     tmp: seq<seq<int>>, idx: seq<Slice>)
    requires ContentsFit(files, contents) && InStack(s, CFileSize(files)) && i < |files|
    requires ReadState(files, contents, column, s, i, tmp, idx)
    requires column in contents[i]
    requires var c := CumSums(FileSizes(files)); SizeOf(Find(c[i], c[i + 1], s).0) > 0
    ensures var c := CumSums(FileSizes(files));
            var (rows, iidx) := Find(c[i], c[i + 1], s);
            && (forall q :: 0 <= q < |Positions(rows)| ==> 0 <= Positions(rows)[q] < |contents[i][column]|)
            && ReadState(files, contents, column, s, i + 1,
                         tmp + [Gather(contents[i][column], Positions(rows))], idx + [iidx])
  {
    var c := CumSums(FileSizes(files));
    var (rows, iidx) := Find(c[i], c[i + 1], s);
    ReadStep(files, contents, column, s, i, tmp, idx);
  }

  /** After the last file: nothing was read exactly when the slice is empty. */
  lemma {:induction false} ReadFinishEmpty(files: seq<FileMeta>, contents: seq<Contents>, column: string, s: Slice,
                        tmp: seq<seq<int>>, idx: seq<Slice>)
    requires ContentsFit(files, contents) && InStack(s, CFileSize(files))
    requires ReadState(files, contents, column, s, |files|, tmp, idx)
    ensures tmp == [] <==> SizeOf(s) == 0
  {
    var sizes := FileSizes(files);
    CumSumsLast(sizes);
    var keys := Keys(idx);
    var p := Positions(s);
    assert |p| > 0 ==> 0 <= p[0] < CumSums(sizes)[|files|] && 0 in keys;
    assert tmp == [] ==> keys == [];
    if tmp != [] {
      assert keys[0] < |p|;
    }
  }

  /** Index slice: argsort of the offsets puts the rows read back in the slice's order. */
  lemma {:induction false} ReadFinishIndices(files: seq<FileMeta>, contents: seq<Contents>, column: string, s: Slice,
                          tmp: seq<seq<int>>, idx: seq<Slice>)
    requires ContentsFit(files, contents) && InStack(s, CFileSize(files)) && s.Indices?
    requires ReadState(files, contents, column, s, |files|, tmp, idx)
    ensures |Flatten(tmp)| == |Keys(idx)|
    ensures forall j :: 0 <= j < |Keys(idx)| ==> j in Keys(idx)
    ensures Gather(Flatten(tmp), ArgsortPermutation(Keys(idx))) == Gather(StackColumn(files, contents, column), Positions(s))
  {
    CumSumsLast(FileSizes(files));
    FinishIndices(StackColumn(files, contents, column), Positions(s), CFileSize(files), Flatten(tmp), Keys(idx));
  }

  /** Unit-step slice: the rows read, in file order, are the slice's rows. */
  lemma {:induction false} ReadFinishSpan(files: seq<FileMeta>, contents: seq<Contents>, column: string, s: Slice,
                       tmp: seq<seq<int>>, idx: seq<Slice>)
    requires ContentsFit(files, contents) && InStack(s, CFileSize(files)) && s.Span?
    requires ReadState(files, contents, column, s, |files|, tmp, idx)
    ensures |tmp| == |idx|
    ensures forall t :: 0 <= t < |idx| ==> idx[t].Span?
    ensures StrictlyIncreasing(Starts(idx))
    ensures Flatten(tmp) == Gather(StackColumn(files, contents, column), Positions(s))
  {
    CumSumsLast(FileSizes(files));
    FinishSpan(StackColumn(files, contents, column), Positions(s), CFileSize(files), Flatten(tmp), Keys(idx));
  }

  /** The selection a file's read receives for rows found in it (io.py:227-228). */
  function AsRows(s: Slice): Readers.Rows
  {
    match s
    case Span(a, b) => Readers.Range(a, Some(b), 1)
    case Indices(idx) => Readers.Index(idx)
  }

  /**
   * For every format but the base class, a file's read of a non-empty slice of
   * its own rows is exactly those rows in order: the read ReadFile takes.
   */
  lemma {:induction false} FileReadOfFoundRows(f: Formats.Format, col: seq<int>, s: Slice)
    requires f != Formats.Base && SizeOf(s) > 0 && InStack(s, |col|)
    ensures Readers.Normalised(AsRows(s), |col|)
    ensures Readers.FileRead(f, col, AsRows(s)) == Ok(Gather(col, Positions(s)))
  {
    if s.Span? {
      var ps := Positions(s);
      assert ps[0] == s.start && ps[|ps| - 1] == s.stop - 1;
      Readers.RangeSeqUnit(s.start, s.stop);
    }
    Readers.FileReadSelects(f, col, AsRows(s));
  }

  /**
   * One turn of the loop over the files of io.py:226-229: the rows file i
   * holds of the slice, appended with their offsets, or the file itself when
   * it holds some of them but lacks the column.
   */
  method ReadFile(files: seq<FileMeta>, contents: seq<Contents>, column: string, s: Slice, i: nat,
                  tmp: seq<seq<int>>, idx: seq<Slice>)
    returns (r: Result<(seq<seq<int>>, seq<Slice>), StackError>)
    requires ContentsFit(files, contents) && InStack(s, CFileSize(files)) && i < |files|
    requires ReadState(files, contents, column, s, i, tmp, idx)
    ensures r.Err? <==> Touches(FileSizes(files), s, i) && column !in contents[i]
    ensures r.Err? ==> r.error == MissingColumn(i)
    ensures r.Ok? ==> ReadState(files, contents, column, s, i + 1, r.value.0, r.value.1)
  {
    var c := CumSums(FileSizes(files));
    var (rows, iidx) := Find(c[i], c[i + 1], s);
    if SizeOf(rows) == 0 {
      ReadStepSkip(files, contents, column, s, i, tmp, idx);
      return Ok((tmp, idx));
    }
    if column !in contents[i] {
      return Err(MissingColumn(i));
    }
    ReadStepTake(files, contents, column, s, i, tmp, idx);
    return Ok((tmp + [Gather(contents[i][column], Positions(rows))], idx + [iidx]));
  }

  /**
   * The loop over the files of io.py:226-229 for one slice: the rows each
   * file holds of it and their offsets in the slice, or the first file
   * holding some of them that lacks the column.
   */
  method ReadFiles(files: seq<FileMeta>, contents: seq<Contents>, column: string, s: Slice)
    returns (r: Result<(seq<seq<int>>, seq<Slice>), StackError>)
    requires ContentsFit(files, contents)
    requires InStack(s, CFileSize(files))
    ensures r.Err? <==> FirstMissing(FileSizes(files), contents, column, s).Some?
    ensures r.Err? ==> r.error == MissingColumn(FirstMissing(FileSizes(files), contents, column, s).value)
    ensures r.Ok? ==> ReadState(files, contents, column, s, |files|, r.value.0, r.value.1)
  {
    ghost var flags := MissingFlags(FileSizes(files), contents, column, s);
    var tmp: seq<seq<int>> := [];
    var idx: seq<Slice> := [];
    for i := 0 to |files|
      invariant FirstTrue(flags, 0) == FirstTrue(flags, i)
      invariant ReadState(files, contents, column, s, i, tmp, idx)
    {
      var step := ReadFile(files, contents, column, s, i, tmp, idx);
      if step.Err? {
        return Err(step.error);
      }
      tmp, idx := step.value.0, step.value.1;
    }
    return Ok((tmp, idx));
  }

  /**
   * The rows of one slice (one turn of the loop of io.py:224-234): the rows
   * each file holds of it, put back in the slice's order by argsort of their
   * offsets; nothing when no file holds any.
   */
  method ReadSlice(files: seq<FileMeta>, contents: seq<Contents>, column: string, s: Slice) returns (r: Result<Option<seq<int>>, StackError>)
    requires ContentsFit(files, contents)
    requires InStack(s, CFileSize(files))
    ensures r == SlicePiece(files, contents, column, s)
  {
    var read := ReadFiles(files, contents, column, s);
    if read.Err? {
      return Err(read.error);
    }
    ReadFinish(files, contents, column, s, read.value.0, read.value.1);
    var piece := AssemblePiece(StackColumn(files, contents, column), s, read.value.0, read.value.1);
    return Ok(piece);
  }

  /**
   * The end of one turn of the loop of io.py:230-234, once every file of the
   * stack g has been read: nothing when no file held a row, otherwise the
   * rows put back in the slice's order, by argsort of their offsets for an
   * index slice and of the pieces' starts for a unit-step slice.
   */
  method AssemblePiece(g: seq<int>, s: Slice, tmp: seq<seq<int>>, idx: seq<Slice>) returns (piece: Option<seq<int>>)
    requires InStack(s, |g|)
    requires Finished(g, s, tmp, idx)
    ensures piece == if SizeOf(s) == 0 then None else Some(Gather(g, Positions(s)))
  {
    if tmp == [] {
      return None;
    }
    if s.Indices? {
      return Some(Gather(Flatten(tmp), ArgsortPermutation(Keys(idx))));
    } else {
      var order := ArgsortIncreasing(Starts(idx));
      var pieces := seq(|order|, u requires 0 <= u < |order| => tmp[order[u]]);
      assert pieces == tmp;
      return Some(Flatten(pieces));
    }
  }

  /** What the loop over the files leaves for the reassembly of io.py:230-234. */
  ghost predicate Finished(g: seq<int>, s: Slice, tmp: seq<seq<int>>, idx: seq<Slice>)
    requires InStack(s, |g|)
  {
    && (tmp == [] <==> SizeOf(s) == 0)
    && (s.Indices? ==>
          && |Flatten(tmp)| == |Keys(idx)|
          && (forall j :: 0 <= j < |Keys(idx)| ==> j in Keys(idx))
          && Gather(Flatten(tmp), ArgsortPermutation(Keys(idx))) == Gather(g, Positions(s)))
    && (s.Span? ==>
          && |tmp| == |idx|
          && (forall t :: 0 <= t < |idx| ==> idx[t].Span?)
          && StrictlyIncreasing(Starts(idx))
          && Flatten(tmp) == Gather(g, Positions(s)))
  }

  /** After the last file, the read state gives what the reassembly needs. */
  lemma {:induction false} ReadFinish(files: seq<FileMeta>, contents: seq<Contents>, column: string, s: Slice,
                   tmp: seq<seq<int>>, idx: seq<Slice>)
    requires ContentsFit(files, contents) && InStack(s, CFileSize(files))
    requires ReadState(files, contents, column, s, |files|, tmp, idx)
    ensures InStack(s, |StackColumn(files, contents, column)|)
    ensures Finished(StackColumn(files, contents, column), s, tmp, idx)
  {
    ReadFinishEmpty(files, contents, column, s, tmp, idx);
    if s.Indices? {
      ReadFinishIndices(files, contents, column, s, tmp, idx);
    } else {
      ReadFinishSpan(files, contents, column, s, tmp, idx);
    }
  }

  /** The loop over the slices of io.py:224-234: the pieces of the slices, in slice order. */
  method ReadSlices(files: seq<FileMeta>, contents: seq<Contents>, column: string, ss: seq<Slice>)
    returns (r: Result<seq<seq<int>>, StackError>)
    requires ContentsFit(files, contents)
    requires forall s :: s in ss ==> InStack(s, CFileSize(files))
    ensures r == ReadPieces(files, contents, column, ss)
  {
    var toret: seq<seq<int>> := [];
    for j := 0 to |ss|
      invariant ReadPieces(files, contents, column, ss[..j]) == Ok(toret)
    {
      assert ss[..j + 1][..j] == ss[..j];
      var piece := ReadSlice(files, contents, column, ss[j]);
      match piece {
        case Err(e) =>
          ReadPiecesErr(files, contents, column, ss, j + 1, e);
          return Err(e);
        case Ok(None) =>
        case Ok(Some(x)) =>
          toret := toret + [x];
      }
    }
    assert ss[..|ss|] == ss;
    return Ok(toret);
  }

  // ---------------------------------------------------------------------
  // The class.

  class FileStack {
    var files: seq<FileMeta>
    const rank: nat
    const nranks: nat
    var slices: Option<seq<Slice>>        // _slices
    var columnsMemo: Option<seq<string>>  // _columns
    var headerMemo: Option<map<string, Formats.Value>>  // _header

    ghost predicate Valid()
      reads this
    {
      && rank < nranks
      && (slices.Some? ==> forall s :: s in slices.value ==> InStack(s, CFileSize(files)))
    }

    /** FileStack(*files) on this rank, the files already opened (io.py:72-103). */
    constructor(files: seq<FileMeta>, rank: nat, nranks: nat)
      requires rank < nranks
      ensures Valid()
      ensures this.files == files && this.rank == rank && this.nranks == nranks
      ensures slices.None? && columnsMemo.None? && headerMemo.None?
    {
      this.files := files;
      this.rank := rank;
      this.nranks := nranks;
      slices := None;
      columnsMemo := None;
      headerMemo := None;
    }

    /** The slices property: computed once, the rank's even share of the stack's rows (io.py:123-127). */
    method Slices() returns (ss: seq<Slice>)
      requires Valid()
      modifies this
      ensures Valid()
      ensures ss == if old(slices).Some? then old(slices).value else [DefaultSlice(rank, nranks, CFileSize(files))]
      ensures slices == Some(ss)
      ensures files == old(files) && columnsMemo == old(columnsMemo) && headerMemo == old(headerMemo)
    {
      if slices.None? {
        var n := CFileSize(files);
        BoundMono(rank, rank + 1, nranks, n);
        BoundMono(rank + 1, nranks, nranks, n);
        BoundEnds(nranks, n);
        slices := Some([DefaultSlice(rank, nranks, n)]);
      }
      ss := slices.value;
    }

    /**
     * The columns property (io.py:129-135): the first file's columns that
     * every file has, computed once; with no file, [] and nothing kept.
     */
    method Columns() returns (cols: seq<string>)
      modifies this
      ensures files == old(files) && slices == old(slices) && headerMemo == old(headerMemo)
      ensures old(columnsMemo).Some? ==> cols == old(columnsMemo).value && columnsMemo == old(columnsMemo)
      ensures old(columnsMemo).None? && files == [] ==> cols == [] && columnsMemo.None?
      ensures old(columnsMemo).None? && files != [] ==> cols == CommonColumns(FileColumns(files)) && columnsMemo == Some(cols)
    {
      if columnsMemo.None? {
        if files == [] {
          return [];
        }
        columnsMemo := Some(CommonColumns(FileColumns(files)));
      }
      cols := columnsMemo.value;
    }

    /** The header property (io.py:137-143): the files' headers merged in file order, computed once. */
    method Header() returns (h: map<string, Formats.Value>)
      modifies this
      ensures files == old(files) && slices == old(slices) && columnsMemo == old(columnsMemo)
      ensures h == if old(headerMemo).Some? then old(headerMemo).value else MergeHeaders(FileHeaders(files))
      ensures headerMemo == Some(h)
    {
      if headerMemo.None? {
        var acc: map<string, Formats.Value> := map[];
        for i := 0 to |files|
          invariant acc == MergeHeaders(FileHeaders(files)[..i])
        {
          assert FileHeaders(files)[..i + 1][..i] == FileHeaders(files)[..i];
          acc := acc + files[i].header;
        }
        assert FileHeaders(files)[..|files|] == FileHeaders(files);
        headerMemo := Some(acc);
      }
      h := headerMemo.value;
    }

    /** The pieces of all the slices, the slices computed first if need be. */
    method ReadAllPieces(column: string, contents: seq<Contents>) returns (r: Result<seq<seq<int>>, StackError>)
      requires Valid() && ContentsFit(files, contents)
      modifies this
      ensures Valid()
      ensures files == old(files) && columnsMemo == old(columnsMemo) && headerMemo == old(headerMemo)
      ensures slices == Some(if old(slices).Some? then old(slices).value else [DefaultSlice(rank, nranks, CFileSize(files))])
      ensures r == ReadPieces(files, contents, column, slices.value)
    {
      var ss := Slices();
      r := ReadSlices(files, contents, column, ss);
    }

    /** FileStack.read (io.py:221-236), as written. */
    method Read(column: string, contents: seq<Contents>) returns (r: Result<seq<int>, StackError>)
      requires Valid() && ContentsFit(files, contents)
      modifies this
      ensures Valid()
      ensures files == old(files) && columnsMemo == old(columnsMemo) && headerMemo == old(headerMemo)
      ensures slices == Some(if old(slices).Some? then old(slices).value else [DefaultSlice(rank, nranks, CFileSize(files))])
      ensures r == ReadOutcome(files, contents, column, slices.value)
    {
      var pieces := ReadAllPieces(column, contents);
      match pieces {
        case Err(e) => return Err(e);
        case Ok(ps) =>
          if ps == [] {
            return Err(NothingToConcatenate);
          }
          return Ok(Flatten(ps));
      }
    }

    /** FileStack.read with an empty result, instead of an error, on a rank with no rows. */
    method ReadCorrected(column: string, contents: seq<Contents>) returns (r: Result<seq<int>, StackError>)
      requires Valid() && ContentsFit(files, contents)
      modifies this
      ensures Valid()
      ensures files == old(files) && columnsMemo == old(columnsMemo) && headerMemo == old(headerMemo)
      ensures slices == Some(if old(slices).Some? then old(slices).value else [DefaultSlice(rank, nranks, CFileSize(files))])
      ensures r == ReadOutcomeCorrected(files, contents, column, slices.value)
    {
      var pieces := ReadAllPieces(column, contents);
      match pieces {
        case Err(e) => return Err(e);
        case Ok(ps) => return Ok(Flatten(ps));
      }
    }

    /** file._csize = even share of total, for every file (io.py:255-257). */
    method ResizeFiles(total: nat)
      modifies this
      ensures files == Resized(old(files), total)
      ensures slices == old(slices) && columnsMemo == old(columnsMemo) && headerMemo == old(headerMemo)
    {
      var n := |files|;
      for i := 0 to n
        invariant |files| == n && slices == old(slices)
        invariant columnsMemo == old(columnsMemo) && headerMemo == old(headerMemo)
        invariant forall j :: 0 <= j < n ==> files[j] == if j < i then old(files)[j].(csize := Share(j, n, total)) else old(files)[j]
      {
        files := files[i := files[i].(csize := Share(i, n, total))];
      }
    }

    /**
     * FileStack.write (io.py:238-267) on this rank, which holds `data`, the
     * ranks holding rankSizes rows each: the files are resized to the even
     * split of the total, the slices are reset to the default, and the
     * method returns the rows the rank hands to each file's write.
     */
    method Write(data: seq<int>, rankSizes: seq<nat>) returns (chunks: seq<seq<int>>)
      requires Valid() && |rankSizes| == nranks && rankSizes[rank] == |data|
      modifies this
      ensures Valid()
      ensures files == Resized(old(files), Total(rankSizes))
      ensures slices == Some([DefaultSlice(rank, nranks, CFileSize(files))])
      ensures columnsMemo == old(columnsMemo) && headerMemo == old(headerMemo)
      ensures chunks == WrittenChunks(data, rankSizes, rank, |files|)
    {
      var total := Total(rankSizes);
      ResizeFiles(total);
      slices := None;
      var ss := Slices();
      ResizedSizes(old(files), total);
      chunks := FileChunks(data, CumSums(rankSizes)[rank], CumSums(FileSizes(files)), ss[0]);
    }
  }

  /** The loop over the files of io.py:261-267 for one slice: each file's chunk, in file order. */
  method FileChunks(data: seq<int>, offset: int, fc: seq<nat>, window: Slice) returns (chunks: seq<seq<int>>)
    requires |fc| >= 1 && window.Span?
    ensures chunks == ChunksOf(data, offset, fc, window)
  {
    chunks := [];
    for i := 0 to |fc| - 1
      invariant |chunks| == i && forall q :: 0 <= q < i ==> chunks[q] == Chunk(data, offset, fc[q], fc[q + 1], window)
    {
      chunks := chunks + [Chunk(data, offset, fc[i], fc[i + 1], window)];
    }
  }
}
