# mpytools catalogue I/O, modelled in Dafny

This project models the catalogue input/output layer of mpytools
(`mpytools/io.py`). A `FileStack` shows several catalogue files as one
table: the rows of the files laid end to end in file order. The table is
split among the MPI ranks. Each rank reads its own rows of a column and
writes its own part of new data. A registry of file formats decides how
a file is read and written: FITS, HDF5, NumPy binary, BigFile and ASDF.

The model is that of one rank. The other ranks' row counts (an MPI
`allgather`) and the column contents of the files on disk are parameters.
The modules are:

- `Wrappers`: `Option` and `Result`.
- `Seqs`: concatenation (`Flatten`), index gathering (`Gather`, numpy's
  `col[idx]`) and the small sequence facts the proofs use.
- `Arith`: floor-division facts.
- `Partition`: the even split of a row count among ranks or files, the
  prefix-sum offset tables, worker slices, `Slice.find` and `np.argsort`.
  It also holds the parallel write of rank windows into one shared array.
- `Columns`: `_select_columns` with its glob-to-regex patterns, the columns
  common to all files, and the header merge.
- `Formats`: the format registry and `get_filetype`, the
  `_read_header` renaming, group-path normalisation, and the header-block
  bookkeeping of BigFile and ASDF.
- `Readers`: how each format's `_read_rows` turns a row selection into
  rows, and how `BaseFile.read`/`write` choose a representation the format
  supports.
- `Stack`: the `FileStack` class with its `slices`, `columns`, `header`,
  `read` and `write`.

## Model

| member | source | states |
|---|---|---|
| Partition.BoundMono | mpytools/io.py:126 | The even-split boundary `i * total // n` does not decrease in `i`. |
| Partition.BoundEnds | mpytools/io.py:126 | The split starts at row 0 and ends at `total`. |
| Partition.EvenBounds | mpytools/io.py:257 | The n + 1 boundaries of the even split are monotone from 0 to `total`. |
| Partition.ShareIsFloorOrCeil | mpytools/io.py:257 | Each file's new size is the floor or the ceiling of `total / n`. |
| Partition.SharesBalanced | mpytools/io.py:257 | Two file sizes of the same split differ by at most one row. |
| Partition.CumSums | mpytools/io.py:147 | `np.cumsum([0] + sizes)`: starts at 0, and each entry adds the next size. |
| Partition.CumSumsMonotone | mpytools/io.py:147 | The file offset table is monotone. |
| Partition.CumSumsLast | mpytools/io.py:119-121 | The last offset is the sum of the sizes (`cfilesize`). |
| Partition.CumSumsPrefix | mpytools/io.py:259-260 | The offsets of a prefix of the sizes are a prefix of the offsets. |
| Partition.FlattenPiece | mpytools/io.py:147-150 | Piece i of a concatenation sits exactly between offsets i and i + 1. |
| Partition.EvenSizesCumSums | mpytools/io.py:256-259 | The offsets of the resized files are the even-split boundaries. |
| Partition.EvenSizesSum | mpytools/io.py:254-257 | The resized files hold exactly the `csize` rows being written. |
| Partition.TilesConcat | mpytools/io.py:148-150 | The windows between monotone boundaries enumerate the whole range once, in order. |
| Partition.TilesOwner | mpytools/io.py:148-150 | Every row of the range lies in some window. |
| Partition.CutsConcat | mpytools/io.py:147-150 | A column cut at monotone boundaries concatenates back to the cut span. |
| Partition.Shift | mpytools/io.py:264 | `Slice.shift` moves every position by `delta` and keeps the count. |
| Partition.DefaultSlicesTile | mpytools/io.py:123-127 | The default slices of all ranks, in rank order, enumerate the stack's rows once, in order. |
| Partition.DefaultSliceOwnerExists | mpytools/io.py:123-127 | Every row of the stack belongs to some rank's default slice. |
| Partition.DefaultSliceOwnerUnique | mpytools/io.py:123-127 | No row belongs to two ranks' default slices. |
| Partition.DefaultSliceBalanced | mpytools/io.py:123-127 | Each default slice holds the floor or ceiling of `total / p` rows, and two ranks differ by at most one. |
| Partition.OffsetIsWindowStart | mpytools/io.py:729-730 | BigFile's offset (the sum of the lower ranks' lengths) is the start of the rank's window `[cumsizes[r], cumsizes[r+1])`. |
| Partition.WriteWindowsTile | mpytools/io.py:557-558 | The write windows of all ranks tile `[0, csize)` once, in rank order. |
| Partition.WriteWindowInto | mpytools/io.py:566 | `dset[start:stop] = data` overwrites the window and leaves every other row untouched. |
| Partition.PlaceWindows | mpytools/io.py:557-566 | After every rank writes its window, the dataset is the ranks' data laid end to end in rank order. |
| Partition.Hits | mpytools/io.py:150 | The indices of an index list falling in `[lo, hi)`: all of them, ascending, and only those. |
| Partition.FindSpec | mpytools/io.py:150 | `find` returns the slice's rows in the file window, relative to its start, and their offsets in the slice: ascending, complete, and consistent with the positions. |
| Partition.ArgsortPermutation | mpytools/io.py:232 | `np.argsort` of offsets forming a permutation lists, at place j, the index holding offset j. |
| Partition.ArgsortPermutationSorts | mpytools/io.py:232 | That order lists every index once with the keys ascending, as `np.argsort` does. |
| Partition.ArgsortIncreasingSorts | mpytools/io.py:234 | `np.argsort` of ascending starts is the identity order. |
| Partition.PermutationLength | mpytools/io.py:232 | Distinct offsets below n that cover every j < n number exactly n. |
| Columns.MatchesAtStartSpec | mpytools/io.py:16-17 | `re.match(toregex(pat), name)` succeeds exactly when the pattern matches some prefix of the name. |
| Columns.MatchKeepsExtensions | mpytools/io.py:29 | With no end anchor, a pattern that matches a name also matches every extension of it. |
| Columns.MatchesItself | mpytools/io.py:16-17 | Every pattern matches its own text. |
| Columns.DotIsLiteral | mpytools/io.py:17 | A '.' in a pattern with no '*' before it matches only a '.' at the same place in the name, never another character. |
| Columns.FilterMembers | mpytools/io.py:28-30 | An element survives the filter exactly when it is in the input and kept. |
| Columns.FilterEmbedding | mpytools/io.py:28-30 | The filter keeps the input's relative order. |
| Columns.SelectColumns | mpytools/io.py:14-41 | The loops produce exactly the selection `Selected`. |
| Columns.SelectedMembers | mpytools/io.py:24-39 | A column is selected exactly when it is an input column, some include pattern matches it (when given), and no exclude pattern does (when given). |
| Columns.SelectedIsSubsequence | mpytools/io.py:22-41 | The selection is a subsequence of the input columns. |
| Columns.SelectedNoFilter | mpytools/io.py:19-22 | With neither include nor exclude, the columns come back as given, a single name wrapped in a list. |
| Columns.CommonColumnsMembers | mpytools/io.py:129-135 | A column is common exactly when there are files and every file has it. |
| Columns.CommonColumnsOrder | mpytools/io.py:134 | The common columns keep the first file's order. |
| Columns.MergeHeadersLastWins | mpytools/io.py:137-143 | A key is in the merged header exactly when some file has it, and its value is that of the last such file. |
| Formats.RegistryComplete | mpytools/io.py:285-292 | Every format class is in the registry. |
| Formats.ExtensionsDisjoint | mpytools/io.py:274-277 | No extension is claimed by two built-in formats (io.py:421, 496, 590, 621, 787), so registry order never decides a lookup. |
| Formats.ByExtension | mpytools/io.py:275-277 | The lookup returns the first format, in registry order, that claims the extension, and none when none does. |
| Formats.ByName | mpytools/io.py:280 | The lookup returns a registered format of that name, and none when there is none. |
| Formats.ByExtensionBuiltin | mpytools/io.py:275-277 | Among the built-in formats, a lookup by extension finds a format exactly when that format claims the extension. |
| Formats.NameInjective | mpytools/io.py:291 | No two formats share a registry name. |
| Formats.ByNameBuiltin | mpytools/io.py:280 | Every built-in format is found under its own name. |
| Formats.Lower | mpytools/io.py:280 | Lower-casing keeps the length, turns each ASCII upper-case letter into its lower-case letter, changes nothing else, and leaves no capital. |
| Formats.NameLookupIgnoresCase | mpytools/io.py:280 | A filetype name finds format f exactly when it spells f's registry name, some letters possibly in capitals. |
| Formats.LowerIdempotent | mpytools/io.py:280 | Lower-casing twice is lower-casing once. |
| Formats.LowerName | mpytools/io.py:280 | Every registry name is already lower case, so a lookup by its own name succeeds. |
| Formats.LastIndexOf | mpytools/io.py:274 | The last position of a character, or -1 when it is absent. |
| Formats.Extension | mpytools/io.py:274 | The extension has no dot or slash, and it is the text after the last dot of the name. |
| Formats.ExtensionRoundTrip | mpytools/io.py:274 | Appending '.' + e to a stem gives back e as the extension. |
| Formats.ExtensionOfFitsName | mpytools/io.py:274 | 'catalog.fits' has the extension 'fits'. |
| Formats.ExtensionOfHiddenName | mpytools/io.py:274 | A leading-dot file name with no other dot, in any directory, has no extension. |
| Formats.ExtensionOfDottedDirectory | mpytools/io.py:274 | A final path component without a dot has no extension, whatever dots its directories hold. |
| Formats.GetFiletype | mpytools/io.py:270-282 | With no filetype, the format is looked up by the file's extension, and an unknown extension is an error. A name is looked up lower-cased, and an unknown name is an error. A class is returned as it is. |
| Formats.ReadHeader | mpytools/io.py:332-341 | csize, columns and header move to `_csize`, `_columns` and `_header`, a missing header becoming `{}`. Every other key is kept. A missing required key is an error, and so is a value that is not already an integer, a list or a dict (the conversions are modelled as type tests). |
| Formats.RootHeaderIsEmpty | mpytools/io.py:332-341 | No format's `_read_header_root` (io.py:465, 530, 596, 685, 847) returns a 'header' key, so every file's header is empty and attrs are kept under their own name. |
| Formats.Hdf5GroupSpec | mpytools/io.py:517-519 | An empty or all-slash group becomes '/', any other group is kept, and normalising twice is normalising once. |
| Formats.BigFileGroupSpec | mpytools/io.py:645-648 | The group is normalised as for HDF5 and ends in '/', and normalising twice is normalising once. |
| Formats.StripSlashes | mpytools/io.py:663 | `str.strip('/')` leaves no slash at either end and empties an all-slash string. |
| Formats.StripSlashesMiddle | mpytools/io.py:663 | `str.strip('/')` is the part of the group between a leading run of slashes and a trailing run of slashes. |
| Formats.PresentOnceSpec | mpytools/io.py:659-661 | The headers are the requested blocks present in the file, each once. |
| Formats.PresentOnceOrder | mpytools/io.py:659-661 | Each header sits at the first position its block is requested. |
| Formats.CollectHeaders | mpytools/io.py:659-661 | The loop collects exactly `PresentOnce`. |
| Formats.BigFileLayout | mpytools/io.py:653-670 | The headers are the present requested blocks, then the group's own block. The columns are the blocks minus the exclusion, which defaults to the headers. |
| Formats.BigFileHeadersNotColumns | mpytools/io.py:665-670 | With the default exclusion, a block is read as a column exactly when no header matches it. Headers act as prefix patterns, so a header 'header' also drops a column 'header_x'. |
| Formats.BigFileHeaderNotColumn | mpytools/io.py:665-670 | With the default exclusion, no header block of a BigFile is read as a column. |
| Formats.AsdfLayout | mpytools/io.py:816-832 | As written: with no exclude, 'asdf_library' and 'history' are appended to the headers themselves. A given exclude list grows on every call. |
| Formats.AsdfLayoutCorrected | mpytools/io.py:816-832 | The headers are only the present requested blocks. The exclusion is a new list. |
| Formats.AsdfLibraryBecomesHeader | mpytools/io.py:826-830 | As written, with no exclude, 'asdf_library' is a header block whenever the header argument does not name it. The requested headers then never hold it, so the two lists differ. |
| Formats.AsdfCorrectedHeadersRequested | mpytools/io.py:820-825 | Corrected, a block is a header exactly when it is requested and present. |
| Readers.RangeSeqClosedForm | mpytools/io.py:472 | `range(a, b, s)` is the arithmetic progression from a by s with `len(range(a, b, s))` terms. |
| Readers.ReverseProgression | mpytools/io.py:540 | A progression read backwards is the progression down from its last term, and only that one. |
| Readers.RangeSeqWithin | mpytools/io.py:472 | Every element of a range lies between its ends. |
| Readers.RangeSeqUnit | mpytools/io.py:472 | A unit-step range is the interval `[a, b)`. |
| Readers.PositionsInRange | mpytools/io.py:363 | Every row of a normalised selection is a row of the file. |
| Readers.NumpyBound | mpytools/io.py:599 | numpy resolves a slice bound into [0, n] for a positive step and into [-1, n - 1] for a negative one. |
| Readers.NumpyRows | mpytools/io.py:599 | The rows numpy's `col[start:stop:step]` reads all exist. |
| Readers.NumpyTakeOfNormalised | mpytools/io.py:852 | On a normalised selection, numpy's indexing in the binary and ASDF readers reads exactly the selected rows. |
| Readers.NumpyWrapsMinusOne | mpytools/io.py:599 | numpy reads a stop of -1 as the last row, so `range(1, -1, -1)` and `col[1:-1:-1]` differ. Normalised bounds are therefore non-negative. |
| Readers.Reverse | mpytools/io.py:540 | `x[::-1]` holds x's elements in reverse order. |
| Readers.StrideFwdRange | mpytools/io.py:473 | `col[a:b][::s]` reads the rows of `range(a, b, s)`. |
| Readers.StrideBackRange | mpytools/io.py:473 | `col[lo:hi][::s]` with s < 0 reads the rows of `range(hi - 1, lo - 1, s)`. |
| Readers.ForwardThenStrideReadsRange | mpytools/io.py:467-473 | FITS, and BigFile at io.py:687-693, read the rows between the range's ends and then stride. This gives exactly `range(start, stop, step)`, negative steps included. |
| Readers.Hdf5RangeReadPositions | mpytools/io.py:533-541 | The HDF5 range read, as written, gathers the rows of `Hdf5RangePositions`. |
| Readers.Hdf5ReversalAgreesIff | mpytools/io.py:537-540 | Reversing `range(st + 1, start + 1, m)` gives `range(start, st, -m)` exactly when the range is empty or m divides `start - st - 1`. |
| Readers.Hdf5UnitStepAgrees | mpytools/io.py:537-540 | A step of -1 is always read correctly. |
| Readers.Hdf5RangeReadAligned | mpytools/io.py:533-541 | The HDF5 read, as written, reads exactly the selection when the stride is aligned. |
| Readers.Hdf5StridedMisread | mpytools/io.py:537-540 | `rows[1::-2]` of a two-row column should be row 1, but the HDF5 reader returns row 0. |
| Readers.Hdf5RangeReadCorrected | mpytools/io.py:533-541 | Starting the forward read at the lowest row of the intended range reads exactly the selection. |
| Readers.LowestRow | mpytools/io.py:538-539 | The lowest row of `range(start, st, -m)` lies in `(st, start]`, or is `st + 1` when the range is empty. |
| Readers.LowestOfRange | mpytools/io.py:538-540 | `range(start, st, -m)` is `range(lo, start + 1, m)` reversed, for lo its lowest row. |
| Readers.InsertSorted | mpytools/io.py:542 | Inserting into an ascending list keeps it ascending and adds exactly the new value. |
| Readers.Unique | mpytools/io.py:542 | `np.unique` gives the distinct indices, ascending. |
| Readers.Inverse | mpytools/io.py:542 | `return_inverse` gives, for each index, its place in the unique list. |
| Readers.Hdf5IndexReadCorrect | mpytools/io.py:542-543 | Reading the distinct rows, then permuting by the inverse, gives `col[idx]`. |
| Readers.ToSlices | mpytools/io.py:366-367 | `Slice.to_slices` of an index list gives non-empty unit-step runs. |
| Readers.AddRow | mpytools/io.py:366-367 | Adding a row keeps every run non-empty and unit-step. |
| Readers.ToSlicesPositions | mpytools/io.py:366-367 | The runs read back the index list, in order. |
| Readers.ReadPlanSupported | mpytools/io.py:363-370 | Every selection handed to `_read_rows` is of a kind the format declares, and together they read the same rows. |
| Readers.ReadPlanNormalised | mpytools/io.py:363-370 | Every selection handed to `_read_rows` stays inside the file. |
| Readers.ReadAllGather | mpytools/io.py:370-371 | Concatenating correct per-selection reads gives the rows of all the selections, in order. |
| Readers.FileReadSelects | mpytools/io.py:361-372 | Every built-in format reads exactly the selected rows, in order. The exceptions are an unaligned HDF5 stride and an empty index list split into ranges. |
| Readers.ReadRowsSelects | mpytools/io.py:361-372 | Each `_read_rows` that read calls (io.py:467-473, 532-543, 598-599, 687-693, 849-852) reads a selection of a kind it declares correctly, HDF5 ranges when aligned. |
| Readers.FileReadBase | mpytools/io.py:399-400 | The base class cannot read rows. |
| Readers.WriteShapeSupported | mpytools/io.py:386-393 | Every format gets data in a shape it declares, and data already in such a shape is not converted. |
| Stack.FileSizes | mpytools/io.py:115-117 | `filesizes` lists each file's `csize`, in file order. |
| Stack.FileColumnsOf | mpytools/io.py:115-117 | Each file's column has that file's row count. |
| Stack.StackColumn | mpytools/io.py:119-121 | The stacked column has `cfilesize` rows. |
| Stack.StackColumnCuts | mpytools/io.py:145-150 | File i's column is the stacked column between offsets i and i + 1. |
| Stack.FileSlices | mpytools/io.py:145-150 | `fileslices` yields one (rows, offsets) pair per file. |
| Stack.FileSlicesSpec | mpytools/io.py:145-150 | File i's pair holds the slice's rows inside the file, relative to its start, and their offsets in the slice. |
| Stack.FirstMissingSpec | mpytools/io.py:226-228 | The first failing file holds some of the slice's rows and lacks the column, and every file before it that holds rows has the column. There is none exactly when every file holding rows has the column. |
| Stack.SlicePiece | mpytools/io.py:224-234 | One slice fails exactly when a file holding some of its rows lacks the column. Otherwise it gives nothing exactly when the slice is empty. |
| Stack.AssembleStep | mpytools/io.py:226-229 | Reading one more file keeps the reassembly state: every row read is the stack's row at its offset, each offset is read once, and unit-step offsets ascend. |
| Stack.AscendingIdentity | mpytools/io.py:234 | Ascending offsets, each below their count, are 0, 1, 2, .... |
| Stack.FinishIndices | mpytools/io.py:231-232 | For an index slice, argsort of the offsets puts the rows read back in the slice's order. |
| Stack.FinishSpan | mpytools/io.py:233-234 | For a unit-step slice, the pieces in file order are already the slice's rows. |
| Stack.AddPiece | mpytools/io.py:229-234 | A slice's piece is appended when it has rows, skipped when it has none, and the first error is kept. |
| Stack.ReadPiecesOk | mpytools/io.py:224-234 | Reading the slices fails exactly when, for some slice, a file holding some of its rows lacks the column. |
| Stack.ReadPiecesRows | mpytools/io.py:224-235 | Otherwise the pieces concatenate to the stack's rows at the positions of all the slices, in slice order. |
| Stack.ReadPiecesNone | mpytools/io.py:230-235 | There is no piece exactly when the slices have no position at all. |
| Stack.ReadEmptyRank | mpytools/io.py:235 | The read as written fails on a rank with no rows, exactly where the corrected read returns an empty column. |
| Stack.EmptyRankReadFails | mpytools/io.py:235 | One file of one row read by rank 0 of 2: the default slice is empty and `read` raises. The corrected read gives `[]`. |
| Stack.DefaultSlices | mpytools/io.py:125-127 | Rank r's default slice is the r-th of p even slices of the stack's rows. |
| Stack.DefaultSlicesInStack | mpytools/io.py:125-127 | Every rank's default slice lies inside the stack. |
| Stack.DefaultSlicesPositions | mpytools/io.py:125-127 | The ranks' default slices, end to end in rank order, enumerate the stack's rows once and in order. |
| Stack.NoMissingWhenAllHave | mpytools/io.py:221-236 | When every file has the column, no slice's read meets a file without it. |
| Stack.DefaultReadsCoverStack | mpytools/io.py:221-236 | When every file has the column, every rank's read of its default slice succeeds. The reads, laid end to end in rank order, are exactly the stack's whole column. |
| Stack.MergeEmptyHeaders | mpytools/io.py:137-143 | Files with empty headers give an empty stack header. |
| Stack.PyIndex | mpytools/io.py:267 | Python's slice bound is clipped to `[0, n]` and is unchanged when already inside. |
| Stack.PySliceRows | mpytools/io.py:267 | `data[x:y]` with bounds inside the list is the subsequence between them. |
| Stack.Resized | mpytools/io.py:255-257 | Resizing keeps the number of files. |
| Stack.ResizedSizes | mpytools/io.py:255-257 | The new sizes are the even split and add up to the total. Columns and headers are unchanged. |
| Stack.ChunksOf | mpytools/io.py:261-267 | One chunk per file. |
| Stack.Chunks | mpytools/io.py:259-267 | One chunk per file, the files cut at the even split. |
| Stack.RankChunks | mpytools/io.py:261-267 | One chunk per file for each rank. |
| Stack.PieceChunk | mpytools/io.py:262-267 | A rank writing its own window puts into file i exactly the stack's rows of its window clamped to the file's. |
| Stack.ClampedCutsConcat | mpytools/io.py:259-267 | Pieces between monotone boundaries, clamped to `[lo, hi)`, concatenate to the rows `[lo, hi)`. |
| Stack.CorrectedFileContent | mpytools/io.py:238-267 | With the correction, each file holds exactly its window of the data being written: the ranks' rows end to end, cut at the new file offsets. |
| Stack.WrittenIsCorrectedWhenBalanced | mpytools/io.py:258-267 | When every rank holds exactly its default share, the write as written equals the corrected one. |
| Stack.UnbalancedWriteLosesRows | mpytools/io.py:258-267 | Ranks holding 1 and 3 rows write one file: as written, row 1 is lost and the file gets `[10, 12, 13]`. |
| Stack.UnbalancedWriteCorrected | mpytools/io.py:258-267 | With the correction, the same file holds all four rows in order. |
| Stack.ReadStep | mpytools/io.py:226-229 | One turn of the per-file loop keeps the read state. |
| Stack.ReadFinishEmpty | mpytools/io.py:230 | After the last file, nothing was read exactly when the slice is empty. |
| Stack.ReadFinishIndices | mpytools/io.py:231-232 | For an index slice, the argsorted rows are the stack's rows at the slice's positions. |
| Stack.ReadFinishSpan | mpytools/io.py:233-234 | For a unit-step slice, the rows read in file order are the stack's rows of the slice. |
| Stack.ReadFile | mpytools/io.py:226-229 | One file fails exactly when it holds some of the slice's rows and lacks the column. Otherwise the read state advances past it. |
| Stack.FileReadOfFoundRows | mpytools/io.py:226-228 | For every format but the base class, a file's read of the non-empty rows found in it is exactly those rows in order, the read `ReadFile` takes. |
| Stack.ReadFiles | mpytools/io.py:225-229 | The loop fails at the first file holding some rows and lacking the column, and fails only then. Otherwise it ends with every file's rows and offsets. |
| Stack.ReadSlice | mpytools/io.py:224-234 | One slice's loop computes `SlicePiece`. |
| Stack.ReadFinish | mpytools/io.py:230-234 | After the last file, nothing was read exactly when the slice is empty. The rows read, put back in order by argsort of the offsets (index slice) or taken in file order (unit-step slice), are the stack's rows at the slice's positions. |
| Stack.AssemblePiece | mpytools/io.py:230-234 | The reassembly gives nothing for an empty slice, and otherwise the stack's rows at the slice's positions, in the slice's order. |
| Stack.ReadSlices | mpytools/io.py:222-234 | The loop over the slices computes `ReadPieces`. |
| Stack.FileStack.constructor | mpytools/io.py:72-103 | A new stack holds the given files and no memoised slices, columns or header. |
| Stack.FileStack.Slices | mpytools/io.py:123-127 | The slices are computed once, as the rank's default slice, and kept. |
| Stack.FileStack.Columns | mpytools/io.py:129-135 | The common columns are computed once and kept. With no file the result is `[]` and nothing is kept. |
| Stack.FileStack.Header | mpytools/io.py:137-143 | The merged header is computed once and kept. |
| Stack.FileStack.ReadAllPieces | mpytools/io.py:221-234 | The slices are settled, then the pieces of all of them are read. |
| Stack.FileStack.Read | mpytools/io.py:221-236 | `read` as written returns `ReadOutcome`, and only the slices memo changes. |
| Stack.FileStack.ReadCorrected | mpytools/io.py:221-236 | The corrected read returns `ReadOutcomeCorrected`. |
| Stack.FileStack.ResizeFiles | mpytools/io.py:255-257 | Every file's size is reset to its even share, and nothing else changes. |
| Stack.FileStack.Write | mpytools/io.py:238-267 | The files are resized and the slices reset to the default. The rank hands each file the chunk `WrittenChunks` gives. |
| Stack.FileChunks | mpytools/io.py:261-267 | The loop over the files computes `ChunksOf`. |

## Left out

- MPI itself is not modelled: communicators, `bcast`, `scatter_array`, `gather_array`, `allreduce`, `allgather` and `Barrier`. The other ranks' sizes are parameters, and every collective is assumed to agree. The `mpicomm` identity check at io.py:99-101 and `is_mpi_root` are left out.
- Physical file access is left out: `fitsio`, `h5py`, `open_memmap`, `bigfile`, `asdf`, file creation and `utils.mkdir`. A file's column contents are a parameter. Each format's `_write_data` is modelled only through the rows it places (`PlaceWindows`).
- Logging and the HDF5 driver fallback (`mpio` or not) are left out.
- mpytools/array.py, which defines `Slice`, is not part of this model. Its behaviour is stated from its uses in io.py: `find`, `shift`, `to_slices`, `idx`, `size`, and normalisation against a file size. `Slice(rows, size=...)` normalisation is a precondition (`Normalised`). It keeps every bound non-negative, and a stop of None stands for "down to row 0".
- `FileStack.cslice`, `concatenate`, `extend`, `size` and `csize` are not modelled. They are bookkeeping around `Slice` objects that this model does not include.
- The glob patterns are modelled only for the characters `toregex` produces ('.' literal, '*' as `(.*)`). Other regex metacharacters in a column name are taken literally.
- `utils.is_sequence` is modelled as the `One`/`Many` choice of the argument.
- JSON decoding of header attributes, `np.array` copies of attributes, `_ColumnWrapper`, `_dict_to_array` and dtype conversions are left out. Column values are integers.
- `FileStack.write` with dict data writes every column through the same row windows. The model writes one column.
- The ASDF reader's handling of an `exclude` given as a tuple or string (`+=` on those) is left out. Only a list exclude is modelled.
- `Stack.FileStack.Read`: requires every slice position to be a row of the stack, which the memoised slices always are.
- `Stack.FileStack.Write`: requires this rank's entry of the gathered sizes to be its own data length, which `allgather` guarantees.
- After a write, the files' memoised columns and headers, and the FITS and HDF5 "file just written" race described in their docstrings, are left out.
- `get_filetype` with a filetype name absent from the registry raises `KeyError`. It is modelled as an error value.
- The HDF5 check that all columns have the same length (io.py:525-528) is left out.
- The FITS extension validation (io.py:445-465) is left out.
- Formats.ReadHeader: `int()`, `list()` and `dict()` (io.py:337-339) convert their argument, and the model treats each as a type test. A float or numeric-string csize, a non-list iterable of columns, or a list of pairs as the header is an error in the model. The states the formats' `_read_header_root` returns are modelled with values of the tested types, FITS's tuple of column names (io.py:465) as a list (`RootHeaderIsEmpty`), so no modelled read is affected.
- Stack.ReadFile: each file's read of its found rows is taken to be exact. `FileReadOfFoundRows` proves this for every format except the base class, whose read raises `NotImplementedError` (io.py:399-400); a stack of base-class files is not modelled.
- Formats.Lower: lower-cases ASCII letters only, where Python's `str.lower` also lower-cases other Unicode letters. The registry names are ASCII and hold no 'k', the one ASCII letter that a lone non-ASCII character (the Kelvin sign) lower-cases to, so which format is found does not change. Only the text carried by an unknown-name error can differ.

## Findings

| source | as written | input that shows it | evidently intended | confidence | as-written member | corrected member |
|---|---|---|---|---|---|---|
| mpytools/io.py:537-540 | A negative step reads `range(stop + 1, start + 1, abs(step))` forwards and reverses it. | `rows = slice(1, None, -2)` on a two-row column: the read returns row 0 instead of row 1. | Start the forward read at the lowest row of `range(start, stop, step)`. | not executed | Readers.Hdf5StridedMisread | Readers.Hdf5RangeReadCorrected |
| mpytools/io.py:258-267 | After resetting `_slices`, each rank writes the rows of its default slice, shifted by its own data offset. | Two ranks holding 1 and 3 rows, one file: rank 0 writes only row 0, rank 1 writes rows 2-3, and row 1 is lost. | Each rank writes its own rows `[cumsizes[r], cumsizes[r+1])`. | not executed | Stack.UnbalancedWriteLosesRows | Stack.CorrectedFileContent |
| mpytools/io.py:235 | `np.concatenate(toret, ..., dtype=toret[0].dtype)` raises `IndexError` when the rank has no rows. | One file of one row, two ranks: rank 0's default slice is empty. | Return an empty column. | not executed | Stack.EmptyRankReadFails | Stack.ReadEmptyRank |
| mpytools/io.py:826-830 | With no exclude, `exclude` is `headers` itself, so `exclude += [...]` adds 'asdf_library' and 'history' to the headers. A given exclude list grows on every call. | Any ASDF tree read with no exclude and the default header argument: 'asdf_library' becomes a header block. | Exclude a new list, and leave the headers as the requested blocks. | not executed | Formats.AsdfLibraryBecomesHeader | Formats.AsdfCorrectedHeadersRequested |
