/**
 * The file-format registry of mpytools/io.py and the metadata each format
 * reports: get_filetype (lookup by extension or by name), the renaming done
 * by BaseFile._read_header, the group-path normalisation of HDF5File and
 * BigFile, and the header-block bookkeeping of BigFile and AsdfFile.
 */
module Formats {
  import opened Wrappers
  import opened Seqs
  import opened Columns

  // ---------------------------------------------------------------------
  // The registered classes (io.py:285-302 and the class attributes).

  datatype Format = Base | Fits | Hdf5 | Binary | BigFile | Asdf

  /** How a reader wants rows: a (start, stop, step) range or an index list. */
  datatype RowKind = SliceRows | IndexRows

  /** How a writer wants data: a dict of columns or one structured array. */
  datatype DataKind = DictData | ArrayData

  function Name(f: Format): string
  {
    match f
    case Base => "base"
    case Fits => "fits"
    case Hdf5 => "hdf5"
    case Binary => "bin"
    case BigFile => "bigfile"
    case Asdf => "asdf"
  }

  function Extensions(f: Format): seq<string>
  {
    match f
    case Base => []
    case Fits => ["fits"]
    case Hdf5 => ["hdf", "h4", "hdf4", "he2", "h5", "hdf5", "he5", "h5py"]
    case Binary => ["npy"]
    case BigFile => ["bigfile"]
    case Asdf => ["asdf"]
  }

  /** _type_read_rows */
  function ReadKinds(f: Format): seq<RowKind>
  {
    match f
    case Base => [SliceRows, IndexRows]
    case Fits => [SliceRows]
    case Hdf5 => [SliceRows, IndexRows]
    case Binary => [SliceRows, IndexRows]
    case BigFile => [SliceRows]
    case Asdf => [SliceRows]
  }

  /** _type_write_data */
  function WriteKinds(f: Format): seq<DataKind>
  {
    match f
    case Base => [DictData, ArrayData]
    case Fits => [ArrayData]
    case Hdf5 => [DictData]
    case Binary => [ArrayData]
    case BigFile => [DictData]
    case Asdf => [DictData]
  }

  /** RegisteredFile._registry.values(), in the order the classes are defined. */
  const Registry: seq<Format> := [Base, Fits, Hdf5, Binary, BigFile, Asdf]

  lemma {:induction false} RegistryComplete(f: Format)
    ensures f in Registry
  {
  }

  /** No extension is claimed by two built-in formats, so the registry order never decides a lookup. */
  lemma {:induction false} ExtensionsDisjoint(f: Format, g: Format, ext: string)
    requires ext in Extensions(f) && ext in Extensions(g)
    ensures f == g
  {
  }

  // ---------------------------------------------------------------------
  // Lookup by extension and by name.

  /** The first format of reg, in order, that claims ext. */
  function ByExtension(reg: seq<Format>, ext: string): (r: Option<Format>)
    ensures r.None? <==> forall k :: 0 <= k < |reg| ==> ext !in Extensions(reg[k])
    ensures r.Some? ==> exists k :: 0 <= k < |reg| && reg[k] == r.value && ext in Extensions(reg[k])
                                   && forall j :: 0 <= j < k ==> ext !in Extensions(reg[j])
  {
    if reg == [] then None
    else if ext in Extensions(reg[0]) then Some(reg[0])
    else
      var rest := reg[1..];
      var r := ByExtension(rest, ext);
      assert forall k :: 1 <= k < |reg| ==> reg[k] == rest[k - 1];
      if r.None? then r
      else
        var k :| 0 <= k < |rest| && rest[k] == r.value && ext in Extensions(rest[k])
                 && forall j :: 0 <= j < k ==> ext !in Extensions(rest[j]);
        assert reg[k + 1] == r.value && forall j :: 1 <= j < k + 1 ==> ext !in Extensions(reg[j]);
        r
  }

  /** RegisteredFile._registry[name]: the format registered under that name. */
  function ByName(reg: seq<Format>, name: string): (r: Option<Format>)
    ensures r.None? <==> forall k :: 0 <= k < |reg| ==> Name(reg[k]) != name
    ensures r.Some? ==> r.value in reg && Name(r.value) == name
  {
    if reg == [] then None
    else if Name(reg[0]) == name then Some(reg[0])
    else
      var r := ByName(reg[1..], name);
      assert forall k :: 1 <= k < |reg| ==> reg[k] == reg[1..][k - 1];
      r
  }

  /** Among the built-in formats a lookup by extension finds exactly the format claiming it. */
  lemma {:induction false} ByExtensionBuiltin(ext: string, f: Format)
    ensures ByExtension(Registry, ext) == Some(f) <==> ext in Extensions(f)
  {
    var r := ByExtension(Registry, ext);
    if ext in Extensions(f) {
      RegistryComplete(f);
      var k :| 0 <= k < |Registry| && Registry[k] == f;
      assert r.Some?;
      ExtensionsDisjoint(r.value, f, ext);
    }
  }

  lemma {:induction false} NameInjective(f: Format, g: Format)
    requires Name(f) == Name(g)
    ensures f == g
  {
    assert Name(f)[0] == Name(g)[0];
    if Name(f)[0] == 'b' {
      assert |Name(f)| == |Name(g)|;
    }
  }

  /** Every built-in format is found under its own name. */
  lemma {:induction false} ByNameBuiltin(f: Format)
    ensures ByName(Registry, Name(f)) == Some(f)
  {
    RegistryComplete(f);
    var r := ByName(Registry, Name(f));
    NameInjective(r.value, f);
  }

  /** ASCII lower-casing (str.lower on the names in use). */
  function Lower(s: string): (r: string)
    ensures |r| == |s|
    ensures forall i :: 0 <= i < |s| ==> (r[i] == s[i] <==> !('A' <= s[i] <= 'Z'))
    ensures forall i :: 0 <= i < |s| ==> !('A' <= r[i] <= 'Z')
    ensures forall i :: 0 <= i < |s| && 'A' <= s[i] <= 'Z' ==> r[i] as int == s[i] as int + 32
  {
    seq(|s|, i requires 0 <= i < |s| => if 'A' <= s[i] <= 'Z' then (s[i] as int + 32) as char else s[i])
  }

  lemma {:induction false} LowerIdempotent(s: string)
    ensures Lower(Lower(s)) == Lower(s)
  {
  }

  lemma {:induction false} LowerName(f: Format)
    ensures Lower(Name(f)) == Name(f)
  {
    var n := Name(f);
    assert forall i :: 0 <= i < |n| ==> !('A' <= n[i] <= 'Z');
  }

  /** n spells m with some of m's lower-case letters written as capitals. */
  ghost predicate CaseVariant(n: string, m: string)
  {
    && |n| == |m|
    && forall i :: 0 <= i < |n| ==> n[i] == m[i] || ('A' <= n[i] <= 'Z' && n[i] as int + 32 == m[i] as int)
  }

  /** get_filetype finds a format by name whatever the case: exactly the spellings of its name up to case. */
  lemma {:induction false} NameLookupIgnoresCase(f: Format, n: string)
    ensures ByName(Registry, Lower(n)) == Some(f) <==> CaseVariant(n, Name(f))
  {
    var m := Name(f);
    LowerName(f);
    assert forall i :: 0 <= i < |m| ==> !('A' <= m[i] <= 'Z');
    if CaseVariant(n, m) {
      assert Lower(n) == m;
      ByNameBuiltin(f);
    }
  }

  /** The highest index holding c, or -1. */
  function LastIndexOf(s: string, c: char): (i: int)
    ensures -1 <= i < |s|
    ensures i >= 0 ==> s[i] == c
    ensures forall j :: i < j < |s| ==> s[j] != c
  {
    if s == [] then -1 else if s[|s| - 1] == c then |s| - 1 else LastIndexOf(s[..|s| - 1], c)
  }

  /**
   * os.path.splitext(p)[1][1:] for POSIX paths: the text after the last dot of
   * the final path component, unless that component is only dots before it
   * (a leading-dot name such as '.bashrc' has no extension).
   */
  function Extension(p: string): (ext: string)
    ensures '.' !in ext && '/' !in ext
    ensures ext != [] ==> |ext| < |p| && p[|p| - |ext| - 1] == '.' && p[|p| - |ext|..] == ext
  {
    var sep := LastIndexOf(p, '/');
    var dot := LastIndexOf(p, '.');
    if dot > sep && exists j :: sep < j < dot && p[j] != '.' then p[dot + 1..] else []
  }

  /** Appending '.' + e to a name that does not end in '.' or '/' makes e its extension. */
  lemma {:induction false} ExtensionRoundTrip(stem: string, e: string)
    requires stem != [] && stem[|stem| - 1] != '.' && stem[|stem| - 1] != '/'
    requires '.' !in e && '/' !in e
    ensures Extension(stem + "." + e) == e
  {
    var p := stem + "." + e;
    var dot := LastIndexOf(p, '.');
    var sep := LastIndexOf(p, '/');
    assert p[|stem|] == '.';
    assert forall j :: |stem| < j < |p| ==> p[j] == e[j - |stem| - 1];
    assert dot == |stem|;
    assert sep < |stem| - 1 by {
      assert p[|stem| - 1] == stem[|stem| - 1];
      assert forall j :: |stem| - 1 <= j < |p| ==> p[j] != '/';
    }
    assert p[|stem| - 1] != '.';
    assert p[dot + 1..] == e;
  }

  lemma {:induction false} ExtensionOfFitsName()
    ensures Extension("catalog.fits") == "fits"
  {
    ExtensionRoundTrip("catalog", "fits");
    assert "catalog" + "." + "fits" == "catalog.fits";
  }

  /** A leading-dot name, in any directory, has no extension. */
  lemma {:induction false} ExtensionOfHiddenName(dir: string, name: string)
    requires dir == [] || dir[|dir| - 1] == '/'
    requires '.' !in name && '/' !in name
    ensures Extension(dir + "." + name) == ""
  {
    var p := dir + "." + name;
    assert p[|dir|] == '.';
    assert forall j :: |dir| < j < |p| ==> p[j] == name[j - |dir| - 1];
    assert LastIndexOf(p, '.') == |dir|;
    if dir == [] {
      assert LastIndexOf(p, '/') == -1;
    } else {
      assert p[|dir| - 1] == '/';
      assert LastIndexOf(p, '/') == |dir| - 1;
    }
  }

  /** A dot in a directory name is not an extension: a final component without a dot has none. */
  lemma {:induction false} ExtensionOfDottedDirectory(dir: string, name: string)
    requires '.' !in name && '/' !in name
    ensures Extension(dir + "/" + name) == ""
  {
    var p := dir + "/" + name;
    assert p[|dir|] == '/';
    assert forall j :: |dir| < j < |p| ==> p[j] == name[j - |dir| - 1];
    assert LastIndexOf(p, '/') == |dir|;
    assert LastIndexOf(p, '.') < |dir|;
  }

  // ---------------------------------------------------------------------
  // get_filetype (io.py:270-282).

  /** The filetype argument: None, a class name, or a class. */
  datatype FiletypeArg = NoFiletype | FiletypeName(name: string) | FiletypeClass(format: Format)

  datatype LookupError =
    | UnknownExtension(ext: string)   // IOError('Extension ... is unknown')
    | UnknownName(name: string)       // KeyError from the registry

  method GetFiletype(filetype: FiletypeArg, filename: Option<string>) returns (r: Result<Option<Format>, LookupError>)
    ensures filetype.NoFiletype? && filename.None? ==> r == Ok(None)
    ensures filetype.NoFiletype? && filename.Some? ==>
              var ext := Extension(filename.value);
              match ByExtension(Registry, ext)
              case Some(f) => r == Ok(Some(f))
              case None => r == Err(UnknownExtension(ext))
    ensures filetype.FiletypeName? ==>
              var name := Lower(filetype.name);
              match ByName(Registry, name)
              case Some(f) => r == Ok(Some(f))
              case None => r == Err(UnknownName(name))
    ensures filetype.FiletypeClass? ==> r == Ok(Some(filetype.format))
  {
    if filetype.NoFiletype? {
      if filename.None? {
        return Ok(None);
      }
      var ext := Extension(filename.value);
      for k := 0 to |Registry|
        invariant ByExtension(Registry, ext) == ByExtension(Registry[k..], ext)
      {
        if ext in Extensions(Registry[k]) {
          return Ok(Some(Registry[k]));
        }
        assert Registry[k..][1..] == Registry[k + 1..];
      }
      return Err(UnknownExtension(ext));
    }
    if filetype.FiletypeName? {
      var name := Lower(filetype.name);
      match ByName(Registry, name)
      case Some(f) => return Ok(Some(f));
      case None => return Err(UnknownName(name));
    }
    return Ok(Some(filetype.format));
  }

  // ---------------------------------------------------------------------
  // BaseFile._read_header (io.py:336-340).

  /** The Python values that appear in a header state. */
  datatype Value = Int(n: int) | Text(s: string) | List(items: seq<Value>) | Dict(entries: map<string, Value>) | Opaque

  datatype HeaderError =
    | MissingKey(key: string)   // KeyError from state.pop
    | BadValue(key: string)     // int(), list() or dict() refusing the value

  const Renamed: set<string> := {"csize", "columns", "header"}
  const Private: set<string> := {"_csize", "_columns", "_header"}

  /**
   * The state stored on the file: csize, columns and header move to
   * _csize, _columns and _header (a missing header becomes {}); every other
   * key is kept as it is.
   */
  function ReadHeader(state: map<string, Value>): (r: Result<map<string, Value>, HeaderError>)
    ensures r.Ok? <==> "csize" in state && state["csize"].Int? && "columns" in state && state["columns"].List?
                       && ("header" in state ==> state["header"].Dict?)
    ensures r.Err? && "csize" !in state ==> r.error == MissingKey("csize")
    ensures r.Err? && "csize" in state && "columns" !in state ==> r.error in {MissingKey("columns"), BadValue("csize")}
    ensures r.Ok? ==> r.value.Keys == state.Keys - Renamed + Private
    ensures r.Ok? ==> r.value["_csize"] == state["csize"] && r.value["_columns"] == state["columns"]
    ensures r.Ok? ==> r.value["_header"] == if "header" in state then state["header"] else Dict(map[])
    ensures r.Ok? ==> forall k :: k in state && k !in Renamed && k !in Private ==> r.value[k] == state[k]
  {
    if "csize" !in state then Err(MissingKey("csize"))
    else if !state["csize"].Int? then Err(BadValue("csize"))
    else if "columns" !in state then Err(MissingKey("columns"))
    else if !state["columns"].List? then Err(BadValue("columns"))
    else if "header" in state && !state["header"].Dict? then Err(BadValue("header"))
    else
      var header := if "header" in state then state["header"] else Dict(map[]);
      Ok((state - Renamed)["_csize" := state["csize"]]["_columns" := state["columns"]]["_header" := header])
  }

  /** What _read_header_root returns: csize, columns, attrs, and for FITS the extension. */
  function RootState(csize: nat, columns: seq<string>, attrs: map<string, Value>, ext: Option<Value>): map<string, Value>
  {
    var s := map["csize" := Int(csize), "columns" := List(seq(|columns|, i requires 0 <= i < |columns| => Text(columns[i]))), "attrs" := Dict(attrs)];
    if ext.Some? then s["ext" := ext.value] else s
  }

  /**
   * No format returns a 'header' key, so the header of every file is empty and
   * attrs (and ext) are kept under their own names.
   */
  lemma {:induction false} RootHeaderIsEmpty(csize: nat, columns: seq<string>, attrs: map<string, Value>, ext: Option<Value>)
    ensures var r := ReadHeader(RootState(csize, columns, attrs, ext));
            && r.Ok?
            && r.value["_header"] == Dict(map[])
            && r.value["_csize"] == Int(csize)
            && r.value["attrs"] == Dict(attrs)
            && (ext.Some? ==> r.value["ext"] == ext.value)
            && "header" !in r.value
  {
  }

  // ---------------------------------------------------------------------
  // Group paths (io.py:517-519, 645-648).

  predicate AllSlashes(g: string)
  {
    forall i :: 0 <= i < |g| ==> g[i] == '/'
  }

  /** HDF5File.group: an empty or all-slash group is the root '/'. */
  function Hdf5Group(g: string): (r: string)
  {
    if g == [] || AllSlashes(g) then "/" else g
  }

  lemma {:induction false} Hdf5GroupSpec(g: string)
    ensures Hdf5Group(g) != []
    ensures AllSlashes(g) <==> Hdf5Group(g) == "/"
    ensures !AllSlashes(g) ==> Hdf5Group(g) == g
    ensures Hdf5Group(Hdf5Group(g)) == Hdf5Group(g)
  {
    if !AllSlashes(g) {
      var i :| 0 <= i < |g| && g[i] != '/';
      assert g != "/";
    }
  }

  /** BigFile.group: normalised as for HDF5, then terminated by '/'. */
  function BigFileGroup(g: string): (r: string)
  {
    var h := Hdf5Group(g);
    if h[|h| - 1] == '/' then h else h + "/"
  }

  lemma {:induction false} BigFileGroupSpec(g: string)
    ensures var r := BigFileGroup(g);
            && r != [] && r[|r| - 1] == '/'
            && (AllSlashes(g) <==> r == "/")
            && (!AllSlashes(g) ==> r == g || r == g + "/")
            && BigFileGroup(r) == r
  {
    Hdf5GroupSpec(g);
    var r := BigFileGroup(g);
    if !AllSlashes(g) {
      var i :| 0 <= i < |g| && g[i] != '/';
      assert r[i] == g[i];
      assert !AllSlashes(r);
    }
  }

  /** str.strip('/') */
  function StripSlashes(g: string): (r: string)
    ensures |r| <= |g|
    ensures r != [] ==> r[0] != '/' && r[|r| - 1] != '/'
    ensures AllSlashes(g) ==> r == []
    decreases |g|
  {
    if g == [] then []
    else if g[0] == '/' then StripSlashes(g[1..])
    else if g[|g| - 1] == '/' then StripSlashes(g[..|g| - 1])
    else g
  }

  /** str.strip('/') keeps exactly the middle of g between a leading and a trailing run of slashes. */
  lemma {:induction false} StripSlashesMiddle(g: string) returns (i: nat, j: nat)
    ensures i <= j <= |g| && StripSlashes(g) == g[i..j]
    ensures AllSlashes(g[..i]) && AllSlashes(g[j..])
    decreases |g|
  {
    if g == [] {
      i, j := 0, 0;
    } else if g[0] == '/' {
      var i', j' := StripSlashesMiddle(g[1..]);
      i, j := StripLeading(g, i', j');
    } else if g[|g| - 1] == '/' {
      var i', j' := StripSlashesMiddle(g[..|g| - 1]);
      i, j := StripTrailing(g, i', j');
    } else {
      i, j := 0, |g|;
      assert g[0..|g|] == g;
    }
  }

  /** A leading slash moves both ends of the middle by one. */
  lemma {:induction false} StripLeading(g: string, i': nat, j': nat) returns (i: nat, j: nat)
    requires g != [] && g[0] == '/'
    requires i' <= j' <= |g| - 1 && AllSlashes(g[1..][..i']) && AllSlashes(g[1..][j'..])
    ensures i == i' + 1 && j == j' + 1 && g[i..j] == g[1..][i'..j']
    ensures AllSlashes(g[..i]) && AllSlashes(g[j..])
  {
    i, j := i' + 1, j' + 1;
    assert g[1..][j'..] == g[j..];
    assert g[1..] == g[1..|g|];
    SliceOfSlice(g, 1, |g|, i', j');
    forall k | 0 <= k < i ensures g[..i][k] == '/' {
      if k > 0 {
        assert g[..i][k] == g[1..][..i'][k - 1];
      }
    }
  }

  /** A trailing slash leaves the middle where it is. */
  lemma {:induction false} StripTrailing(g: string, i: nat, j: nat) returns (i2: nat, j2: nat)
    requires g != [] && g[|g| - 1] == '/'
    requires i <= j <= |g| - 1 && AllSlashes(g[..|g| - 1][..i]) && AllSlashes(g[..|g| - 1][j..])
    ensures i2 == i && j2 == j && g[i..j] == g[..|g| - 1][i..j]
    ensures AllSlashes(g[..i]) && AllSlashes(g[j..])
  {
    i2, j2 := i, j;
    assert g[..|g| - 1][..i] == g[..i];
    forall k | 0 <= k < |g| - j ensures g[j..][k] == '/' {
      if j + k < |g| - 1 {
        assert g[j..][k] == g[..|g| - 1][j..][k];
      }
    }
  }

  // ---------------------------------------------------------------------
  // Header blocks (io.py:652-668 for BigFile, 811-832 for AsdfFile).

  /** The header argument: None, a single block name, or a tuple or list of names. */
  datatype HeaderArg = DefaultHeaders | HeaderName(name: string) | HeaderList(names: seq<string>)

  function HeaderBlocks(arg: HeaderArg, defaults: seq<string>): seq<string>
  {
    match arg
    case DefaultHeaders => defaults
    case HeaderName(name) => [name]
    case HeaderList(names) => names
  }

  /** The blocks that are columns, each once, in order of first request. */
  function PresentOnce(blocks: seq<string>, columns: seq<string>): seq<string>
  {
    if blocks == [] then []
    else
      var h := PresentOnce(blocks[..|blocks| - 1], columns);
      var b := blocks[|blocks| - 1];
      if b in columns && b !in h then h + [b] else h
  }

  lemma {:induction false} PresentOnceSpec(blocks: seq<string>, columns: seq<string>)
    ensures Distinct(PresentOnce(blocks, columns))
    ensures forall x :: x in PresentOnce(blocks, columns) <==> x in blocks && x in columns
  {
    if blocks != [] {
      var blocks' := blocks[..|blocks| - 1];
      PresentOnceSpec(blocks', columns);
      assert blocks == blocks' + [blocks[|blocks| - 1]];
    }
  }

  /** Each f[i] is the first position at which s holds s[f[i]]. */
  ghost predicate FirstPositions(s: seq<string>, f: seq<nat>)
  {
    forall i, j :: 0 <= i < |f| && 0 <= j < f[i] < |s| ==> s[j] != s[f[i]]
  }

  /** Each header sits at the first position its block is requested. */
  lemma {:induction false} PresentOnceOrder(blocks: seq<string>, columns: seq<string>) returns (f: seq<nat>)
    ensures SubsequenceVia(PresentOnce(blocks, columns), blocks, f)
    ensures FirstPositions(blocks, f)
  {
    if blocks == [] {
      f := [];
    } else {
      var n := |blocks| - 1;
      var f' := PresentOnceOrder(blocks[..n], columns);
      PresentOnceSpec(blocks[..n], columns);
      PositionsInLonger(PresentOnce(blocks[..n], columns), blocks, n, f');
      var b := blocks[n];
      if b in columns && b !in PresentOnce(blocks[..n], columns) {
        f := PositionsAppendNew(PresentOnce(blocks[..n], columns), blocks, f');
      } else {
        f := f';
      }
    }
  }

  /** Positions found in a prefix of s are positions in s. */
  lemma {:induction false} PositionsInLonger(r: seq<string>, s: seq<string>, n: nat, f: seq<nat>)
    requires n <= |s|
    requires SubsequenceVia(r, s[..n], f) && FirstPositions(s[..n], f)
    ensures SubsequenceVia(r, s, f) && FirstPositions(s, f)
    ensures forall i :: 0 <= i < |f| ==> f[i] < n
  {
    assert forall i :: 0 <= i < |f| ==> f[i] < n && s[f[i]] == s[..n][f[i]];
    forall i, j | 0 <= i < |f| && 0 <= j < f[i] < |s| ensures s[j] != s[f[i]] {
      assert s[j] == s[..n][j];
    }
  }

  /** A last element not seen before extends the matching by its own position. */
  lemma {:induction false} PositionsAppendNew(r: seq<string>, s: seq<string>, f: seq<nat>) returns (g: seq<nat>)
    requires s != []
    requires SubsequenceVia(r, s, f) && FirstPositions(s, f)
    requires forall i :: 0 <= i < |f| ==> f[i] < |s| - 1
    requires s[|s| - 1] !in s[..|s| - 1]
    ensures g == f + [|s| - 1]
    ensures SubsequenceVia(r + [s[|s| - 1]], s, g) && FirstPositions(s, g)
  {
    var n := |s| - 1;
    g := f + [n];
    forall j | 0 <= j < n ensures s[j] != s[n] {
      assert s[j] == s[..n][j];
    }
  }

  method CollectHeaders(blocks: seq<string>, columns: seq<string>) returns (headers: seq<string>)
    ensures headers == PresentOnce(blocks, columns)
  {
    headers := [];
    for i := 0 to |blocks|
      invariant headers == PresentOnce(blocks[..i], columns)
    {
      assert blocks[..i + 1][..i] == blocks[..i];
      if blocks[i] in columns && blocks[i] !in headers {
        headers := headers + [blocks[i]];
      }
    }
    assert blocks[..|blocks|] == blocks;
  }

  /**
   * BigFile._read_header_root: the header blocks present in the file, then the
   * dataset's own attribute block; by default those headers are what is
   * excluded from the columns.
   */
  method BigFileLayout(blocks: seq<string>, group: string, header: HeaderArg, exclude: Option<Names>)
    returns (headers: seq<string>, columns: seq<string>)
    ensures headers == PresentOnce(HeaderBlocks(header, ["Header", "header", "."]), blocks) + [StripSlashes(group) + "/."]
    ensures columns == Selected(Many(blocks), None, Some(exclude.GetOr(Many(headers))))
  {
    var requested := HeaderBlocks(header, ["Header", "header", "."]);
    headers := CollectHeaders(requested, blocks);
    headers := headers + [StripSlashes(group) + "/."];
    var excl := if exclude.None? then Many(headers) else exclude.value;
    columns := SelectColumns(Many(blocks), None, Some(excl));
  }

  /**
   * With the default exclusion a BigFile column is read exactly when it is a
   * block matched by no header, headers acting as prefix patterns.
   */
  lemma {:induction false} BigFileHeadersNotColumns(blocks: seq<string>, group: string, header: HeaderArg, c: string)
    ensures var headers := PresentOnce(HeaderBlocks(header, ["Header", "header", "."]), blocks) + [StripSlashes(group) + "/."];
            c in Selected(Many(blocks), None, Some(Many(headers))) <==> c in blocks && !AnyMatch(headers, c)
  {
    var headers := PresentOnce(HeaderBlocks(header, ["Header", "header", "."]), blocks) + [StripSlashes(group) + "/."];
    SelectedMembers(Many(blocks), None, Some(Many(headers)), c);
  }

  /** So no header block of a BigFile is read as a column. */
  lemma {:induction false} BigFileHeaderNotColumn(blocks: seq<string>, group: string, header: HeaderArg, h: string)
    requires h in PresentOnce(HeaderBlocks(header, ["Header", "header", "."]), blocks) + [StripSlashes(group) + "/."]
    ensures h !in Selected(Many(blocks), None, Some(Many(PresentOnce(HeaderBlocks(header, ["Header", "header", "."]), blocks) + [StripSlashes(group) + "/."])))
  {
    var headers := PresentOnce(HeaderBlocks(header, ["Header", "header", "."]), blocks) + [StripSlashes(group) + "/."];
    var k :| 0 <= k < |headers| && headers[k] == h;
    MatchesItself(h);
    assert AnyMatch(headers, h);
    BigFileHeadersNotColumns(blocks, group, header, h);
  }

  /** The header blocks AsdfFile reads: the requested blocks present in the tree, each once. */
  function AsdfHeaders(keys: seq<string>, header: HeaderArg): seq<string>
  {
    PresentOnce(HeaderBlocks(header, ["Header", "header"]), keys)
  }

  /** The header blocks as written: with no exclude, the += on the same list adds two more. */
  function AsdfHeadersAsWritten(keys: seq<string>, header: HeaderArg, exclude: Option<seq<string>>): seq<string>
  {
    if exclude.None? then AsdfHeaders(keys, header) + ["asdf_library", "history"] else AsdfHeaders(keys, header)
  }

  /**
   * AsdfFile._read_header_root as written: `exclude += [...]` extends the list
   * in place, and when no exclude was given that list is headers itself, so
   * 'asdf_library' and 'history' become header blocks whose entries are copied
   * into attrs. A given exclude list is the caller's own list and grows on
   * every call (newExclude).
   */
  method AsdfLayout(keys: seq<string>, header: HeaderArg, exclude: Option<seq<string>>)
    returns (headers: seq<string>, columns: seq<string>, newExclude: Option<seq<string>>)
    ensures headers == AsdfHeadersAsWritten(keys, header, exclude)
    ensures newExclude == if exclude.None? then None else Some(exclude.value + ["asdf_library", "history"])
    ensures columns == Selected(Many(keys), None, Some(Many(if exclude.None? then headers else exclude.value + ["asdf_library", "history"])))
  {
    var requested := HeaderBlocks(header, ["Header", "header"]);
    headers := CollectHeaders(requested, keys);
    var excl: seq<string>;
    if exclude.None? {
      // exclude is headers: the in-place += extends both
      headers := headers + ["asdf_library", "history"];
      excl := headers;
      newExclude := None;
    } else {
      excl := exclude.value + ["asdf_library", "history"];
      newExclude := Some(excl);
    }
    columns := SelectColumns(Many(keys), None, Some(Many(excl)));
  }

  /** The corrected layout: the exclusion list is a new list, headers are only header blocks. */
  method AsdfLayoutCorrected(keys: seq<string>, header: HeaderArg, exclude: Option<seq<string>>)
    returns (headers: seq<string>, columns: seq<string>)
    ensures headers == AsdfHeaders(keys, header)
    ensures columns == Selected(Many(keys), None, Some(Many(exclude.GetOr(headers) + ["asdf_library", "history"])))
  {
    var requested := HeaderBlocks(header, ["Header", "header"]);
    headers := CollectHeaders(requested, keys);
    var excl := exclude.GetOr(headers) + ["asdf_library", "history"];
    columns := SelectColumns(Many(keys), None, Some(Many(excl)));
  }

  /**
   * As written, with no exclude, 'asdf_library' becomes a header block
   * although no header argument that omits it asks for it, so the as-written
   * headers are never the requested ones.
   */
  lemma {:induction false} AsdfLibraryBecomesHeader(keys: seq<string>, header: HeaderArg)
    requires "asdf_library" !in HeaderBlocks(header, ["Header", "header"])
    ensures "asdf_library" in AsdfHeadersAsWritten(keys, header, None)
    ensures "asdf_library" !in AsdfHeaders(keys, header)
    ensures AsdfHeadersAsWritten(keys, header, None) != AsdfHeaders(keys, header)
  {
    PresentOnceSpec(HeaderBlocks(header, ["Header", "header"]), keys);
    assert AsdfHeadersAsWritten(keys, header, None)[|AsdfHeaders(keys, header)|] == "asdf_library";
  }

  /** Corrected: every header block is a requested block present in the file. */
  lemma {:induction false} AsdfCorrectedHeadersRequested(keys: seq<string>, header: HeaderArg, x: string)
    ensures x in AsdfHeaders(keys, header) <==> x in HeaderBlocks(header, ["Header", "header"]) && x in keys
  {
    PresentOnceSpec(HeaderBlocks(header, ["Header", "header"]), keys);
  }
}
