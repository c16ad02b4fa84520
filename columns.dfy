/**
 * Column and header bookkeeping of mpytools/io.py: the glob-style
 * includes/excludes filter _select_columns, the column set of a FileStack
 * (columns present in every file, in the first file's order) and the
 * left-to-right merge of file headers.
 */
module Columns {
  import opened Wrappers
  import opened Seqs

  // ---------------------------------------------------------------------
  // Glob patterns as _select_columns turns them into regular expressions.

  /**
   * re.match(toregex(pat), name) (io.py:16-17, 29, 38): '.' is escaped to a
   * literal dot, '*' becomes '(.*)', every other character stands for itself,
   * and the match is anchored at the start of name only. The '.' of '(.*)'
   * matches any character except a newline (no re.DOTALL).
   */
  function MatchesAtStart(pat: string, name: string): bool
    decreases |pat|, 0, |name|
  {
    if pat == [] then true
    else if pat[0] == '*' then StarThen(pat[1..], name)
    else name != [] && name[0] == pat[0] && MatchesAtStart(pat[1..], name[1..])
  }

  /** '(.*)' followed by rest: skip some newline-free prefix of name, then match rest. */
  function StarThen(rest: string, name: string): bool
    decreases |rest|, 1, |name|
  {
    MatchesAtStart(rest, name) || (name != [] && name[0] != '\n' && StarThen(rest, name[1..]))
  }

  ghost predicate NoNewline(s: string)
  {
    forall i :: 0 <= i < |s| ==> s[i] != '\n'
  }

  /** Reference semantics: the whole of s is matched by pat ('*' any newline-free run). */
  ghost predicate FullMatch(pat: string, s: string)
    decreases |pat|
  {
    if pat == [] then s == []
    else if pat[0] == '*' then exists j :: 0 <= j <= |s| && NoNewline(s[..j]) && FullMatch(pat[1..], s[j..])
    else s != [] && s[0] == pat[0] && FullMatch(pat[1..], s[1..])
  }

  lemma {:induction false} StarWitness(rest: string, name: string) returns (j: nat, k: nat)
    requires StarThen(rest, name)
    ensures j + k <= |name| && NoNewline(name[..j]) && FullMatch(rest, name[j..j + k])
    decreases |rest|, 1, |name|
  {
    if MatchesAtStart(rest, name) {
      k := MatchWitness(rest, name);
      j := 0;
      assert name[0..0 + k] == name[..k];
    } else {
      var j', k' := StarWitness(rest, name[1..]);
      j, k := j' + 1, k';
      assert name[1..][j'..j' + k'] == name[j..j + k];
      assert name[..j] == [name[0]] + name[1..][..j'];
    }
  }

  /** A successful match at the start of name fully matches some prefix of name. */
  lemma {:induction false} MatchWitness(pat: string, name: string) returns (k: nat)
    requires MatchesAtStart(pat, name)
    ensures k <= |name| && FullMatch(pat, name[..k])
    decreases |pat|, 0, |name|
  {
    if pat == [] {
      k := 0;
    } else if pat[0] == '*' {
      var j, k' := StarWitness(pat[1..], name);
      k := j + k';
      assert name[..k][..j] == name[..j];
      assert name[..k][j..] == name[j..j + k'];
    } else {
      var k' := MatchWitness(pat[1..], name[1..]);
      k := k' + 1;
      assert name[..k][1..] == name[1..][..k'];
    }
  }

  lemma {:induction false} StarFromWitness(rest: string, name: string, j: nat, k: nat)
    requires j + k <= |name| && NoNewline(name[..j]) && FullMatch(rest, name[j..j + k])
    ensures StarThen(rest, name)
    decreases |rest|, 1, |name|
  {
    if j == 0 {
      assert name[j..j + k] == name[..k];
      MatchFromWitness(rest, name, k);
    } else {
      assert name[..j][0] == name[0];
      assert name[1..][..j - 1] == name[..j][1..];
      assert name[1..|name|] == name[1..];
      SliceOfSlice(name, 1, |name|, j - 1, j - 1 + k);
      StarFromWitness(rest, name[1..], j - 1, k);
    }
  }

  /** A full match of a prefix of name makes the match at the start of name succeed. */
  lemma {:induction false} MatchFromWitness(pat: string, name: string, k: nat)
    requires k <= |name| && FullMatch(pat, name[..k])
    ensures MatchesAtStart(pat, name)
    decreases |pat|, 0, |name|
  {
    if pat == [] {
    } else if pat[0] == '*' {
      var j :| 0 <= j <= k && NoNewline(name[..k][..j]) && FullMatch(pat[1..], name[..k][j..]);
      assert name[..k][..j] == name[..j];
      assert name[..k][j..] == name[j..j + (k - j)];
      StarFromWitness(pat[1..], name, j, k - j);
    } else {
      assert name[..k][1..] == name[1..][..k - 1];
      MatchFromWitness(pat[1..], name[1..], k - 1);
    }
  }

  /** re.match succeeds iff the pattern matches some prefix of the name: no anchor at the end. */
  lemma {:induction false} MatchesAtStartSpec(pat: string, name: string)
    ensures MatchesAtStart(pat, name) <==> exists k :: 0 <= k <= |name| && FullMatch(pat, name[..k])
  {
    if MatchesAtStart(pat, name) {
      var k := MatchWitness(pat, name);
    } else {
      forall k | 0 <= k <= |name| && FullMatch(pat, name[..k]) ensures false {
        MatchFromWitness(pat, name, k);
      }
    }
  }

  /** With no end anchor, a pattern that matches a name also matches every extension of it: 'a' keeps 'ab'. */
  lemma {:induction false} MatchKeepsExtensions(pat: string, name: string, suffix: string)
    requires MatchesAtStart(pat, name)
    ensures MatchesAtStart(pat, name + suffix)
  {
    var k := MatchWitness(pat, name);
    assert (name + suffix)[..k] == name[..k];
    MatchFromWitness(pat, name + suffix, k);
  }

  /** Every pattern matches its own text: a '*' stands for itself as for anything else. */
  lemma {:induction false} MatchesItself(p: string)
    ensures MatchesAtStart(p, p)
    decreases |p|
  {
    if p != [] {
      MatchesItself(p[1..]);
    }
  }

  /** '.' stands for itself, not for any character. */
  lemma {:induction false} DotIsLiteral(pre: string, post: string, name: string)
    requires '*' !in pre
    requires MatchesAtStart(pre + "." + post, name)
    ensures |pre| < |name| && name[|pre|] == '.'
    decreases |pre|
  {
    var pat := pre + "." + post;
    assert pat[|pre|] == '.';
    if pre != [] {
      assert pat[0] == pre[0];
      assert pat[1..] == pre[1..] + "." + post;
      DotIsLiteral(pre[1..], post, name[1..]);
    }
  }

  // ---------------------------------------------------------------------
  // Order-preserving filter.

  function Filter<T>(s: seq<T>, keep: T -> bool): seq<T>
  {
    if s == [] then [] else Filter(s[..|s| - 1], keep) + (if keep(s[|s| - 1]) then [s[|s| - 1]] else [])
  }

  /** f embeds r into s: r[i] == s[f[i]] with f strictly increasing. */
  ghost predicate SubsequenceVia<T>(r: seq<T>, s: seq<T>, f: seq<nat>)
  {
    && |f| == |r|
    && (forall i :: 0 <= i < |f| ==> f[i] < |s| && s[f[i]] == r[i])
    && (forall i, j :: 0 <= i < j < |f| ==> f[i] < f[j])
  }

  lemma {:induction false} FilterMembers<T>(s: seq<T>, keep: T -> bool, x: T)
    ensures x in Filter(s, keep) <==> x in s && keep(x)
  {
    if s != [] {
      var s' := s[..|s| - 1];
      FilterMembers(s', keep, x);
      assert s == s' + [s[|s| - 1]];
    }
  }

  /** The filtered sequence keeps the original relative order. */
  lemma {:induction false} FilterEmbedding<T>(s: seq<T>, keep: T -> bool) returns (f: seq<nat>)
    ensures SubsequenceVia(Filter(s, keep), s, f)
  {
    if s == [] {
      f := [];
    } else {
      var s' := s[..|s| - 1];
      var f' := FilterEmbedding(s', keep);
      var r, r' := Filter(s, keep), Filter(s', keep);
      assert forall i :: 0 <= i < |f'| ==> f'[i] < |s'| && s[f'[i]] == s'[f'[i]] == r'[i];
      if keep(s[|s| - 1]) {
        assert r == r' + [s[|s| - 1]];
        f := f' + [|s| - 1];
      } else {
        assert r == r';
        f := f';
      }
    }
  }

  // ---------------------------------------------------------------------
  // _select_columns (io.py:14-41).

  /** A column argument: a single name, or a list or tuple of names (utils.is_sequence). */
  datatype Names = One(name: string) | Many(names: seq<string>)

  /** `if not is_sequence(x): x = [x]` */
  function AsList(n: Names): seq<string>
  {
    match n
    case One(name) => [name]
    case Many(names) => names
  }

  /** any(re.match(toregex(p), name) for p in pats) */
  function AnyMatch(pats: seq<string>, name: string): bool
  {
    exists i :: 0 <= i < |pats| && MatchesAtStart(pats[i], name)
  }

  /** The result of _select_columns as a function of its arguments. */
  function Selected(columns: Names, includes: Option<Names>, excludes: Option<Names>): seq<string>
  {
    var all := AsList(columns);
    var included := if includes.Some? then Filter(all, c => AnyMatch(AsList(includes.value), c)) else all;
    if excludes.Some? then Filter(included, c => !AnyMatch(AsList(excludes.value), c)) else included
  }

  method SelectColumns(columns: Names, includes: Option<Names>, excludes: Option<Names>) returns (toret: seq<string>)
    ensures toret == Selected(columns, includes, excludes)
  {
    var cols := AsList(columns);
    toret := cols;
    if includes.Some? {
      var inc := AsList(includes.value);
      toret := [];
      for i := 0 to |cols|
        invariant toret == Filter(cols[..i], c => AnyMatch(inc, c))
      {
        assert cols[..i + 1][..i] == cols[..i];
        if AnyMatch(inc, cols[i]) {
          toret := toret + [cols[i]];
        }
      }
      assert cols[..|cols|] == cols;
      cols := toret;
    }
    if excludes.Some? {
      var exc := AsList(excludes.value);
      toret := [];
      for i := 0 to |cols|
        invariant toret == Filter(cols[..i], c => !AnyMatch(exc, c))
      {
        assert cols[..i + 1][..i] == cols[..i];
        if !AnyMatch(exc, cols[i]) {
          toret := toret + [cols[i]];
        }
      }
      assert cols[..|cols|] == cols;
    }
  }

  /** A column survives iff an includes pattern (if any) matches it and no excludes pattern does. */
  lemma {:induction false} SelectedMembers(columns: Names, includes: Option<Names>, excludes: Option<Names>, c: string)
    ensures c in Selected(columns, includes, excludes) <==>
      && c in AsList(columns)
      && (includes.Some? ==> AnyMatch(AsList(includes.value), c))
      && (excludes.Some? ==> !AnyMatch(AsList(excludes.value), c))
  {
    var all := AsList(columns);
    if includes.Some? {
      FilterMembers(all, c => AnyMatch(AsList(includes.value), c), c);
    }
    var included := if includes.Some? then Filter(all, c => AnyMatch(AsList(includes.value), c)) else all;
    if excludes.Some? {
      FilterMembers(included, c => !AnyMatch(AsList(excludes.value), c), c);
    }
  }

  /** The selection is a subsequence of the (wrapped) input: original order is kept. */
  lemma {:induction false} SelectedIsSubsequence(columns: Names, includes: Option<Names>, excludes: Option<Names>) returns (f: seq<nat>)
    ensures SubsequenceVia(Selected(columns, includes, excludes), AsList(columns), f)
  {
    var all := AsList(columns);
    var f1: seq<nat> := seq(|all|, i requires 0 <= i < |all| => i);
    var included := all;
    if includes.Some? {
      f1 := FilterEmbedding(all, c => AnyMatch(AsList(includes.value), c));
      included := Filter(all, c => AnyMatch(AsList(includes.value), c));
    }
    f := f1;
    if excludes.Some? {
      var f2 := FilterEmbedding(included, c => !AnyMatch(AsList(excludes.value), c));
      f := seq(|f2|, i requires 0 <= i < |f2| => f1[f2[i]]);
    }
  }

  /** With neither includes nor excludes the columns come back unchanged; a single name is wrapped. */
  lemma {:induction false} SelectedNoFilter(columns: Names)
    ensures Selected(columns, None, None) == AsList(columns)
    ensures columns.One? ==> Selected(columns, None, None) == [columns.name]
  {
  }

  // ---------------------------------------------------------------------
  // FileStack.columns (io.py:129-135).

  function InAll(c: string, css: seq<seq<string>>): bool
  {
    forall j :: 0 <= j < |css| ==> c in css[j]
  }

  /** The columns of the first file that every other file has, in the first file's order; [] without files. */
  function CommonColumns(css: seq<seq<string>>): seq<string>
  {
    if css == [] then [] else Filter(css[0], c => InAll(c, css[1..]))
  }

  lemma {:induction false} CommonColumnsMembers(css: seq<seq<string>>, c: string)
    ensures c in CommonColumns(css) <==> css != [] && forall j :: 0 <= j < |css| ==> c in css[j]
  {
    if css != [] {
      FilterMembers(css[0], c => InAll(c, css[1..]), c);
      if c in css[0] && InAll(c, css[1..]) {
        forall j | 0 <= j < |css| ensures c in css[j] {
          if j > 0 {
            assert css[1..][j - 1] == css[j];
          }
        }
      }
      if forall j :: 0 <= j < |css| ==> c in css[j] {
        forall j | 0 <= j < |css[1..]| ensures c in css[1..][j] {
          assert css[1..][j] == css[j + 1];
        }
      }
    }
  }

  lemma {:induction false} CommonColumnsOrder(css: seq<seq<string>>) returns (f: seq<nat>)
    requires css != []
    ensures SubsequenceVia(CommonColumns(css), css[0], f)
  {
    f := FilterEmbedding(css[0], c => InAll(c, css[1..]));
  }

  // ---------------------------------------------------------------------
  // FileStack.header (io.py:137-143): header.update(file.header) for each file.

  function MergeHeaders<K, V>(hs: seq<map<K, V>>): map<K, V>
  {
    if hs == [] then map[] else MergeHeaders(hs[..|hs| - 1]) + hs[|hs| - 1]
  }

  /** A key is in the merged header iff some file has it, and its value is that of the last such file. */
  lemma {:induction false} MergeHeadersLastWins<K, V>(hs: seq<map<K, V>>, k: K)
    ensures k in MergeHeaders(hs) <==> exists j :: 0 <= j < |hs| && k in hs[j]
    ensures forall j :: 0 <= j < |hs| && k in hs[j] && (forall j' :: j < j' < |hs| ==> k !in hs[j'])
              ==> k in MergeHeaders(hs) && MergeHeaders(hs)[k] == hs[j][k]
  {
    if hs != [] {
      var last := |hs| - 1;
      var hs' := hs[..last];
      MergeHeadersLastWins(hs', k);
      if k !in hs[last] {
        forall j | 0 <= j < |hs| && k in hs[j] ensures j < last && k in hs'[j] {
        }
      }
    }
  }
}
