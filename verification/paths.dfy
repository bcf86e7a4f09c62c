/** Splitting and joining strings on a one-character separator, and the two
    path helpers built on them: `Util.get_ext` and `Util.to_ns_and_name`. */
module Paths {

  /** Python's `s.split(sep)` for a one-character separator: the pieces between
      separators, always at least one (the empty string splits to `[""]`). */
  function Split(s: string, sep: char): (parts: seq<string>)
    ensures |parts| >= 1
    ensures forall i :: 0 <= i < |parts| ==> sep !in parts[i]
    decreases |s|
  {
    if |s| == 0 then [""]
    else
      var init := Split(s[..|s| - 1], sep);
      var c := s[|s| - 1];
      if c == sep then init + [""]
      else
        var last := init[|init| - 1] + [c];
        assert sep !in last;
        init[..|init| - 1] + [last]
  }

  /** Python's `sep.join(parts)`. */
  function Join(sep: char, parts: seq<string>): (r: string)
    ensures |parts| > 0 ==> IsSuffix(Last(parts), r)
    ensures |parts| > 1 ==> |Last(parts)| < |r| && r[|r| - |Last(parts)| - 1] == sep
    decreases |parts|
  {
    if |parts| == 0 then ""
    else if |parts| == 1 then parts[0]
    else Join(sep, parts[..|parts| - 1]) + [sep] + parts[|parts| - 1]
  }

  /** The last element of a non-empty sequence (Python's `xs[-1]`). */
  function Last<T>(xs: seq<T>): T
    requires |xs| > 0
  {
    xs[|xs| - 1]
  }

  /** Joining the pieces of a split gives back the original string. */
  lemma {:induction false} JoinSplit(s: string, sep: char)
    ensures Join(sep, Split(s, sep)) == s
    decreases |s|
  {
    if |s| > 0 {
      var init := s[..|s| - 1];
      var c := s[|s| - 1];
      assert s == init + [c];
      var p := Split(init, sep);
      JoinSplit(init, sep);
      var n := |p|;
      if c == sep {
        var q := p + [""];
        assert Split(s, sep) == q;
        assert q[..n] == p;
        assert Join(sep, q) == Join(sep, p) + [sep];
      } else {
        var last := p[n - 1] + [c];
        var q := p[..n - 1] + [last];
        assert Split(s, sep) == q;
        if n == 1 {
          assert Join(sep, q) == last;
        } else {
          assert q[..n - 1] == p[..n - 1];
          assert Join(sep, q) == Join(sep, p[..n - 1]) + [sep] + last;
          assert Join(sep, p) == Join(sep, p[..n - 1]) + [sep] + p[n - 1];
        }
      }
    }
  }

  /** A string without the separator splits to itself alone. */
  lemma {:induction false} SplitWithoutSep(p: string, sep: char)
    requires sep !in p
    ensures Split(p, sep) == [p]
    decreases |p|
  {
    if |p| > 0 {
      SplitWithoutSep(p[..|p| - 1], sep);
      assert p[..|p| - 1] + [p[|p| - 1]] == p;
    }
  }

  /** Appending a separator and a separator-free piece appends that piece. */
  lemma {:induction false} SplitAfterSep(a: string, sep: char, p: string)
    requires sep !in p
    ensures Split(a + [sep] + p, sep) == Split(a, sep) + [p]
    decreases |p|
  {
    var s := a + [sep] + p;
    if |p| == 0 {
      assert s[..|s| - 1] == a;
      assert s == a + [sep];
    } else {
      var q := p[..|p| - 1];
      SplitAfterSep(a, sep, q);
      assert s[..|s| - 1] == a + [sep] + q;
      assert q + [p[|p| - 1]] == p;
    }
  }

  /** Splitting a join of separator-free pieces gives back the pieces. */
  lemma {:induction false} SplitJoin(parts: seq<string>, sep: char)
    requires |parts| >= 1
    requires forall i :: 0 <= i < |parts| ==> sep !in parts[i]
    ensures Split(Join(sep, parts), sep) == parts
    decreases |parts|
  {
    if |parts| == 1 {
      SplitWithoutSep(parts[0], sep);
    } else {
      var init := parts[..|parts| - 1];
      SplitJoin(init, sep);
      SplitAfterSep(Join(sep, init), sep, parts[|parts| - 1]);
      assert init + [parts[|parts| - 1]] == parts;
    }
  }

  /** `r` is a suffix of `s`: it is no longer than `s` and matches the end
      of `s` character by character. */
  predicate IsSuffix(r: string, s: string)
  {
    |r| <= |s| && forall i :: 0 <= i < |r| ==> r[i] == s[|s| - |r| + i]
  }

  /** The last piece of a split is the longest suffix of `s` free of the
      separator: it is a suffix, holds no separator, and is either all of `s`
      or preceded in `s` by the separator. */
  lemma {:induction false} LastPieceIsSuffix(s: string, sep: char)
    ensures var l := Last(Split(s, sep));
      && IsSuffix(l, s)
      && sep !in l
      && (|l| < |s| ==> s[|s| - |l| - 1] == sep)
    decreases |s|
  {
    if |s| > 0 {
      var init := s[..|s| - 1];
      var c := s[|s| - 1];
      LastPieceIsSuffix(init, sep);
      LastPieceStep(s, sep);
      var prev := Last(Split(init, sep));
      if c != sep {
        var l := prev + [c];
        assert forall i :: 0 <= i < |init| ==> init[i] == s[i];
        assert forall i :: 0 <= i < |prev| ==> l[i] == prev[i];
        assert l[|prev|] == c;
      }
    }
  }

  /** One step of the split from the back: a final separator starts a new,
      empty last piece; any other final character extends the last piece. */
  lemma LastPieceStep(s: string, sep: char)
    requires |s| > 0
    ensures Last(Split(s, sep)) ==
      if s[|s| - 1] == sep then "" else Last(Split(s[..|s| - 1], sep)) + [s[|s| - 1]]
  {
  }

  /** `os.path.basename` for '/'-separated paths: the text after the final '/'. */
  function Basename(path: string): (r: string)
    ensures IsSuffix(r, path)
    ensures '/' !in r
    ensures |r| < |path| ==> path[|path| - |r| - 1] == '/'
  {
    LastPieceIsSuffix(path, '/');
    Last(Split(path, '/'))
  }

  /** `get_ext`: the text after the last '.' of the basename, or the whole
      basename when it has no '.'. It is the longest suffix of the path that
      contains neither '.' nor '/'. */
  function GetExt(path: string): (r: string)
    ensures IsSuffix(r, path)
    ensures '.' !in r && '/' !in r
    ensures |r| < |path| ==> path[|path| - |r| - 1] in {'.', '/'}
  {
    ExtensionShape(path);
    Last(Split(Basename(path), '.'))
  }

  /** The last '.'-piece of the basename is a suffix of the path free of '.'
      and '/', preceded in the path by one of them unless it is all of it. */
  lemma ExtensionShape(path: string)
    ensures var r := Last(Split(Basename(path), '.'));
      && IsSuffix(r, path)
      && '.' !in r && '/' !in r
      && (|r| < |path| ==> path[|path| - |r| - 1] in {'.', '/'})
  {
    var base := Basename(path);
    LastPieceIsSuffix(base, '.');
    NestedSuffix(path, base, Last(Split(base, '.')), '/', '.');
  }

  /** A separator-free suffix of a separator-free suffix: the inner one is a
      suffix of the whole string, free of both separators, and preceded by
      one of them unless it is the whole string. */
  lemma NestedSuffix(path: string, base: string, r: string, outer: char, inner: char)
    requires IsSuffix(base, path)
    requires outer !in base && (|base| < |path| ==> path[|path| - |base| - 1] == outer)
    requires IsSuffix(r, base)
    requires inner !in r && (|r| < |base| ==> base[|base| - |r| - 1] == inner)
    ensures IsSuffix(r, path)
    ensures inner !in r && outer !in r
    ensures |r| < |path| ==> path[|path| - |r| - 1] in {inner, outer}
  {
    assert forall i :: 0 <= i < |r| ==> r[i] == base[|base| - |r| + i];
    if |r| < |base| {
      assert path[|path| - |r| - 1] == base[|base| - |r| - 1];
    }
  }

  /** `to_ns_and_name`: split a node path into its namespace, which always ends
      in '/', and its last segment, which holds no '/'. A path with a '/' is
      their concatenation; a path without one gets the root namespace "/". */
  function ToNsAndName(nodename: string): (r: (string, string))
    ensures |r.0| >= 1 && r.0[|r.0| - 1] == '/'
    ensures '/' !in r.1
    ensures '/' in nodename ==> r.0 + r.1 == nodename
    ensures '/' !in nodename ==> r.0 == "/" && r.1 == nodename
  {
    var strs := Split(nodename, '/');
    var n := |strs|;
    var ns := Join('/', strs[..n - 1]) + "/";
    var name := strs[n - 1];
    JoinSplit(nodename, '/');
    if n == 1 then
      assert nodename == strs[0];
      (ns, name)
    else
      assert Join('/', strs) == Join('/', strs[..n - 1]) + ['/'] + name;
      (ns, name)
  }

  /** `to_ns_and_name` is a left inverse of concatenation: any namespace that
      ends in '/' and any name without '/' are recovered from `ns + name`. */
  lemma NsAndNameRoundTrip(ns: string, name: string)
    requires |ns| >= 1 && ns[|ns| - 1] == '/'
    requires '/' !in name
    ensures ToNsAndName(ns + name) == (ns, name)
  {
    var a := ns[..|ns| - 1];
    assert ns == a + ['/'];
    assert ns + name == a + ['/'] + name;
    SplitAfterSep(a, '/', name);
    JoinSplit(a, '/');
    var strs := Split(a, '/') + [name];
    assert strs[..|strs| - 1] == Split(a, '/');
  }
}
