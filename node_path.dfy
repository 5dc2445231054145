/** The parts of Node's `node:path` (POSIX flavour) and the leading-separator
    regular expression `/^[\\/]+/` that the upload and evaluation code use.
    `path.join` is not modelled here: callers receive it as a function. */
module NodePath {

  predicate IsSeparator(c: char) {
    c == '/' || c == '\\'
  }

  /** `path.isAbsolute` on POSIX: the path starts with a slash. */
  predicate IsAbsolute(p: string) {
    |p| > 0 && p[0] == '/'
  }

  /** `p.replace(/^[\\/]+/, '')`: drops every leading `/` and `\`. */
  function StripLeadingSeparators(p: string): (r: string)
    ensures |r| <= |p| && r == p[|p| - |r|..]
    ensures r == [] || !IsSeparator(r[0])
    ensures forall i :: 0 <= i < |p| - |r| ==> IsSeparator(p[i])
  {
    if p != [] && IsSeparator(p[0]) then StripLeadingSeparators(p[1..]) else p
  }

  /** Stripping twice strips nothing more. */
  lemma StripIdempotent(p: string)
    ensures StripLeadingSeparators(StripLeadingSeparators(p)) == StripLeadingSeparators(p)
  {
  }

  /** Index of the last occurrence of `c`, or -1. */
  function LastIndexOf(s: string, c: char): (k: int)
    ensures -1 <= k < |s|
    ensures k >= 0 ==> s[k] == c
    ensures forall i :: k < i < |s| ==> s[i] != c
  {
    if s == [] then -1
    else if s[|s| - 1] == c then |s| - 1
    else LastIndexOf(s[..|s| - 1], c)
  }

  /** `p` without its trailing slashes. */
  function TrimTrailingSlashes(p: string): (r: string)
    ensures |r| <= |p| && r == p[..|r|]
    ensures r == [] || r[|r| - 1] != '/'
  {
    if p != [] && p[|p| - 1] == '/' then TrimTrailingSlashes(p[..|p| - 1]) else p
  }

  /** The last path segment, ignoring trailing slashes (`path.basename(p)`). */
  function LastSegment(p: string): (seg: string)
    ensures '/' !in seg
  {
    var q := TrimTrailingSlashes(p);
    q[LastIndexOf(q, '/') + 1..]
  }

  /** `path.extname(p)`: from the last `.` of the last segment to its end, or
      empty when that segment has no `.`, starts with its only leading `.`
      (a dot-file), or is `..`. */
  function Extname(p: string): (ext: string)
    ensures var seg := LastSegment(p);
      |ext| < |seg| || ext == []
    ensures var seg := LastSegment(p);
      ext == seg[|seg| - |ext|..]
    ensures ext == [] || ext[0] == '.'
    ensures ext != [] ==> '.' !in ext[1..]
    ensures '/' !in ext
  {
    var seg := LastSegment(p);
    var d := LastIndexOf(seg, '.');
    if d <= 0 || seg == ".." then []
    else
      assert forall i :: 0 <= i < |seg[d..][1..]| ==> seg[d..][1..][i] == seg[d + 1 + i];
      seg[d..]
  }

  /** `path.basename(p, path.extname(p))`: the last segment without its extension. */
  function BasenameWithoutExt(p: string): (base: string)
    ensures base + Extname(p) == LastSegment(p)
  {
    var seg := LastSegment(p);
    seg[..|seg| - |Extname(p)|]
  }

  /** A name without slashes is its own last segment. */
  lemma NoSlashSegment(name: string)
    requires '/' !in name
    ensures LastSegment(name) == name
  {
    if name != [] {
      assert name[|name| - 1] in name;
    }
    assert TrimTrailingSlashes(name) == name;
    assert forall i :: 0 <= i < |name| ==> name[i] in name;
  }

  /** The last `c` of `a + [c] + b` is the one after `a` when `b` has none. */
  lemma {:induction false} LastIndexAfter(a: string, c: char, b: string)
    requires c !in b
    ensures LastIndexOf(a + [c] + b, c) == |a|
    decreases |b|
  {
    var s := a + [c] + b;
    if b == [] {
    } else {
      assert s[|s| - 1] == b[|b| - 1];
      assert b[|b| - 1] in b;
      assert s[..|s| - 1] == a + [c] + b[..|b| - 1];
      assert forall x :: x in b[..|b| - 1] ==> x in b;
      LastIndexAfter(a, c, b[..|b| - 1]);
    }
  }

  /** A dot-file such as `.env` has no extension, so its base is the whole name. */
  lemma DotFileHasNoExtension(rest: string)
    requires rest != [] && '/' !in rest && '.' !in rest
    ensures Extname("." + rest) == [] && BasenameWithoutExt("." + rest) == "." + rest
  {
    var name := "." + rest;
    assert '/' !in name;
    NoSlashSegment(name);
    LastIndexAfter([], '.', rest);
    assert [] + ['.'] + rest == name;
  }

  /** A name without dots has no extension. */
  lemma NoDotNoExtension(name: string)
    requires '/' !in name && '.' !in name
    ensures Extname(name) == [] && BasenameWithoutExt(name) == name
  {
    NoSlashSegment(name);
    assert forall i :: 0 <= i < |name| ==> name[i] in name;
  }

  /** A plain `stem.ext` splits at its last dot. */
  lemma SimpleNameSplits(stem: string, ext: string)
    requires stem != [] && stem != "." && '/' !in stem && '/' !in ext && '.' !in ext
    ensures Extname(stem + "." + ext) == "." + ext
    ensures BasenameWithoutExt(stem + "." + ext) == stem
  {
    var name := stem + "." + ext;
    assert '/' !in name;
    NoSlashSegment(name);
    LastIndexAfter(stem, '.', ext);
    assert stem + ['.'] + ext == name;
    assert name != ".." by {
      if |name| == 2 {
        assert |stem| == 1 && ext == [];
        assert stem == [name[0]];
      }
    }
    assert name[|stem|..] == "." + ext;
  }
}
