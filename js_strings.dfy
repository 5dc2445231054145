/** The JavaScript string operations the services rely on:
    `trim`, the regular-expression class `\s`, `replace(/\s+/g, c)`,
    `split(' ')`, `join(sep)` and `toLowerCase`. */
module JsStrings {

  /** The characters matched by `\s` and removed by `String.prototype.trim`:
      the ECMAScript WhiteSpace and LineTerminator code points. */
  predicate IsWhitespace(c: char) {
    || c == '\t' || c == '\n' || c == '\U{B}' || c == '\U{C}' || c == '\r'
    || c == ' ' || c == '\U{A0}' || c == '\U{1680}'
    || ('\U{2000}' <= c <= '\U{200A}')
    || c == '\U{2028}' || c == '\U{2029}' || c == '\U{202F}' || c == '\U{205F}'
    || c == '\U{3000}' || c == '\U{FEFF}'
  }

  /** Drops the maximal whitespace prefix. */
  function TrimStart(s: string): (r: string)
    ensures |r| <= |s| && r == s[|s| - |r|..]
    ensures r == [] || !IsWhitespace(r[0])
    ensures forall i :: 0 <= i < |s| - |r| ==> IsWhitespace(s[i])
  {
    if s != [] && IsWhitespace(s[0]) then TrimStart(s[1..]) else s
  }

  /** Drops the maximal whitespace suffix. */
  function TrimEnd(s: string): (r: string)
    ensures |r| <= |s| && r == s[..|r|]
    ensures r == [] || !IsWhitespace(r[|r| - 1])
    ensures forall i :: |r| <= i < |s| ==> IsWhitespace(s[i])
  {
    if s != [] && IsWhitespace(s[|s| - 1]) then TrimEnd(s[..|s| - 1]) else s
  }

  /** `String.prototype.trim`. */
  function Trim(s: string): (r: string)
    ensures r == [] || (!IsWhitespace(r[0]) && !IsWhitespace(r[|r| - 1]))
    ensures var k := |s| - |TrimStart(s)|; k + |r| <= |s| && r == s[k..k + |r|]
  {
    TrimEnd(TrimStart(s))
  }

  /** A string that `trim` leaves alone is its own trimming. */
  lemma TrimNoop(s: string)
    requires s == [] || (!IsWhitespace(s[0]) && !IsWhitespace(s[|s| - 1]))
    ensures Trim(s) == s
  {
  }

  lemma {:induction false} TrimStartNonWhitespace(s: string)
    ensures NonWhitespace(TrimStart(s)) == NonWhitespace(s)
  {
    if s != [] && IsWhitespace(s[0]) {
      TrimStartNonWhitespace(s[1..]);
    }
  }

  lemma {:induction false} TrimEndNonWhitespace(s: string)
    ensures NonWhitespace(TrimEnd(s)) == NonWhitespace(s)
  {
    if s != [] && IsWhitespace(s[|s| - 1]) {
      TrimEndNonWhitespace(s[..|s| - 1]);
      NonWhitespaceConcat(s[..|s| - 1], [s[|s| - 1]]);
      assert s[..|s| - 1] + [s[|s| - 1]] == s;
    }
  }

  /** `trim` removes whitespace only. */
  lemma TrimNonWhitespace(s: string)
    ensures NonWhitespace(Trim(s)) == NonWhitespace(s)
  {
    TrimStartNonWhitespace(s);
    TrimEndNonWhitespace(TrimStart(s));
  }

  /** The non-whitespace characters of `s`, in order. */
  function NonWhitespace(s: string): string {
    if s == [] then []
    else if IsWhitespace(s[0]) then NonWhitespace(s[1..])
    else [s[0]] + NonWhitespace(s[1..])
  }

  lemma {:induction false} NonWhitespaceConcat(a: string, b: string)
    ensures NonWhitespace(a + b) == NonWhitespace(a) + NonWhitespace(b)
  {
    if a != [] {
      assert (a + b)[1..] == a[1..] + b;
      NonWhitespaceConcat(a[1..], b);
    } else {
      assert a + b == b;
    }
  }

  /** `s.replace(/\s+/g, rep)`: every maximal run of whitespace becomes one `rep`. */
  function Collapse(s: string, rep: char): (r: string)
    ensures |r| <= |s|
    ensures forall i :: 0 <= i < |r| ==> r[i] == rep || !IsWhitespace(r[i])
    decreases |s|
  {
    if s == [] then []
    else if IsWhitespace(s[0]) then [rep] + Collapse(TrimStart(s[1..]), rep)
    else [s[0]] + Collapse(s[1..], rep)
  }

  /** Text without whitespace passes through unchanged and the remainder is collapsed. */
  lemma {:induction false} CollapseWordPrefix(u: string, v: string, rep: char)
    requires forall i :: 0 <= i < |u| ==> !IsWhitespace(u[i])
    ensures Collapse(u + v, rep) == u + Collapse(v, rep)
  {
    if u != [] {
      assert (u + v)[0] == u[0] && (u + v)[1..] == u[1..] + v;
      CollapseWordPrefix(u[1..], v, rep);
    } else {
      assert u + v == v;
    }
  }

  /** A whole non-empty whitespace run followed by a non-whitespace character
      (or the end) becomes exactly one `rep`. */
  lemma CollapseWhitespaceRun(w: string, v: string, rep: char)
    requires w != [] && forall i :: 0 <= i < |w| ==> IsWhitespace(w[i])
    requires v == [] || !IsWhitespace(v[0])
    ensures Collapse(w + v, rep) == [rep] + Collapse(v, rep)
  {
    assert (w + v)[0] == w[0];
    assert (w + v)[1..] == w[1..] + v;
    TrimStartOfRun(w[1..], v);
  }

  /** A whitespace run before a word without whitespace becomes one `rep`. */
  lemma CollapseRunThenWord(w: string, v: string, rep: char)
    requires forall i :: 0 <= i < |v| ==> !IsWhitespace(v[i])
    requires w != [] && forall i :: 0 <= i < |w| ==> IsWhitespace(w[i])
    ensures Collapse(w + v, rep) == [rep] + v
  {
    CollapseWhitespaceRun(w, v, rep);
    CollapseWordPrefix(v, [], rep);
    assert v + [] == v;
  }

  /** A whitespace run between two words without whitespace becomes one `rep`. */
  lemma CollapseAroundRun(u: string, w: string, v: string, rep: char)
    requires forall i :: 0 <= i < |u| ==> !IsWhitespace(u[i])
    requires forall i :: 0 <= i < |v| ==> !IsWhitespace(v[i])
    requires w != [] && forall i :: 0 <= i < |w| ==> IsWhitespace(w[i])
    ensures Collapse(u + w + v, rep) == u + [rep] + v
  {
    assert u + w + v == u + (w + v);
    CollapseWordPrefix(u, w + v, rep);
    CollapseRunThenWord(w, v, rep);
    assert u + ([rep] + v) == u + [rep] + v;
  }

  lemma {:induction false} TrimStartOfRun(w: string, v: string)
    requires forall i :: 0 <= i < |w| ==> IsWhitespace(w[i])
    requires v == [] || !IsWhitespace(v[0])
    ensures TrimStart(w + v) == v
  {
    if w != [] {
      assert (w + v)[0] == w[0] && (w + v)[1..] == w[1..] + v;
      TrimStartOfRun(w[1..], v);
    } else {
      assert w + v == v;
    }
  }

  /** No two whitespace characters are adjacent. */
  ghost predicate NoAdjacentWhitespace(s: string) {
    forall i :: 0 <= i < |s| - 1 ==> !(IsWhitespace(s[i]) && IsWhitespace(s[i + 1]))
  }

  /** Every whitespace character is `c`. */
  ghost predicate WhitespaceIs(s: string, c: char) {
    forall i :: 0 <= i < |s| ==> IsWhitespace(s[i]) ==> s[i] == c
  }

  lemma CollapseHead(s: string, rep: char)
    requires s == [] || !IsWhitespace(s[0])
    ensures var r := Collapse(s, rep); r == [] || !IsWhitespace(r[0])
  {
  }

  /** Prepending a character keeps runs short when it does not extend a run. */
  lemma PrependNoAdjacent(c: char, r: string)
    requires NoAdjacentWhitespace(r)
    requires r == [] || !IsWhitespace(c) || !IsWhitespace(r[0])
    ensures NoAdjacentWhitespace([c] + r)
  {
    var t := [c] + r;
    forall i | 0 <= i < |t| - 1 ensures !(IsWhitespace(t[i]) && IsWhitespace(t[i + 1])) {
      if i > 0 {
        assert t[i] == r[i - 1] && t[i + 1] == r[i];
      }
    }
  }

  /** With a whitespace replacement, the collapsed text has no whitespace run
      longer than one character. */
  lemma {:induction false} CollapseNoAdjacent(s: string, rep: char)
    requires IsWhitespace(rep)
    ensures NoAdjacentWhitespace(Collapse(s, rep))
    decreases |s|
  {
    if s == [] {
    } else if IsWhitespace(s[0]) {
      var t := TrimStart(s[1..]);
      CollapseNoAdjacent(t, rep);
      CollapseHead(t, rep);
      PrependNoAdjacent(rep, Collapse(t, rep));
    } else {
      CollapseNoAdjacent(s[1..], rep);
      PrependNoAdjacent(s[0], Collapse(s[1..], rep));
    }
  }

  /** With a whitespace replacement, collapsing drops only whitespace. */
  lemma {:induction false} CollapseNonWhitespace(s: string, rep: char)
    requires IsWhitespace(rep)
    ensures NonWhitespace(Collapse(s, rep)) == NonWhitespace(s)
    decreases |s|
  {
    if s == [] {
    } else if IsWhitespace(s[0]) {
      var t := TrimStart(s[1..]);
      CollapseNonWhitespace(t, rep);
      TrimStartNonWhitespace(s[1..]);
      NonWhitespaceConcat([rep], Collapse(t, rep));
    } else {
      CollapseNonWhitespace(s[1..], rep);
      NonWhitespaceConcat([s[0]], Collapse(s[1..], rep));
    }
  }

  /** A text whose whitespace is already single `rep` characters is a fixpoint. */
  lemma {:induction false} CollapseFixpoint(s: string, rep: char)
    requires WhitespaceIs(s, rep) && NoAdjacentWhitespace(s)
    ensures Collapse(s, rep) == s
    decreases |s|
  {
    if s == [] {
    } else {
      assert WhitespaceIs(s[1..], rep) && NoAdjacentWhitespace(s[1..]) by {
        forall i | 0 <= i < |s[1..]| ensures IsWhitespace(s[1..][i]) ==> s[1..][i] == rep {
          assert s[1..][i] == s[i + 1];
        }
        forall i | 0 <= i < |s[1..]| - 1
          ensures !(IsWhitespace(s[1..][i]) && IsWhitespace(s[1..][i + 1]))
        {
          assert s[1..][i] == s[i + 1] && s[1..][i + 1] == s[i + 2];
        }
      }
      CollapseFixpoint(s[1..], rep);
      if IsWhitespace(s[0]) {
        assert s[1..] == [] || !IsWhitespace(s[1]);
        assert TrimStart(s[1..]) == s[1..];
        assert s[0] == rep;
        assert [s[0]] + s[1..] == s;
      } else {
        assert [s[0]] + s[1..] == s;
      }
    }
  }

  /** A contiguous slice keeps the "single whitespace" properties. */
  lemma SliceKeepsShape(s: string, i: int, j: int, c: char)
    requires 0 <= i <= j <= |s|
    requires WhitespaceIs(s, c) && NoAdjacentWhitespace(s)
    ensures WhitespaceIs(s[i..j], c) && NoAdjacentWhitespace(s[i..j])
  {
    forall k | 0 <= k < j - i ensures IsWhitespace(s[i..j][k]) ==> s[i..j][k] == c {
      assert s[i..j][k] == s[i + k];
    }
    forall k | 0 <= k < j - i - 1
      ensures !(IsWhitespace(s[i..j][k]) && IsWhitespace(s[i..j][k + 1]))
    {
      assert s[i..j][k] == s[i + k] && s[i..j][k + 1] == s[i + k + 1];
    }
  }

  /** Trimming keeps the "single whitespace" properties. */
  lemma TrimKeepsShape(s: string, c: char)
    requires WhitespaceIs(s, c) && NoAdjacentWhitespace(s)
    ensures WhitespaceIs(Trim(s), c) && NoAdjacentWhitespace(Trim(s))
  {
    var k := |s| - |TrimStart(s)|;
    var r := Trim(s);
    assert k + |r| <= |s| && r == s[k..k + |r|];
    SliceKeepsShape(s, k, k + |r|, c);
  }

  /** `String.prototype.toLowerCase` on ASCII letters. */
  function LowerChar(c: char): char {
    if 'A' <= c <= 'Z' then (c as int + 32) as char else c
  }

  function ToLower(s: string): (r: string)
    ensures |r| == |s|
  {
    seq(|s|, i requires 0 <= i < |s| => LowerChar(s[i]))
  }

  /** Lower-casing twice is lower-casing once, so a stored lower-case email is
      found again by a lookup that lower-cases its input. */
  lemma ToLowerIdempotent(s: string)
    ensures ToLower(ToLower(s)) == ToLower(s)
  {
  }

  /** `s.split(sep)` for a one-character separator. */
  function Split(s: string, sep: char): (parts: seq<string>)
    ensures |parts| >= 1
  {
    if s == [] then [[]]
    else if s[0] == sep then [[]] + Split(s[1..], sep)
    else
      var rest := Split(s[1..], sep);
      [[s[0]] + rest[0]] + rest[1..]
  }

  /** `parts.join(sep)`. */
  function JoinWith(parts: seq<string>, sep: string): string {
    if |parts| == 0 then []
    else if |parts| == 1 then parts[0]
    else parts[0] + sep + JoinWith(parts[1..], sep)
  }

  /** Splitting loses nothing: joining the pieces with the separator gives the input back. */
  lemma {:induction false} SplitJoin(s: string, sep: char)
    ensures JoinWith(Split(s, sep), [sep]) == s
  {
    if s == [] {
    } else if s[0] == sep {
      SplitJoin(s[1..], sep);
      assert s == [sep] + s[1..];
    } else {
      SplitJoin(s[1..], sep);
      var rest := Split(s[1..], sep);
      if |rest| == 1 {
        assert [s[0]] + rest[0] == s;
      } else {
        assert JoinWith(rest, [sep]) == rest[0] + [sep] + JoinWith(rest[1..], [sep]);
        assert ([[s[0]] + rest[0]] + rest[1..])[1..] == rest[1..];
        assert s == [s[0]] + s[1..];
      }
    }
  }

  /** No piece of a split contains the separator. */
  lemma {:induction false} SplitPiecesFree(s: string, sep: char)
    ensures forall k :: 0 <= k < |Split(s, sep)| ==> sep !in Split(s, sep)[k]
  {
    if s != [] {
      SplitPiecesFree(s[1..], sep);
      var rest := Split(s[1..], sep);
      if s[0] != sep {
        assert sep !in [s[0]] + rest[0];
        var parts := Split(s, sep);
        forall k | 0 <= k < |parts| ensures sep !in parts[k] {
          if k > 0 { assert parts[k] == rest[k]; }
        }
      }
    }
  }

  /** A separator-free prefix followed by a separator (or the end) is the first piece. */
  lemma {:induction false} SplitFirst(a: string, b: string, sep: char)
    requires sep !in a
    requires b == [] || b[0] == sep
    ensures Split(a + b, sep)[0] == a
  {
    if a == [] {
      assert a + b == b;
    } else {
      assert (a + b)[0] == a[0] && (a + b)[1..] == a[1..] + b;
      SplitFirst(a[1..], b, sep);
      assert [a[0]] + a[1..] == a;
    }
  }

  /** A separator-free prefix and the separator after it form the first piece. */
  lemma {:induction false} SplitAfterSeparator(a: string, b: string, sep: char)
    requires sep !in a
    ensures Split(a + [sep] + b, sep) == [a] + Split(b, sep)
  {
    if a == [] {
      assert a + [sep] + b == [sep] + b;
      assert ([sep] + b)[1..] == b;
    } else {
      assert (a + [sep] + b)[0] == a[0] && (a + [sep] + b)[1..] == a[1..] + [sep] + b;
      SplitAfterSeparator(a[1..], b, sep);
      assert [a[0]] + a[1..] == a;
    }
  }
}
