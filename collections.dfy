/** The query primitives the in-memory tables are read with: the first row
    matching a condition (`findOne`), all matching rows (`find` with a
    `where`), and ordering by a numeric key (`find` with an `order`). */
module Collections {
  import opened Wrappers

  /** The first element of `s` satisfying `p`. */
  function First<T(==)>(s: seq<T>, p: T -> bool): (r: Option<T>)
    ensures r.None? <==> forall i :: 0 <= i < |s| ==> !p(s[i])
    ensures r.Some? ==> exists i :: 0 <= i < |s| && s[i] == r.value && p(s[i]) &&
                                   forall j :: 0 <= j < i ==> !p(s[j])
  {
    if s == [] then None
    else if p(s[0]) then
      Some(s[0])
    else
      var r := First(s[1..], p);
      if r.Some? then
        var i :| 0 <= i < |s[1..]| && s[1..][i] == r.value && p(s[1..][i]) &&
          forall j :: 0 <= j < i ==> !p(s[1..][j]);
        assert s[i + 1] == r.value && forall j :: 0 <= j < i + 1 ==> !p(s[j]) by {
          forall j | 0 <= j < i + 1 ensures !p(s[j]) {
            if j > 0 { assert s[j] == s[1..][j - 1]; }
          }
        }
        r
      else
        assert forall i :: 0 <= i < |s| ==> !p(s[i]) by {
          forall i | 0 <= i < |s| ensures !p(s[i]) {
            if i > 0 { assert s[i] == s[1..][i - 1]; }
          }
        }
        r
  }

  /** When only one element satisfies `p`, `First` finds it. */
  lemma FirstOfUnique<T>(s: seq<T>, p: T -> bool, k: int)
    requires 0 <= k < |s| && p(s[k])
    requires forall i :: 0 <= i < |s| && p(s[i]) ==> i == k
    ensures First(s, p) == Some(s[k])
  {
  }

  /** Two sequences of the same length on which `p` holds at the same
      places have their first match at the same place. */
  lemma {:induction false} FirstSamePlace<T>(s: seq<T>, t: seq<T>, p: T -> bool)
    requires |s| == |t|
    requires forall i :: 0 <= i < |s| ==> p(s[i]) == p(t[i])
    ensures First(s, p).None? <==> First(t, p).None?
    ensures First(s, p).Some? ==>
      exists k :: 0 <= k < |s| && s[k] == First(s, p).value && t[k] == First(t, p).value
  {
    if s != [] && !p(s[0]) {
      assert forall i :: 0 <= i < |s[1..]| ==> s[1..][i] == s[i + 1] && t[1..][i] == t[i + 1];
      FirstSamePlace(s[1..], t[1..], p);
      if First(s, p).Some? {
        var k :| 0 <= k < |s[1..]| && s[1..][k] == First(s[1..], p).value && t[1..][k] == First(t[1..], p).value;
        assert s[k + 1] == First(s, p).value && t[k + 1] == First(t, p).value;
      }
    } else if s != [] {
      assert s[0] == First(s, p).value && t[0] == First(t, p).value;
    }
  }

  /** The elements of `s` satisfying `p`, in their original order. */
  function Filter<T(==)>(s: seq<T>, p: T -> bool): (r: seq<T>)
    ensures |r| <= |s|
    ensures forall i :: 0 <= i < |r| ==> r[i] in s && p(r[i])
    ensures forall i :: 0 <= i < |s| && p(s[i]) ==> s[i] in r
  {
    if s == [] then []
    else
      var rest := Filter(s[1..], p);
      assert forall i :: 1 <= i < |s| ==> s[i] == s[1..][i - 1];
      if p(s[0]) then [s[0]] + rest else rest
  }

  /** Filtering distributes over appending a row. */
  lemma {:induction false} FilterAppend<T>(s: seq<T>, x: T, p: T -> bool)
    ensures Filter(s + [x], p) == Filter(s, p) + (if p(x) then [x] else [])
  {
    if s == [] {
      assert [] + [x] == [x];
    } else {
      assert (s + [x])[0] == s[0] && (s + [x])[1..] == s[1..] + [x];
      FilterAppend(s[1..], x, p);
    }
  }

  /** Filtering distributes over concatenation. */
  lemma {:induction false} FilterConcat<T>(a: seq<T>, b: seq<T>, p: T -> bool)
    ensures Filter(a + b, p) == Filter(a, p) + Filter(b, p)
  {
    if a == [] {
      assert a + b == b;
    } else {
      assert (a + b)[0] == a[0] && (a + b)[1..] == a[1..] + b;
      FilterConcat(a[1..], b, p);
    }
  }

  /** Filtering keeps a sequence whose every element satisfies `p`, and
      empties one where none does. */
  lemma {:induction false} FilterAllOrNone<T>(s: seq<T>, p: T -> bool)
    ensures (forall i :: 0 <= i < |s| ==> p(s[i])) ==> Filter(s, p) == s
    ensures (forall i :: 0 <= i < |s| ==> !p(s[i])) ==> Filter(s, p) == []
  {
    if s != [] {
      assert forall i :: 1 <= i < |s| ==> s[i] == s[1..][i - 1];
      FilterAllOrNone(s[1..], p);
    }
  }

  /** `s` is in non-decreasing order of `key`. */
  ghost predicate SortedBy<T>(s: seq<T>, key: T -> int) {
    forall i, j :: 0 <= i < j < |s| ==> key(s[i]) <= key(s[j])
  }

  /** Awaiting results one after another: every value in order, or the
      error of the first one that failed. */
  function Collect<T(==)>(results: seq<Result<T>>): (r: Result<seq<T>>)
    ensures r.Ok? ==> |r.value| == |results|
    ensures r.Ok? ==> forall i :: 0 <= i < |results| ==> results[i] == Ok(r.value[i])
    ensures r.Err? ==> (exists i :: 0 <= i < |results| && results[i] == Err(r.error) &&
                          forall j :: 0 <= j < i ==> results[j].Ok?)
    ensures (forall i :: 0 <= i < |results| ==> results[i].Ok?) <==> r.Ok?
  {
    if results == [] then Ok([])
    else
      var front := results[..|results| - 1];
      var earlier := Collect(front);
      assert forall j :: 0 <= j < |results| - 1 ==> results[j] == front[j];
      if earlier.Err? then
        var i :| 0 <= i < |front| && front[i] == Err(earlier.error) &&
          forall j :: 0 <= j < i ==> front[j].Ok?;
        Err(earlier.error)
      else
        match results[|results| - 1]
        case Err(e) => Err(e)
        case Ok(v) => Ok(earlier.value + [v])
  }

  /** The first failure decides the outcome, whatever follows it. */
  lemma CollectFailsAt<T>(results: seq<Result<T>>, k: int)
    requires 0 <= k < |results| && results[k].Err?
    requires Collect(results[..k]).Ok?
    ensures Collect(results) == Err(results[k].error)
  {
    assert forall j :: 0 <= j < k ==> results[..k][j] == results[j];
    var r := Collect(results);
    var i :| 0 <= i < |results| && results[i] == Err(r.error) && forall j :: 0 <= j < i ==> results[j].Ok?;
    assert i == k;
  }

  /** Collecting one more result extends the collected prefix. */
  lemma CollectStep<T>(results: seq<Result<T>>, k: int)
    requires 0 <= k < |results|
    ensures Collect(results[..k + 1]) ==
      (if Collect(results[..k]).Err? then Collect(results[..k])
       else if results[k].Err? then Err(results[k].error) else Ok(Collect(results[..k]).value + [results[k].value]))
  {
    assert results[..k + 1][..k] == results[..k];
  }

  /** Inserts `x` before the first element with a key at least as large. */
  function Insert<T(==)>(x: T, s: seq<T>, key: T -> int): (r: seq<T>)
    requires SortedBy(s, key)
    ensures multiset(r) == multiset(s) + multiset{x}
    ensures SortedBy(r, key)
    ensures |r| == |s| + 1
    ensures forall k :: 0 <= k < |r| ==> r[k] == x || r[k] in s
  {
    if s == [] then [x]
    else if key(x) <= key(s[0]) then
      [x] + s
    else
      var rest := Insert(x, s[1..], key);
      InsertStep(x, s, key, rest);
      [s[0]] + rest
  }

  lemma InsertStep<T>(x: T, s: seq<T>, key: T -> int, rest: seq<T>)
    requires s != [] && SortedBy(s, key) && key(s[0]) < key(x)
    requires SortedBy(rest, key) && multiset(rest) == multiset(s[1..]) + multiset{x}
    requires forall k :: 0 <= k < |rest| ==> rest[k] == x || rest[k] in s[1..]
    ensures SortedBy([s[0]] + rest, key)
    ensures multiset([s[0]] + rest) == multiset(s) + multiset{x}
    ensures forall k :: 0 <= k < |rest| + 1 ==> ([s[0]] + rest)[k] == x || ([s[0]] + rest)[k] in s
  {
    assert s == [s[0]] + s[1..];
    var r := [s[0]] + rest;
    forall k | 0 <= k < |rest| ensures key(s[0]) <= key(rest[k]) {
      if rest[k] != x {
        var m :| 0 <= m < |s[1..]| && s[1..][m] == rest[k];
        assert s[m + 1] == rest[k];
      }
    }
    forall i, j | 0 <= i < j < |r| ensures key(r[i]) <= key(r[j]) {
      assert r[j] == rest[j - 1];
      if i > 0 {
        assert r[i] == rest[i - 1];
      }
    }
    forall k | 0 <= k < |r| ensures r[k] == x || r[k] in s {
      if k > 0 { assert r[k] == rest[k - 1]; }
    }
  }

  /** A permutation of `s` in non-decreasing order of `key`. The database does
      not specify the order of rows with equal keys, and neither does this contract. */
  function SortBy<T(==)>(s: seq<T>, key: T -> int): (r: seq<T>)
    ensures multiset(r) == multiset(s)
    ensures SortedBy(r, key)
    ensures |r| == |s|
  {
    if s == [] then []
    else
      assert s == [s[0]] + s[1..];
      Insert(s[0], SortBy(s[1..], key), key)
  }

  /** Sorting keeps exactly the elements it was given. */
  lemma SortKeepsElements<T>(s: seq<T>, key: T -> int, x: T)
    ensures x in SortBy(s, key) <==> x in s
  {
    var r := SortBy(s, key);
    assert x in r <==> x in multiset(r);
    assert x in s <==> x in multiset(s);
  }
}
