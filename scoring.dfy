/** The arithmetic of automatic grading: cosine similarity of two embedding
    vectors over their shared prefix, the linear map from similarity in
    [-1, 1] to an integer score in [0, 100], and the late-submission
    discount. Numbers are exact reals; `Math.sqrt` is a function parameter
    and `Math.round` is `Round`, which agrees with it on every value that
    occurs here. */
module Scoring {

  function Min(a: int, b: int): int {
    if a <= b then a else b
  }

  function MaxReal(a: real, b: real): real {
    if a >= b then a else b
  }

  function MinReal(a: real, b: real): real {
    if a <= b then a else b
  }

  /** `Math.round`: the nearest integer, halves rounded up. */
  function Round(x: real): (n: int)
    ensures x - 0.5 < n as real <= x + 0.5
  {
    (x + 0.5).Floor
  }

  lemma RoundMonotone(x: real, y: real)
    requires x <= y
    ensures Round(x) <= Round(y)
  {
  }

  lemma RoundOfInteger(n: int)
    ensures Round(n as real) == n
  {
  }

  // ---------------------------------------------------------------- score

  /** `toScore`: similarity clamped to [-1, 1], mapped linearly onto
      [0, 100], clamped again and rounded. */
  function ToScore(similarity: real): (score: int)
    ensures 0 <= score <= 100
  {
    var clamped := MaxReal(-1.0, MinReal(1.0, similarity));
    var scaled := ((clamped + 1.0) / 2.0) * 100.0;
    var r := Round(MaxReal(0.0, MinReal(100.0, scaled)));
    RoundMonotone(0.0, MaxReal(0.0, MinReal(100.0, scaled)));
    RoundMonotone(MaxReal(0.0, MinReal(100.0, scaled)), 100.0);
    RoundOfInteger(0);
    RoundOfInteger(100);
    r
  }

  /** Inside [-1, 1] the score is the rounded linear image of the similarity. */
  lemma ToScoreLinear(s: real)
    requires -1.0 <= s <= 1.0
    ensures ToScore(s) == Round((s + 1.0) * 50.0)
  {
  }

  /** Outside [-1, 1] the score saturates. */
  lemma ToScoreSaturates(s: real)
    ensures s >= 1.0 ==> ToScore(s) == 100
    ensures s <= -1.0 ==> ToScore(s) == 0
  {
    RoundOfInteger(0);
    RoundOfInteger(100);
  }

  /** A more similar answer never scores lower. */
  lemma ToScoreMonotone(s: real, t: real)
    requires s <= t
    ensures ToScore(s) <= ToScore(t)
  {
    var cs := MaxReal(-1.0, MinReal(1.0, s));
    var ct := MaxReal(-1.0, MinReal(1.0, t));
    assert cs <= ct;
    var xs := MaxReal(0.0, MinReal(100.0, ((cs + 1.0) / 2.0) * 100.0));
    var xt := MaxReal(0.0, MinReal(100.0, ((ct + 1.0) / 2.0) * 100.0));
    assert xs <= xt;
    RoundMonotone(xs, xt);
  }

  lemma ToScoreValues()
    ensures ToScore(-1.0) == 0 && ToScore(0.0) == 50 && ToScore(1.0) == 100
    ensures ToScore(0.6) == 80 && ToScore(0.5) == 75
  {
    RoundOfInteger(0);
    RoundOfInteger(50);
    RoundOfInteger(100);
    RoundOfInteger(80);
    RoundOfInteger(75);
  }

  // ---------------------------------------------------------- late penalty

  /** `Math.max(0, 1 - penaltyPercent / 100)`. */
  function PenaltyFactor(percent: int): (f: real)
    ensures 0.0 <= f
    ensures percent >= 0 ==> f <= 1.0
    ensures percent >= 100 ==> f == 0.0
  {
    MaxReal(0.0, 1.0 - percent as real / 100.0)
  }

  /** The late-submission step of `autoEvaluate`: only a positive penalty
      and a submission strictly after the deadline change the score, which
      is then scaled down by the factor and rounded. */
  function LatePenalty(score: int, percent: int, submitted: int, due: int): (r: int)
    ensures !(percent > 0 && submitted > due) ==> r == score
    ensures 0 <= score && percent > 0 && submitted > due ==> 0 <= r <= score
    ensures percent >= 100 && submitted > due ==> r == 0
  {
    if percent > 0 && submitted > due then
      PenaltyRounded(score, PenaltyFactor(percent));
      Round(score as real * PenaltyFactor(percent))
    else score
  }

  lemma PenaltyRounded(score: int, f: real)
    requires 0.0 <= f
    ensures 0 <= score && f <= 1.0 ==> 0 <= Round(score as real * f) <= score
    ensures f == 0.0 ==> Round(score as real * f) == 0
  {
    RoundOfInteger(0);
    if 0 <= score && f <= 1.0 {
      var x := score as real * f;
      MulNonnegative(score as real, f);
      MulNonnegative(score as real, 1.0 - f);
      assert 0.0 <= x <= score as real;
      RoundMonotone(0.0, x);
      RoundMonotone(x, score as real);
      RoundOfInteger(score);
    }
  }

  /** Twenty percent off a late 90 gives 72; an on-time submission keeps its score. */
  lemma LatePenaltyExamples()
    ensures LatePenalty(90, 20, 2, 1) == 72
    ensures LatePenalty(90, 20, 1, 1) == 90
    ensures LatePenalty(90, 0, 2, 1) == 90
    ensures LatePenalty(90, 150, 2, 1) == 0
  {
  }

  /** A larger penalty never gives a late submission a higher score. */
  lemma LatePenaltyMonotone(score: int, p: int, q: int, submitted: int, due: int)
    requires 0 <= score && 0 < p <= q && submitted > due
    ensures LatePenalty(score, q, submitted, due) <= LatePenalty(score, p, submitted, due)
  {
    assert PenaltyFactor(q) <= PenaltyFactor(p);
    assert score as real * PenaltyFactor(q) <= score as real * PenaltyFactor(p);
    RoundMonotone(score as real * PenaltyFactor(q), score as real * PenaltyFactor(p));
  }

  // ---------------------------------------------------------------- cosine

  /** The sum of `a[i] * b[i]` over the first `n` positions. */
  function Dot(a: seq<real>, b: seq<real>, n: nat): real
    requires n <= |a| && n <= |b|
  {
    if n == 0 then 0.0 else Dot(a, b, n - 1) + a[n - 1] * b[n - 1]
  }

  /** `cosine(a, b)`: over the shared prefix, the dot product divided by the
      product of the two norms, and 0 when that product is 0. */
  function CosineOf(a: seq<real>, b: seq<real>, sqrt: real -> real): real {
    var n := Min(|a|, |b|);
    CosineOfSums(Dot(a, b, n), Dot(a, a, n), Dot(b, b, n), sqrt)
  }

  /** The similarity from the dot product and the two sums of squares. */
  function CosineOfSums(dot: real, squaresA: real, squaresB: real, sqrt: real -> real): real {
    var denom := sqrt(squaresA) * sqrt(squaresB);
    if denom == 0.0 then 0.0 else dot / denom
  }

  /** With two positive sums of squares the denominator is the positive
      product of their roots. */
  lemma CosineOfPositiveSums(dot: real, x: real, y: real, sqrt: real -> real)
    requires IsSqrt(sqrt)
    requires x > 0.0 && y > 0.0
    ensures sqrt(x) > 0.0 && sqrt(x) * sqrt(x) == x
    ensures sqrt(y) > 0.0 && sqrt(y) * sqrt(y) == y
    ensures CosineOfSums(dot, x, y, sqrt) == dot / (sqrt(x) * sqrt(y))
  {
    RootsPositive(x, y, sqrt);
  }

  /** `sqrt` is the non-negative square root on non-negative reals. */
  ghost predicate IsSqrt(sqrt: real -> real) {
    forall x: real :: x >= 0.0 ==> sqrt(x) >= 0.0 && sqrt(x) * sqrt(x) == x
  }

  /** The loop of `cosine`. */
  method Cosine(a: seq<real>, b: seq<real>, sqrt: real -> real) returns (r: real)
    ensures r == CosineOf(a, b, sqrt)
  {
    var len := Min(|a|, |b|);
    var dot := 0.0;
    var normA := 0.0;
    var normB := 0.0;
    var i := 0;
    while i < len
      invariant 0 <= i <= len
      invariant dot == Dot(a, b, i) && normA == Dot(a, a, i) && normB == Dot(b, b, i)
    {
      var va := a[i];
      var vb := b[i];
      assert Dot(a, b, i + 1) == Dot(a, b, i) + va * vb;
      assert Dot(a, a, i + 1) == Dot(a, a, i) + va * va;
      assert Dot(b, b, i + 1) == Dot(b, b, i) + vb * vb;
      dot := dot + va * vb;
      normA := normA + va * va;
      normB := normB + vb * vb;
      i := i + 1;
    }
    var denom := sqrt(normA) * sqrt(normB);
    if denom == 0.0 {
      return 0.0;
    }
    return dot / denom;
  }

  lemma {:induction false} DotPrefix(a: seq<real>, b: seq<real>, a2: seq<real>, b2: seq<real>, n: nat)
    requires n <= |a| && n <= |b| && n <= |a2| && n <= |b2|
    requires a[..n] == a2[..n] && b[..n] == b2[..n]
    ensures Dot(a, b, n) == Dot(a2, b2, n)
  {
    if n > 0 {
      assert a[n - 1] == a[..n][n - 1] == a2[n - 1];
      assert b[n - 1] == b[..n][n - 1] == b2[n - 1];
      assert a[..n - 1] == a[..n][..n - 1] && a2[..n - 1] == a2[..n][..n - 1];
      assert b[..n - 1] == b[..n][..n - 1] && b2[..n - 1] == b2[..n][..n - 1];
      DotPrefix(a, b, a2, b2, n - 1);
    }
  }

  /** Only the shared prefix is read: entries of the longer vector past the
      shorter one's length do not matter. */
  lemma CosineReadsSharedPrefix(a: seq<real>, b: seq<real>, sqrt: real -> real)
    ensures var n := Min(|a|, |b|); CosineOf(a, b, sqrt) == CosineOf(a[..n], b[..n], sqrt)
  {
    var n := Min(|a|, |b|);
    assert a[..n][..n] == a[..n] && b[..n][..n] == b[..n];
    DotPrefix(a, b, a[..n], b[..n], n);
    DotPrefix(a, a, a[..n], a[..n], n);
    DotPrefix(b, b, b[..n], b[..n], n);
  }

  lemma {:induction false} DotSymmetric(a: seq<real>, b: seq<real>, n: nat)
    requires n <= |a| && n <= |b|
    ensures Dot(a, b, n) == Dot(b, a, n)
  {
    if n > 0 {
      DotSymmetric(a, b, n - 1);
    }
  }

  lemma CosineSymmetric(a: seq<real>, b: seq<real>, sqrt: real -> real)
    ensures CosineOf(a, b, sqrt) == CosineOf(b, a, sqrt)
  {
    DotSymmetric(a, b, Min(|a|, |b|));
  }

  lemma {:induction false} SquaresNonnegative(a: seq<real>, n: nat)
    requires n <= |a|
    ensures Dot(a, a, n) >= 0.0
  {
    if n > 0 {
      SquaresNonnegative(a, n - 1);
      Square(a[n - 1]);
    }
  }

  lemma MulPositive(x: real, y: real)
    requires x > 0.0 && y > 0.0
    ensures x * y > 0.0
  {
  }

  lemma MulNonnegative(x: real, y: real)
    requires x >= 0.0 && y >= 0.0
    ensures x * y >= 0.0
  {
    if x > 0.0 && y > 0.0 {
      MulPositive(x, y);
    }
  }

  lemma Square(x: real)
    ensures x * x >= 0.0
    ensures x != 0.0 ==> x * x > 0.0
  {
    if x > 0.0 {
      MulPositive(x, x);
    } else if x < 0.0 {
      MulPositive(-x, -x);
      assert (-x) * (-x) == x * x;
    }
  }

  /** When either partial norm is zero the similarity is 0. */
  lemma CosineOfZeroVector(a: seq<real>, b: seq<real>, sqrt: real -> real)
    requires IsSqrt(sqrt)
    requires var n := Min(|a|, |b|); Dot(a, a, n) == 0.0 || Dot(b, b, n) == 0.0
    ensures CosineOf(a, b, sqrt) == 0.0
  {
    var n := Min(|a|, |b|);
    SquaresNonnegative(a, n);
    SquaresNonnegative(b, n);
    if Dot(a, a, n) == 0.0 {
      assert sqrt(0.0) * sqrt(0.0) == 0.0;
      assert sqrt(Dot(a, a, n)) == 0.0;
    } else {
      assert sqrt(0.0) * sqrt(0.0) == 0.0;
      assert sqrt(Dot(b, b, n)) == 0.0;
    }
  }

  /** Otherwise it is the dot product over the product of the norms, whose
      squares are the two partial sums of squares. */
  lemma CosineOfNonzero(a: seq<real>, b: seq<real>, sqrt: real -> real)
    requires IsSqrt(sqrt)
    requires var n := Min(|a|, |b|); Dot(a, a, n) != 0.0 && Dot(b, b, n) != 0.0
    ensures var n := Min(|a|, |b|);
      var na := sqrt(Dot(a, a, n));
      var nb := sqrt(Dot(b, b, n));
      na > 0.0 && nb > 0.0 && na * na == Dot(a, a, n) && nb * nb == Dot(b, b, n) &&
      CosineOf(a, b, sqrt) == Dot(a, b, n) / (na * nb)
  {
    var n := Min(|a|, |b|);
    SquaresNonnegative(a, n);
    SquaresNonnegative(b, n);
    CosineOfPositiveSums(Dot(a, b, n), Dot(a, a, n), Dot(b, b, n), sqrt);
  }

  /** The roots of two positive numbers, and their product, are positive. */
  lemma RootsPositive(x: real, y: real, sqrt: real -> real)
    requires IsSqrt(sqrt)
    requires x > 0.0 && y > 0.0
    ensures sqrt(x) > 0.0 && sqrt(x) * sqrt(x) == x
    ensures sqrt(y) > 0.0 && sqrt(y) * sqrt(y) == y
    ensures sqrt(x) * sqrt(y) > 0.0
  {
    assert sqrt(x) >= 0.0 && sqrt(x) * sqrt(x) == x;
    assert sqrt(y) >= 0.0 && sqrt(y) * sqrt(y) == y;
    MulPositive(sqrt(x), sqrt(y));
  }

  /** A non-zero vector is perfectly similar to itself. */
  lemma CosineSelf(a: seq<real>, sqrt: real -> real)
    requires IsSqrt(sqrt)
    requires Dot(a, a, |a|) != 0.0
    ensures CosineOf(a, a, sqrt) == 1.0
  {
    CosineOfNonzero(a, a, sqrt);
    var na := sqrt(Dot(a, a, |a|));
    assert na * na != 0.0;
    assert (na * na) / (na * na) == 1.0;
  }
}
