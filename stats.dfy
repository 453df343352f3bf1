/** The column statistics pandas computes for the engine, over exact reals:
    sum, mean, sample variance (ddof = 1), minimum, maximum, median, the
    z-score tests and the first-ranked mode. */
module Stats {
  import opened Seqs
  import opened Text
  import opened Frames

  function Sum(xs: seq<real>): real
  {
    if xs == [] then 0.0 else Sum(xs[..|xs| - 1]) + xs[|xs| - 1]
  }

  function Mean(xs: seq<real>): real
    requires |xs| > 0
  {
    Sum(xs) / (|xs| as real)
  }

  function Product(a: real, b: real): real
  {
    a * b
  }

  function Square(d: real): real
  {
    Product(d, d)
  }

  /** The sum of squared deviations from `m`. */
  function SumSquares(xs: seq<real>, m: real): real
  {
    if xs == [] then 0.0 else SumSquares(xs[..|xs| - 1], m) + Square(xs[|xs| - 1] - m)
  }

  /** pandas' `Series.var()`: the sample variance, defined from two values on. */
  function Variance(xs: seq<real>): real
    requires |xs| >= 2
  {
    SumSquares(xs, Mean(xs)) / ((|xs| - 1) as real)
  }

  function Min(xs: seq<real>): (m: real)
    requires |xs| > 0
    ensures exists k :: 0 <= k < |xs| && xs[k] == m
    ensures forall i :: 0 <= i < |xs| ==> m <= xs[i]
  {
    if |xs| == 1 then xs[0]
    else
      var rest := Min(xs[1..]);
      assert forall i :: 1 <= i < |xs| ==> xs[i] == xs[1..][i - 1];
      if xs[0] < rest then xs[0] else rest
  }

  function Max(xs: seq<real>): (m: real)
    requires |xs| > 0
    ensures exists k :: 0 <= k < |xs| && xs[k] == m
    ensures forall i :: 0 <= i < |xs| ==> xs[i] <= m
  {
    if |xs| == 1 then xs[0]
    else
      var rest := Max(xs[1..]);
      assert forall i :: 1 <= i < |xs| ==> xs[i] == xs[1..][i - 1];
      if xs[0] > rest then xs[0] else rest
  }

  // ---------------------------------------------------------------- z-scores

  /** `(v - mean) / std` has a value for some present cell: there are at least
      two numbers (otherwise `std()` is NaN) and they are not all equal
      (otherwise every deviation is 0/0). */
  predicate ZDefined(xs: seq<real>)
  {
    |xs| >= 2 && Variance(xs) > 0.0
  }

  /** `abs((v - mean) / std) > thr` holds in pandas: the cell is a number and
      its z-score is defined and beyond `thr`. For a non-negative `thr` the
      test is squared, `(v - mean)^2 > thr^2 * var`, so no square root is
      needed; a negative `thr` is exceeded by every defined z-score. */
  predicate ZAbove(c: Cell, xs: seq<real>, thr: real)
  {
    c.Num? && ZDefined(xs)
    && (thr < 0.0 || Square(c.x - Mean(xs)) > thr * thr * Variance(xs))
  }

  /** `abs((v - mean) / std) < thr` holds in pandas. An undefined z-score is
      NaN, and every comparison with NaN is false. */
  predicate ZBelow(c: Cell, xs: seq<real>, thr: real)
  {
    c.Num? && ZDefined(xs) && thr > 0.0
    && Square(c.x - Mean(xs)) < thr * thr * Variance(xs)
  }

  lemma ProductPositive(a: real, b: real)
    requires a > 0.0 && b > 0.0
    ensures Product(a, b) > 0.0
  {
  }

  lemma ProductNegatives(a: real, b: real)
    ensures Product(-a, -b) == Product(a, b)
  {
  }

  lemma SquareSign(d: real)
    ensures Square(d) >= 0.0
    ensures d != 0.0 ==> Square(d) > 0.0
  {
    if d > 0.0 {
      ProductPositive(d, d);
    } else if d < 0.0 {
      ProductPositive(-d, -d);
      ProductNegatives(d, d);
    }
  }

  lemma {:induction false} SumSquaresNonNegative(xs: seq<real>, m: real)
    ensures SumSquares(xs, m) >= 0.0
    decreases |xs|
  {
    if xs != [] {
      SumSquaresNonNegative(xs[..|xs| - 1], m);
      SquareSign(xs[|xs| - 1] - m);
    }
  }

  lemma {:induction false} SumSquaresPositive(xs: seq<real>, m: real, k: nat)
    requires k < |xs| && xs[k] != m
    ensures SumSquares(xs, m) > 0.0
    decreases |xs|
  {
    var init := xs[..|xs| - 1];
    if k == |xs| - 1 {
      SumSquaresNonNegative(init, m);
      SquareSign(xs[k] - m);
    } else {
      SumSquaresPositive(init, m, k);
      SquareSign(xs[|xs| - 1] - m);
    }
  }

  lemma {:induction false} SumSquaresConstant(xs: seq<real>, m: real)
    requires forall i :: 0 <= i < |xs| ==> xs[i] == m
    ensures SumSquares(xs, m) == 0.0
    decreases |xs|
  {
    if xs != [] {
      SumSquaresConstant(xs[..|xs| - 1], m);
    }
  }

  lemma {:induction false} SumConstant(xs: seq<real>, m: real)
    requires forall i :: 0 <= i < |xs| ==> xs[i] == m
    ensures Sum(xs) == (|xs| as real) * m
    decreases |xs|
  {
    if xs != [] {
      SumConstant(xs[..|xs| - 1], m);
    }
  }

  /** The z-score is defined exactly when there are two numbers that differ:
      a standard deviation of zero means a constant column. */
  lemma ZDefinedIffVaried(xs: seq<real>)
    ensures ZDefined(xs) <==> exists i, j :: 0 <= i < j < |xs| && xs[i] != xs[j]
  {
    if |xs| >= 2 {
      var n := (|xs| - 1) as real;
      if exists i, j :: 0 <= i < j < |xs| && xs[i] != xs[j] {
        var i, j :| 0 <= i < j < |xs| && xs[i] != xs[j];
        var m := Mean(xs);
        var k := if xs[i] != m then i else j;
        SumSquaresPositive(xs, m, k);
        QuotientPositive(SumSquares(xs, m), n);
        assert Variance(xs) == SumSquares(xs, m) / n;
      } else {
        var c := xs[0];
        assert forall i :: 0 <= i < |xs| ==> xs[i] == c by {
          forall i | 0 <= i < |xs| ensures xs[i] == c {
            if i > 0 { assert xs[0] == xs[i]; }
          }
        }
        SumConstant(xs, c);
        QuotientOfMultiple(|xs| as real, c);
        assert Mean(xs) == ((|xs| as real) * c) / (|xs| as real) == c;
        SumSquaresConstant(xs, c);
        assert Variance(xs) == 0.0 / n;
      }
    }
  }

  /** No cell is at once beyond and within the same non-negative threshold. */
  lemma ZAboveExcludesBelow(c: Cell, xs: seq<real>, thr: real)
    requires thr >= 0.0
    ensures !(ZAbove(c, xs, thr) && ZBelow(c, xs, thr))
  {
  }

  // ------------------------------------------------------------------ bounds

  lemma {:induction false} SumBounds(xs: seq<real>, lo: real, hi: real)
    requires forall i :: 0 <= i < |xs| ==> lo <= xs[i] <= hi
    ensures (|xs| as real) * lo <= Sum(xs) <= (|xs| as real) * hi
    decreases |xs|
  {
    if xs != [] {
      SumBounds(xs[..|xs| - 1], lo, hi);
    }
  }

  lemma QuotientOfMultiple(n: real, c: real)
    requires n > 0.0
    ensures (n * c) / n == c
  {
  }

  lemma QuotientBounds(total: real, n: real, lo: real, hi: real)
    requires n > 0.0 && n * lo <= total <= n * hi
    ensures lo <= total / n <= hi
  {
    var q := total / n;
    assert q * n == total;
  }

  lemma QuotientPositive(total: real, n: real)
    requires n > 0.0 && total > 0.0
    ensures total / n > 0.0
  {
    var q := total / n;
    assert q * n == total;
  }

  lemma MeanBetween(xs: seq<real>, lo: real, hi: real)
    requires |xs| > 0
    requires forall i :: 0 <= i < |xs| ==> lo <= xs[i] <= hi
    ensures lo <= Mean(xs) <= hi
  {
    SumBounds(xs, lo, hi);
    QuotientBounds(Sum(xs), |xs| as real, lo, hi);
  }

  /** The mean lies between the smallest and the largest value. */
  lemma MeanWithin(xs: seq<real>)
    requires |xs| > 0
    ensures Min(xs) <= Mean(xs) <= Max(xs)
  {
    MeanBetween(xs, Min(xs), Max(xs));
  }

  // ------------------------------------------------------------------ median

  predicate Sorted(s: seq<real>)
  {
    forall i, j :: 0 <= i < j < |s| ==> s[i] <= s[j]
  }

  /** A lower bound of the values of `s` bounds every permutation of `s`. */
  lemma LowerBoundOfPermutation(lo: real, r: seq<real>, s: seq<real>)
    requires forall k :: 0 <= k < |s| ==> lo <= s[k]
    requires multiset(r) == multiset(s)
    ensures forall i :: 0 <= i < |r| ==> lo <= r[i]
  {
    forall i | 0 <= i < |r| ensures lo <= r[i] {
      assert r[i] in multiset(s);
      var k :| 0 <= k < |s| && s[k] == r[i];
    }
  }

  /** Putting the head of `s` back in front of the insertion into its tail
      gives a sorted permutation of `s` and `x`. */
  lemma InsertStep(x: real, s: seq<real>, rest: seq<real>)
    requires Sorted(s) && s != [] && s[0] < x
    requires Sorted(rest) && multiset(rest) == multiset(s[1..]) + multiset{x}
    ensures Sorted([s[0]] + rest)
    ensures multiset([s[0]] + rest) == multiset(s) + multiset{x}
  {
    assert s == [s[0]] + s[1..];
    assert multiset(s[1..] + [x]) == multiset(s[1..]) + multiset{x};
    LowerBoundOfPermutation(s[0], rest, s[1..] + [x]);
  }

  function Insert(x: real, s: seq<real>): (r: seq<real>)
    requires Sorted(s)
    ensures Sorted(r)
    ensures multiset(r) == multiset(s) + multiset{x}
  {
    if s == [] || x <= s[0] then [x] + s
    else
      var rest := Insert(x, s[1..]);
      InsertStep(x, s, rest);
      [s[0]] + rest
  }

  function SortAscending(xs: seq<real>): (r: seq<real>)
    ensures Sorted(r)
    ensures multiset(r) == multiset(xs)
  {
    if xs == [] then []
    else
      assert xs == [xs[0]] + xs[1..];
      Insert(xs[0], SortAscending(xs[1..]))
  }

  /** numpy's median: the middle value once sorted, or the mean of the two
      middle values when their number is even. */
  function Median(xs: seq<real>): real
    requires |xs| > 0
  {
    var s := SortAscending(xs);
    var n := |s|;
    assert |s| == |multiset(xs)| == |xs|;
    if n % 2 == 1 then s[n / 2] else (s[n / 2 - 1] + s[n / 2]) / 2.0
  }

  /** Every value of a permutation of `xs` lies between the smallest and
      the largest value of `xs`. */
  lemma PermutationWithin(s: seq<real>, xs: seq<real>)
    requires |xs| > 0 && multiset(s) == multiset(xs)
    ensures forall i :: 0 <= i < |s| ==> Min(xs) <= s[i] <= Max(xs)
  {
    forall i | 0 <= i < |s| ensures Min(xs) <= s[i] <= Max(xs) {
      assert s[i] in multiset(xs);
      var k :| 0 <= k < |xs| && xs[k] == s[i];
    }
  }

  /** The median lies between the smallest and the largest value. */
  lemma MedianWithin(xs: seq<real>)
    requires |xs| > 0
    ensures Min(xs) <= Median(xs) <= Max(xs)
  {
    var s := SortAscending(xs);
    assert |s| == |multiset(xs)| == |xs|;
    PermutationWithin(s, xs);
    MiddleWithin(s, Min(xs), Max(xs));
  }

  /** The middle value of a sequence, or the average of its two middle
      values, lies within any bounds of all its values. */
  lemma MiddleWithin(s: seq<real>, lo: real, hi: real)
    requires |s| > 0 && forall i :: 0 <= i < |s| ==> lo <= s[i] <= hi
    ensures var n := |s|;
      lo <= (if n % 2 == 1 then s[n / 2] else (s[n / 2 - 1] + s[n / 2]) / 2.0) <= hi
  {
  }

  // -------------------------------------------------------------------- mode

  /** The rank of a cell's kind, so that cells of different kinds compare. */
  function KindRank(c: Cell): nat
  {
    match c
    case Missing => 0
    case Num(_) => 1
    case Str(_) => 2
    case Stamp(_) => 3
    case Opaque(_) => 4
  }

  /** The order pandas sorts the modes of a column in: numbers and
      timestamps by value, strings as Python orders them. */
  predicate CellLess(a: Cell, b: Cell)
  {
    if KindRank(a) != KindRank(b) then KindRank(a) < KindRank(b)
    else match (a, b)
      case (Num(x), Num(y)) => x < y
      case (Str(x), Str(y)) => StrLess(x, y)
      case (Stamp(x), Stamp(y)) => x < y
      case (Opaque(x), Opaque(y)) => x < y
      case _ => false
  }

  lemma CellLessIrreflexive(a: Cell)
    ensures !CellLess(a, a)
  {
    if a.Str? { StrLessIrreflexive(a.s); }
  }

  lemma CellLessTransitive(a: Cell, b: Cell, c: Cell)
    requires CellLess(a, b) && CellLess(b, c)
    ensures CellLess(a, c)
  {
    if a.Str? && b.Str? && c.Str? { StrLessTransitive(a.s, b.s, c.s); }
  }

  /** `a` ranks before `b` among the modes of `s`: it occurs more often, or
      as often and sorts first. */
  predicate RanksBefore(s: seq<Cell>, a: Cell, b: Cell)
  {
    Count(s, a) > Count(s, b) || (Count(s, a) == Count(s, b) && CellLess(a, b))
  }

  lemma RanksBeforeTransitive(s: seq<Cell>, a: Cell, b: Cell, c: Cell)
    requires RanksBefore(s, a, b) && RanksBefore(s, b, c)
    ensures RanksBefore(s, a, c)
  {
    if Count(s, a) == Count(s, b) == Count(s, c) {
      CellLessTransitive(a, b, c);
    }
  }

  /** The best-ranked of the first `k` elements of `s`. */
  function BestOf(s: seq<Cell>, k: nat): (m: Cell)
    requires 0 < k <= |s|
    ensures m in s[..k]
    ensures forall i :: 0 <= i < k ==> !RanksBefore(s, s[i], m)
  {
    if k == 1 then
      CellLessIrreflexive(s[0]);
      s[0]
    else
      var b := BestOf(s, k - 1);
      var y := s[k - 1];
      assert s[..k] == s[..k - 1] + [y];
      if RanksBefore(s, y, b) then
        CellLessIrreflexive(y);
        assert forall i :: 0 <= i < k - 1 ==> !RanksBefore(s, s[i], y) by {
          forall i | 0 <= i < k - 1 ensures !RanksBefore(s, s[i], y) {
            if RanksBefore(s, s[i], y) { RanksBeforeTransitive(s, s[i], y, b); }
          }
        }
        y
      else
        b
  }

  /** `df.mode().iloc[0]` for a column with at least one value: a most
      frequent value, and among equally frequent ones the first in sort
      order. */
  function Mode(s: seq<Cell>): (m: Cell)
    requires |s| > 0
    ensures m in s
    ensures forall x :: x in s ==> Count(s, x) < Count(s, m) || (Count(s, x) == Count(s, m) && !CellLess(x, m))
  {
    var m := BestOf(s, |s|);
    assert s[..|s|] == s;
    assert forall x :: x in s ==> !RanksBefore(s, x, m) by {
      forall x | x in s ensures !RanksBefore(s, x, m) {
        var i :| 0 <= i < |s| && s[i] == x;
      }
    }
    m
  }
}
