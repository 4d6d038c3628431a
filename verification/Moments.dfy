/**
 The spread of values about their mean, as `computeVariance` computes it (algebra/agg_util.go:350-390),
 against the textbook formula from the sums of the values and of their squares.
 */
module Moments {
  import opened Sums

  function Square(x: real): real {
    x * x
  }

  function Power<T>(num: T -> real): T -> real {
    x => Square(num(x))
  }

  function Deviation<T>(num: T -> real, mean: real): T -> real {
    x => Square(num(x) - mean)
  }

  function Mean<T>(num: T -> real, q: seq<T>): real
    requires q != []
  {
    SumOf(num, q) / (|q| as real)
  }

  /** The squared distances from the mean, over one less the correction `delta` than the number of values. */
  function Spread<T>(num: T -> real, q: seq<T>, delta: real): real
    requires q != [] && (|q| as real) != delta
  {
    SumOf(Deviation(num, Mean(num, q)), q) / ((|q| as real) - delta)
  }

  /** The sum of squared distances from a point, from the number, the sum and the squares of the values. */
  function ByMoments(n: real, sum: real, squares: real, point: real): real {
    squares - 2.0 * (point * sum) + n * (point * point)
  }

  lemma {:induction false} OneMoreMoment(n: real, sum: real, squares: real, point: real, x: real)
    ensures ByMoments(n + 1.0, sum + x, squares + Square(x), point) == ByMoments(n, sum, squares, point) + Square(x - point)
  {
    assert Square(x - point) == x * x - 2.0 * (point * x) + point * point;
    assert point * (sum + x) == point * sum + point * x;
    assert (n + 1.0) * (point * point) == n * (point * point) + point * point;
  }

  lemma {:induction false} DeviationsByMoments<T>(num: T -> real, q: seq<T>, point: real)
    ensures SumOf(Deviation(num, point), q) == ByMoments(|q| as real, SumOf(num, q), SumOf(Power(num), q), point)
  {
    if q == [] {
      assert ByMoments(0.0, 0.0, 0.0, point) == 0.0;
    } else {
      hide ByMoments, Square;
      var init, x := q[..|q| - 1], num(q[|q| - 1]);
      DeviationsByMoments(num, init, point);
      OneMoreMoment(|init| as real, SumOf(num, init), SumOf(Power(num), init), point, x);
    }
  }

  lemma {:induction false} MomentsAboutMean(n: real, sum: real, squares: real)
    requires n != 0.0
    ensures n * ByMoments(n, sum, squares, sum / n) == n * squares - Square(sum)
  {
    var mean := sum / n;
    assert n * mean == sum;
    assert n * (mean * sum) == sum * sum;
    assert n * (n * (mean * mean)) == (n * mean) * (n * mean);
  }

  /** The computed variance is the textbook one: (n * sum(x^2) - sum(x)^2) / (n * (n - delta)). */
  lemma {:induction false} SpreadByMoments<T>(num: T -> real, q: seq<T>, delta: real)
    requires q != [] && (|q| as real) != delta
    ensures
      var n := |q| as real;
      Spread(num, q, delta) == (n * SumOf(Power(num), q) - Square(SumOf(num, q))) / (n * (n - delta))
  {
    hide ByMoments, Square;
    DeviationsByMoments(num, q, Mean(num, q));
    MomentsAboutMean(|q| as real, SumOf(num, q), SumOf(Power(num), q));
    Cancel(|q| as real, SumOf(Deviation(num, Mean(num, q)), q), (|q| as real) - delta);
  }

  lemma {:induction false} Cancel(n: real, a: real, b: real)
    requires n != 0.0 && b != 0.0
    ensures n * b != 0.0 && a / b == (n * a) / (n * b)
  {
    var r := a / b;
    assert r * b == a;
    assert r * (n * b) == n * a;
  }

  lemma {:induction false} DeviationsAreNonnegative<T>(num: T -> real, q: seq<T>, mean: real)
    ensures SumOf(Deviation(num, mean), q) >= 0.0
    ensures SumOf(Deviation(num, mean), q) == 0.0 <==> forall x :: x in q ==> num(x) == mean
  {
    if q != [] {
      var init, last := q[..|q| - 1], q[|q| - 1];
      DeviationsAreNonnegative(num, init, mean);
      assert q == init + [last];
      hide Square;
      SquareIsPositive(num(last) - mean);
    }
  }

  lemma {:induction false} PositiveProduct(x: real, y: real, p: real)
    requires x > 0.0 && y > 0.0 && p == x * y
    ensures p > 0.0
  {
  }

  lemma {:induction false} SquareIsPositive(x: real)
    ensures Square(x) >= 0.0 && (Square(x) == 0.0 <==> x == 0.0)
  {
    if x < 0.0 {
      PositiveProduct(-x, -x, Square(x));
    } else if x > 0.0 {
      PositiveProduct(x, x, Square(x));
    }
  }

  lemma {:induction false} SumOfEqual<T>(num: T -> real, q: seq<T>, v: real)
    requires forall x :: x in q ==> num(x) == v
    ensures SumOf(num, q) == (|q| as real) * v
  {
    if q != [] {
      SumOfEqual(num, q[..|q| - 1], v);
      assert (|q| as real) * v == ((|q| - 1) as real) * v + v;
    }
  }

  /** A variance is never negative, and is zero exactly when all values are equal. */
  lemma {:induction false} SpreadIsZeroExactly<T>(num: T -> real, q: seq<T>, delta: real)
    requires q != [] && delta < |q| as real
    ensures Spread(num, q, delta) >= 0.0
    ensures Spread(num, q, delta) == 0.0 <==> forall x, y :: x in q && y in q ==> num(x) == num(y)
  {
    var mean, n := Mean(num, q), |q| as real;
    DeviationsAreNonnegative(num, q, mean);
    QuotientSign(SumOf(Deviation(num, mean), q), n - delta);
    if forall x, y :: x in q && y in q ==> num(x) == num(y) {
      assert q[0] in q;
      SumOfEqual(num, q, num(q[0]));
      QuotientOfProduct(SumOf(num, q), n, num(q[0]));
    }
  }

  lemma {:induction false} QuotientOfProduct(a: real, b: real, v: real)
    requires b > 0.0 && a == b * v
    ensures a / b == v
  {
    assert (a / b) * b == a;
  }

  lemma {:induction false} QuotientSign(a: real, b: real)
    requires a >= 0.0 && b > 0.0
    ensures a / b >= 0.0 && (a / b == 0.0 <==> a == 0.0)
  {
    assert (a / b) * b == a;
  }
}
