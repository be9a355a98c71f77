/** Sums, means and bounded windows over sequences of reals. */
module Windows {

  function Sum(s: seq<real>): real {
    if s == [] then 0.0 else Sum(s[..|s| - 1]) + s[|s| - 1]
  }

  function Mean(s: seq<real>): real
    requires s != []
  {
    Sum(s) / |s| as real
  }

  /** x is num / den, or 0 without a positive denominator. */
  ghost predicate IsRatio(x: real, num: real, den: real) {
    if den > 0.0 then x * den == num else x == 0.0
  }

  /** Comparing a ratio is comparing its numerator. */
  lemma RatioExceeds(x: real, num: real, den: real, limit: real)
    requires den > 0.0 && x * den == num
    ensures x > limit <==> num > limit * den
    ensures x < limit <==> num < limit * den
  {
    Scale(limit, x, den);
    Scale(x, limit, den);
  }

  /** The last n elements, or all of them. */
  function LastN<T>(s: seq<T>, n: nat): seq<T> {
    if |s| <= n then s else s[|s| - n..]
  }

  /** `push_back` followed by `pop_front` when the window is exceeded. */
  function Push<T>(w: seq<T>, x: T, n: nat): seq<T> {
    if |w| + 1 > n then (w + [x])[1..] else w + [x]
  }

  /** A bounded deque fed one element at a time always holds the last n of them. */
  lemma PushIsLastN<T>(s: seq<T>, x: T, n: nat)
    ensures Push(LastN(s, n), x, n) == LastN(s + [x], n)
  {
  }

  /** `std::accumulate` */
  method Accumulate(s: seq<real>) returns (total: real)
    ensures total == Sum(s)
  {
    total := 0.0;
    var i := 0;
    while i < |s|
      invariant 0 <= i <= |s| && total == Sum(s[..i])
    {
      total := total + s[i];
      assert s[..i + 1][..i] == s[..i];
      i := i + 1;
    }
    assert s[..i] == s;
  }

  /** One sample into a rolling window, and the new mean. */
  method RollingMean(w: seq<real>, x: real, n: nat) returns (w': seq<real>, mean: real)
    requires n >= 1
    ensures w' == Push(w, x, n) && w' != [] && mean == Mean(w')
  {
    w' := w + [x];
    if |w'| > n {
      w' := w'[1..];
    }
    var sum := Accumulate(w');
    mean := sum / |w'| as real;
  }

  lemma {:induction false} SumBounds(s: seq<real>, lo: real, hi: real)
    requires forall i {:trigger s[i]} :: 0 <= i < |s| ==> lo <= s[i] <= hi
    ensures lo * |s| as real <= Sum(s) <= hi * |s| as real
  {
    if s != [] {
      SumBounds(s[..|s| - 1], lo, hi);
      var n := |s| as real;
      assert |s[..|s| - 1]| as real == n - 1.0;
      assert lo * n == lo * (n - 1.0) + lo && hi * n == hi * (n - 1.0) + hi;
    }
  }

  /** A mean lies between any bounds of the elements. */
  lemma {:induction false} MeanBounds(s: seq<real>, lo: real, hi: real)
    requires s != [] && forall i {:trigger s[i]} :: 0 <= i < |s| ==> lo <= s[i] <= hi
    ensures lo <= Mean(s) <= hi
  {
    SumBounds(s, lo, hi);
    Quotient(Sum(s), |s| as real, lo, hi);
  }

  lemma Quotient(x: real, q: real, lo: real, hi: real)
    requires q > 0.0 && lo * q <= x <= hi * q
    ensures lo <= x / q <= hi
  {
    var v := x / q;
    assert v * q == x;
    Scale(v, lo, q);
    Scale(hi, v, q);
  }

  lemma Scale(a: real, b: real, q: real)
    requires q > 0.0
    ensures a < b ==> a * q < b * q
    ensures a <= b ==> a * q <= b * q
  {
    assert b * q - a * q == (b - a) * q;
    if a < b { assert (b - a) * q > 0.0; }
    if a <= b { assert (b - a) * q >= 0.0; }
  }

  /** No element of a sequence of positive numbers exceeds the sum. */
  lemma {:induction false} ElementBelowSum(s: seq<real>, k: nat)
    requires k < |s| && forall i {:trigger s[i]} :: 0 <= i < |s| ==> s[i] > 0.0
    ensures s[k] <= Sum(s)
  {
    var init := s[..|s| - 1];
    if k < |s| - 1 {
      ElementBelowSum(init, k);
    } else {
      SumNonNegative(init);
    }
  }

  lemma {:induction false} SumNonNegative(s: seq<real>)
    requires forall i {:trigger s[i]} :: 0 <= i < |s| ==> s[i] >= 0.0
    ensures Sum(s) >= 0.0
  {
    if s != [] { SumNonNegative(s[..|s| - 1]); }
  }
}
