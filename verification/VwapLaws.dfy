/** Laws of the volume-weighted prices of a sorted book (src/engine/order_book.cpp). */
module VwapLaws {
  import opened Levels
  import opened OrderBooks
  import opened Windows

  ghost predicate Positive(side: seq<Levels.Level>) {
    forall i {:trigger side[i]} :: 0 <= i < |side| ==> side[i].qty > 0.0
  }

  function Min(a: nat, b: nat): nat { if a < b then a else b }

  /** The notional of the first n bids lies between n-th price times quantity and best price
      times quantity. */
  lemma {:induction false} NotionalBounds(side: seq<Levels.Level>, n: nat)
    requires Sorted(true, side) && Positive(side) && 1 <= n <= |side|
    ensures TotalQty(side, n) > 0.0
    ensures side[n - 1].price * TotalQty(side, n) <= Notional(side, n) <= side[0].price * TotalQty(side, n)
    decreases n
  {
    var l := side[n - 1];
    if n == 1 {
      assert TotalQty(side, 0) == 0.0 && Notional(side, 0) == 0.0;
    } else {
      NotionalBounds(side, n - 1);
      assert Before(true, side[n - 2].price, l.price) && Before(true, side[0].price, l.price);
      WeightedStep(l.price, side[n - 2].price, side[0].price, TotalQty(side, n - 1), l.qty, Notional(side, n - 1));
    }
  }

  /** One more weight at a price p below all others keeps the weighted sum between the bounds. */
  lemma {:induction false} WeightedStep(p: real, lo: real, hi: real, q: real, w: real, x: real)
    requires p <= lo && p <= hi && q > 0.0 && w > 0.0 && lo * q <= x <= hi * q
    ensures p * (q + w) <= x + p * w <= hi * (q + w)
  {
    Scale(p, lo, q);
    Scale(p, hi, w);
    assert p * (q + w) == p * q + p * w;
    assert hi * (q + w) == hi * q + hi * w;
  }

  /** A further weight at a price not above the average does not raise the average. */
  lemma CheaperLowers(x: real, q: real, p: real, w: real)
    requires q > 0.0 && w > 0.0 && p <= x / q
    ensures (x + p * w) / (q + w) <= x / q
  {
    var v := x / q;
    assert v * q == x;
    Scale(p, v, w);
    assert v * (q + w) == x + v * w;
    var y := x + p * w;
    assert (y / (q + w)) * (q + w) == y;
    Scale(v, y / (q + w), q + w);
  }

  lemma AfterNext(side: seq<Levels.Level>, n: nat)
    requires n < |side|
    ensures TotalQty(side, n + 1) == TotalQty(side, n) + side[n].qty
    ensures Notional(side, n + 1) == Notional(side, n) + side[n].price * side[n].qty
  {
  }

  /** Adding the next, cheaper bid can only lower the average. */
  lemma {:induction false} NextLevelLowers(side: seq<Levels.Level>, n: nat)
    requires Sorted(true, side) && Positive(side) && 1 <= n < |side|
    ensures Vwap(side, n + 1) <= Vwap(side, n)
  {
    hide TotalQty, Notional;
    AfterNext(side, n);
    NotionalBounds(side, n);
    NotionalBounds(side, n + 1);
    assert Before(true, side[n - 1].price, side[n].price);
    Quotient(Notional(side, n), TotalQty(side, n), side[n - 1].price, side[0].price);
    CheaperLowers(Notional(side, n), TotalQty(side, n), side[n].price, side[n].qty);
  }

  /** For a descending side: the average over n levels lies between the n-th and the best price
      and does not rise when more levels are taken. */
  lemma {:induction false} BidVwapLaws(side: seq<Levels.Level>, n: nat, m: nat)
    requires Sorted(true, side) && Positive(side) && 1 <= n <= m
    ensures Vwap(side, m) <= Vwap(side, n)
    ensures side != [] ==> side[Min(n, |side|) - 1].price <= Vwap(side, n) <= side[0].price
    decreases m - n
  {
    if side != [] {
      var k := Min(n, |side|);
      NotionalBounds(side, k);
      Quotient(Notional(side, k), TotalQty(side, k), side[k - 1].price, side[0].price);
      if n < m {
        BidVwapLaws(side, n, m - 1);
        if m <= |side| { NextLevelLowers(side, m - 1); }
      }
    }
  }

  // ---------------------------------------------------------------- asks by reflection

  /** The side with all prices negated: ascending becomes descending. */
  function Mirror(side: seq<Levels.Level>): (m: seq<Levels.Level>)
    ensures |m| == |side|
  {
    seq(|side|, i requires 0 <= i < |side| => Levels.Level(-side[i].price, side[i].qty))
  }

  lemma {:induction false} MirrorSums(side: seq<Levels.Level>, n: nat)
    requires n <= |side|
    ensures TotalQty(Mirror(side), n) == TotalQty(side, n) && Notional(Mirror(side), n) == -Notional(side, n)
    decreases n
  {
    if n > 0 {
      MirrorSums(side, n - 1);
      var l := side[n - 1];
      assert (-l.price) * l.qty == -(l.price * l.qty);
    }
  }

  lemma {:induction false} MirrorVwap(side: seq<Levels.Level>, n: nat)
    ensures Vwap(Mirror(side), n) == -Vwap(side, n)
  {
    var k := Min(n, |side|);
    MirrorSums(side, k);
    var q := TotalQty(side, k);
    if q > 0.0 {
      var v := Notional(side, k) / q;
      assert (-v) * q == -(v * q) == -Notional(side, k);
      assert -v == (-Notional(side, k)) / q;
    }
  }

  lemma {:induction false} AskVwapLaws(side: seq<Levels.Level>, n: nat, m: nat)
    requires Sorted(false, side) && Positive(side) && 1 <= n <= m
    ensures Vwap(side, n) <= Vwap(side, m)
    ensures side != [] ==> side[0].price <= Vwap(side, n) <= side[Min(n, |side|) - 1].price
  {
    var r := Mirror(side);
    assert Sorted(true, r) by {
      forall i, j | 0 <= i < j < |r| ensures Before(true, r[i].price, r[j].price) {
        assert Before(false, side[i].price, side[j].price);
      }
    }
    BidVwapLaws(r, n, m);
    MirrorVwap(side, n);
    MirrorVwap(side, m);
  }

  /** With both sides present the averages, over any numbers of levels, are at least the spread apart. */
  lemma {:induction false} VwapsSpanTheSpread(b: Book, n: nat, m: nat)
    requires ValidBook(b) && Positive(b.bids) && Positive(b.asks) && b.bids != [] && b.asks != [] && n >= 1 && m >= 1
    ensures Vwap(b.asks, n) - Vwap(b.bids, m) >= b.Spread()
  {
    AskVwapLaws(b.asks, n, n);
    BidVwapLaws(b.bids, m, m);
  }
}
