/** Rolling statistics of one book (src/engine/aggregator.cpp). */
module Aggregators {
  import opened Levels
  import opened OrderBooks
  import opened Windows

  datatype Snapshot = Snapshot(
    spread: real, mid: real, bidVwap: real, askVwap: real, midSma: real, spreadSma: real,
    imbalance: real, imbalanceDelta: real, samples: nat)

  datatype Agg = Agg(mids: seq<real>, spreads: seq<real>, snap: Snapshot)

  const EmptyAgg: Agg := Agg([], [], Snapshot(0.0, 0.0, 0.0, 0.0, 0.0, 0.0, 0.0, 0.0, 0))

  function Imbalance(b: Book): real {
    var bid, ask := TotalQty(b.bids, |b.bids|), TotalQty(b.asks, |b.asks|);
    if bid + ask > 0.0 then (bid - ask) / (bid + ask) else 0.0
  }

  /** `Aggregator::update` with `levels` VWAP levels and an SMA over `window` samples. */
  function Refresh(a: Agg, b: Book, levels: nat, window: nat): Agg
    requires window >= 1
  {
    var mids := if b.Mid() > 0.0 then Push(a.mids, b.Mid(), window) else a.mids;
    var spreads := if b.Spread() >= 0.0 then Push(a.spreads, b.Spread(), window) else a.spreads;
    Agg(mids, spreads,
        Snapshot(b.Spread(), b.Mid(), Vwap(b.bids, levels), Vwap(b.asks, levels),
                 if b.Mid() > 0.0 then Mean(mids) else a.snap.midSma,
                 if b.Spread() >= 0.0 then Mean(spreads) else a.snap.spreadSma,
                 Imbalance(b), Imbalance(b) - a.snap.imbalance, a.snap.samples + 1))
  }

  /** The aggregator after a whole history of books. */
  function Run(books: seq<Book>, levels: nat, window: nat): Agg
    requires window >= 1
  {
    if books == [] then EmptyAgg else Refresh(Run(books[..|books| - 1], levels, window), books[|books| - 1], levels, window)
  }

  method SideImbalance(b: Book) returns (imbalance: real)
    ensures imbalance == Imbalance(b) && IsImbalance(imbalance, b)
  {
    ImbalanceIs(b);
    var totalBid := SideTotal(b.bids);
    var totalAsk := SideTotal(b.asks);
    var total := totalBid + totalAsk;
    imbalance := if total > 0.0 then (totalBid - totalAsk) / total else 0.0;
  }

  class Aggregator {
    const vwapLevels: nat
    const smaWindow: nat
    var mids: seq<real>
    var spreads: seq<real>
    var snapshot: Snapshot

    function State(): Agg
      reads this
    {
      Agg(mids, spreads, snapshot)
    }

    constructor (vwapLevels: nat, smaWindow: nat)
      ensures State() == EmptyAgg && this.vwapLevels == vwapLevels && this.smaWindow == smaWindow
    {
      this.vwapLevels, this.smaWindow := vwapLevels, smaWindow;
      mids, spreads, snapshot := [], [], EmptyAgg.snap;
    }

    method UpdateFrom(book: OrderBook)
      requires smaWindow >= 1
      modifies this
      ensures State() == Refresh(old(State()), book.State(), vwapLevels, smaWindow)
      ensures IsImbalance(snapshot.imbalance, book.State())
      ensures snapshot.imbalanceDelta == snapshot.imbalance - old(snapshot.imbalance)
      ensures IsVwap(snapshot.bidVwap, book.bids, vwapLevels) && IsVwap(snapshot.askVwap, book.asks, vwapLevels)
    {
      hide Mean, Vwap, Imbalance, Push, IsImbalance, IsVwap;
      var b := book.State();
      var bidVwap := SideVwap(b.bids, vwapLevels);
      var askVwap := SideVwap(b.asks, vwapLevels);
      snapshot := snapshot.(spread := b.Spread(), mid := b.Mid(), bidVwap := bidVwap, askVwap := askVwap);

      var prev := snapshot.imbalance;
      var imbalance := SideImbalance(b);
      snapshot := snapshot.(imbalance := imbalance, imbalanceDelta := imbalance - prev);

      if snapshot.mid > 0.0 {
        var mean;
        mids, mean := RollingMean(mids, snapshot.mid, smaWindow);
        snapshot := snapshot.(midSma := mean);
      }
      if snapshot.spread >= 0.0 {
        var mean;
        spreads, mean := RollingMean(spreads, snapshot.spread, smaWindow);
        snapshot := snapshot.(spreadSma := mean);
      }
      snapshot := snapshot.(samples := snapshot.samples + 1);
    }

    method Reset()
      modifies this
      ensures State() == EmptyAgg
    {
      mids, spreads, snapshot := [], [], EmptyAgg.snap;
    }
  }

  // ---------------------------------------------------------------- whole histories

  /** All positive mid prices of a history. */
  function PositiveMids(books: seq<Book>): seq<real> {
    if books == [] then []
    else
      var b := books[|books| - 1];
      PositiveMids(books[..|books| - 1]) + (if b.Mid() > 0.0 then [b.Mid()] else [])
  }

  function NonNegativeSpreads(books: seq<Book>): seq<real> {
    if books == [] then []
    else
      var b := books[|books| - 1];
      NonNegativeSpreads(books[..|books| - 1]) + (if b.Spread() >= 0.0 then [b.Spread()] else [])
  }

  lemma {:induction false} MidsAreWindowed(books: seq<Book>, levels: nat, window: nat)
    requires window >= 1
    ensures var a := Run(books, levels, window);
      a.mids == LastN(PositiveMids(books), window) && a.snap.midSma == (if a.mids == [] then 0.0 else Mean(a.mids))
    decreases |books|
  {
    if books != [] {
      var init, b := books[..|books| - 1], books[|books| - 1];
      var a, a', mids := Run(init, levels, window), Run(books, levels, window), PositiveMids(init);
      MidsAreWindowed(init, levels, window);
      PushIsLastN(mids, b.Mid(), window);
      assert a' == Refresh(a, b, levels, window);
      if b.Mid() > 0.0 {
        assert PositiveMids(books) == mids + [b.Mid()];
        assert a'.mids == Push(a.mids, b.Mid(), window);
      } else {
        assert PositiveMids(books) == mids;
        assert a'.mids == a.mids;
      }
    }
  }

  lemma {:induction false} SpreadsAreWindowed(books: seq<Book>, levels: nat, window: nat)
    requires window >= 1
    ensures var a := Run(books, levels, window);
      a.spreads == LastN(NonNegativeSpreads(books), window)
      && a.snap.spreadSma == (if a.spreads == [] then 0.0 else Mean(a.spreads))
    decreases |books|
  {
    if books != [] {
      var init, b := books[..|books| - 1], books[|books| - 1];
      var a, a', spreads := Run(init, levels, window), Run(books, levels, window), NonNegativeSpreads(init);
      SpreadsAreWindowed(init, levels, window);
      PushIsLastN(spreads, b.Spread(), window);
      assert a' == Refresh(a, b, levels, window);
      if b.Spread() >= 0.0 {
        assert NonNegativeSpreads(books) == spreads + [b.Spread()];
        assert a'.spreads == Push(a.spreads, b.Spread(), window);
      } else {
        assert NonNegativeSpreads(books) == spreads;
        assert a'.spreads == a.spreads;
      }
    }
  }

  lemma {:induction false} SamplesAreCounted(books: seq<Book>, levels: nat, window: nat)
    requires window >= 1
    ensures Run(books, levels, window).snap.samples == |books|
    decreases |books|
  {
    if books != [] { SamplesAreCounted(books[..|books| - 1], levels, window); }
  }

  /** x times the quantity on both sides is what the bids have more than the asks. */
  ghost predicate IsImbalance(x: real, b: Book) {
    var bid, ask := Sum(Quantities(b.bids)), Sum(Quantities(b.asks));
    IsRatio(x, bid - ask, bid + ask)
  }

  ghost predicate IsMean(x: real, s: seq<real>) {
    if s == [] then x == 0.0 else x * |s| as real == Sum(s)
  }

  /** Spread and mid of a book whose best levels come first. */
  ghost predicate IsTop(spread: real, mid: real, b: Book) {
    if b.bids == [] || b.asks == [] then spread == 0.0 && mid == 0.0
    else spread == b.asks[0].price - b.bids[0].price && 2.0 * mid == b.bids[0].price + b.asks[0].price
  }

  /** The statistics of a history of books, each figure from the levels of the books alone. */
  ghost predicate IsStatistics(x: Snapshot, books: seq<Book>, levels: nat, window: nat) {
    && x.samples == |books|
    && IsMean(x.midSma, LastN(PositiveMids(books), window))
    && IsMean(x.spreadSma, LastN(NonNegativeSpreads(books), window))
    && if books == [] then x == EmptyAgg.snap
       else
         var n := |books| - 1;
         && IsTop(x.spread, x.mid, books[n])
         && IsVwap(x.bidVwap, books[n].bids, levels) && IsVwap(x.askVwap, books[n].asks, levels)
         && IsImbalance(x.imbalance, books[n])
         && (if n == 0 then x.imbalanceDelta == x.imbalance else IsImbalance(x.imbalance - x.imbalanceDelta, books[n - 1]))
  }

  lemma {:induction false} ImbalanceIs(b: Book)
    ensures IsImbalance(Imbalance(b), b)
  {
    TotalIsSum(b.bids);
    TotalIsSum(b.asks);
  }

  lemma MeanIs(s: seq<real>)
    ensures IsMean(if s == [] then 0.0 else Mean(s), s)
  {
  }

  lemma {:induction false} LastBookCounts(books: seq<Book>, levels: nat, window: nat)
    requires window >= 1 && books != []
    ensures var x, n := Run(books, levels, window).snap, |books| - 1;
      && x.spread == books[n].Spread() && x.mid == books[n].Mid()
      && IsVwap(x.bidVwap, books[n].bids, levels) && IsVwap(x.askVwap, books[n].asks, levels)
      && IsImbalance(x.imbalance, books[n])
      && (if n == 0 then x.imbalanceDelta == x.imbalance else IsImbalance(x.imbalance - x.imbalanceDelta, books[n - 1]))
  {
    hide Imbalance, IsImbalance, Vwap, IsVwap, Mean, Push;
    var n := |books| - 1;
    ImbalanceIs(books[n]);
    VwapIsAverage(books[n].bids, levels);
    VwapIsAverage(books[n].asks, levels);
    if n > 0 { ImbalanceIs(books[n - 1]); }
  }

  /** The deques hold the last W positive mids and the last W non-negative spreads of the whole
      history, the averages are theirs, and every figure is what the levels of the books say. */
  lemma {:induction false} RunIsWindowed(books: seq<Book>, levels: nat, window: nat)
    requires window >= 1
    ensures var a := Run(books, levels, window);
      && a.mids == LastN(PositiveMids(books), window)
      && a.spreads == LastN(NonNegativeSpreads(books), window)
      && a.snap.midSma == (if a.mids == [] then 0.0 else Mean(a.mids))
      && a.snap.spreadSma == (if a.spreads == [] then 0.0 else Mean(a.spreads))
      && (books != [] ==> a.snap.mid == books[|books| - 1].Mid())
      && IsStatistics(a.snap, books, levels, window)
  {
    hide IsMean, Mean, IsVwap, IsImbalance, PositiveMids, NonNegativeSpreads, Refresh;
    var a := Run(books, levels, window);
    MidsAreWindowed(books, levels, window);
    SpreadsAreWindowed(books, levels, window);
    SamplesAreCounted(books, levels, window);
    MeanIs(a.mids);
    MeanIs(a.spreads);
    if books != [] { LastBookCounts(books, levels, window); }
  }

  /** A book with bids only has imbalance 1, one with asks only -1. */
  lemma {:induction false} OneSidedImbalance(x: real, b: Book)
    requires IsImbalance(x, b)
    ensures b.asks == [] && Sum(Quantities(b.bids)) > 0.0 ==> x == 1.0
    ensures b.bids == [] && Sum(Quantities(b.asks)) > 0.0 ==> x == -1.0
  {
    var q := Sum(Quantities(b.bids)) + Sum(Quantities(b.asks));
    assert Sum([]) == 0.0;
    if b.asks == [] && q > 0.0 { assert (x - 1.0) * q == 0.0; }
    if b.bids == [] && q > 0.0 { assert (x + 1.0) * q == 0.0; }
  }

  lemma {:induction false} MidsArePositive(books: seq<Book>)
    ensures forall i {:trigger PositiveMids(books)[i]} :: 0 <= i < |PositiveMids(books)| ==> PositiveMids(books)[i] > 0.0
  {
    if books != [] { MidsArePositive(books[..|books| - 1]); }
  }

  lemma {:induction false} SpreadsAreNonNegative(books: seq<Book>)
    ensures forall i {:trigger NonNegativeSpreads(books)[i]} :: 0 <= i < |NonNegativeSpreads(books)| ==> NonNegativeSpreads(books)[i] >= 0.0
  {
    if books != [] { SpreadsAreNonNegative(books[..|books| - 1]); }
  }

  /** Each average lies between the smallest and the largest sample of its window. */
  lemma SmasAreBounded(books: seq<Book>, levels: nat, window: nat, lo: real, hi: real)
    requires window >= 1
    ensures var a := Run(books, levels, window);
      && (a.mids != [] && (forall i {:trigger a.mids[i]} :: 0 <= i < |a.mids| ==> lo <= a.mids[i] <= hi)
          ==> lo <= a.snap.midSma <= hi)
      && (a.spreads != [] && (forall i {:trigger a.spreads[i]} :: 0 <= i < |a.spreads| ==> lo <= a.spreads[i] <= hi)
          ==> lo <= a.snap.spreadSma <= hi)
  {
    RunIsWindowed(books, levels, window);
    var a := Run(books, levels, window);
    if a.mids != [] && (forall i {:trigger a.mids[i]} :: 0 <= i < |a.mids| ==> lo <= a.mids[i] <= hi) {
      MeanBounds(a.mids, lo, hi);
    }
    if a.spreads != [] && (forall i {:trigger a.spreads[i]} :: 0 <= i < |a.spreads| ==> lo <= a.spreads[i] <= hi) {
      MeanBounds(a.spreads, lo, hi);
    }
  }

  function Abs(x: real): real { if x < 0.0 then -x else x }

  /** The value PRICE_DEVIATION is judged by. */
  function Deviation(s: Snapshot): real
    requires s.midSma > 0.0
  {
    Abs(s.mid - s.midSma) / s.midSma
  }

  ghost predicate PositivePrices(b: Book) {
    (forall i {:trigger b.bids[i]} :: 0 <= i < |b.bids| ==> b.bids[i].price > 0.0) &&
    (forall i {:trigger b.asks[i]} :: 0 <= i < |b.asks| ==> b.asks[i].price > 0.0)
  }

  /** A mid that is one of n positive samples deviates from their mean by at most n - 1 times it. */
  lemma DeviationOfSample(s: Snapshot, samples: seq<real>, k: nat, w: real)
    requires k < |samples| && s.mid == samples[k] && s.midSma == Mean(samples)
    requires forall i {:trigger samples[i]} :: 0 <= i < |samples| ==> samples[i] > 0.0
    requires s.midSma > 0.0 && |samples| as real <= w
    ensures Deviation(s) <= 1.0 || Deviation(s) <= w - 1.0
  {
    ElementBelowSum(samples, k);
    var sma, n := s.midSma, |samples| as real;
    assert sma * n == Sum(samples);
    Scale(n, w, sma);
    if s.mid >= sma {
      assert (w - 1.0) * sma == w * sma - sma;
      Quotient(s.mid - sma, sma, 0.0, w - 1.0);
    } else {
      Quotient(sma - s.mid, sma, 0.0, 1.0);
    }
  }

  /** With both sides present the newest sample of the window is the current mid. */
  lemma WindowOfMids(books: seq<Book>, window: nat)
    requires window >= 1 && books != [] && books[|books| - 1].Mid() > 0.0
    ensures var w := LastN(PositiveMids(books), window);
      && 0 < |w| <= window && w[|w| - 1] == books[|books| - 1].Mid()
      && forall i {:trigger w[i]} :: 0 <= i < |w| ==> w[i] > 0.0
  {
    MidsArePositive(books);
    var mids := PositiveMids(books);
    var w := LastN(mids, window);
    assert forall i {:trigger w[i]} :: 0 <= i < |w| ==> w[i] == mids[|mids| - |w| + i];
  }

  /** Over a window of W samples the deviation never exceeds max(1, W - 1); on a one-sided book
      the stale average makes it exactly 1. */
  lemma DeviationIsBounded(books: seq<Book>, levels: nat, window: nat)
    requires window >= 1 && books != [] && PositivePrices(books[|books| - 1])
    requires Run(books, levels, window).snap.midSma > 0.0
    ensures var s, b := Run(books, levels, window).snap, books[|books| - 1];
      && (Deviation(s) <= 1.0 || Deviation(s) <= window as real - 1.0)
      && (b.bids == [] || b.asks == [] ==> Deviation(s) == 1.0)
  {
    hide Run, PositiveMids, NonNegativeSpreads;
    var a, b := Run(books, levels, window), books[|books| - 1];
    RunIsWindowed(books, levels, window);
    if b.bids == [] || b.asks == [] {
      assert a.snap.midSma / a.snap.midSma == 1.0;
    } else {
      WindowOfMids(books, window);
      DeviationOfSample(a.snap, a.mids, |a.mids| - 1, window as real);
    }
  }

  // ---------------------------------------------------------------- imbalance

  ghost predicate NonNegativeQuantities(b: Book) {
    (forall i {:trigger b.bids[i]} :: 0 <= i < |b.bids| ==> b.bids[i].qty >= 0.0) &&
    (forall i {:trigger b.asks[i]} :: 0 <= i < |b.asks| ==> b.asks[i].qty >= 0.0)
  }

  lemma {:induction false} TotalNonNegative(side: seq<Levels.Level>, n: nat)
    requires n <= |side| && forall i {:trigger side[i]} :: 0 <= i < |side| ==> side[i].qty >= 0.0
    ensures TotalQty(side, n) >= 0.0
    decreases n
  {
    if n > 0 { TotalNonNegative(side, n - 1); }
  }

  lemma ImbalanceIsNormalised(b: Book)
    requires NonNegativeQuantities(b)
    ensures -1.0 <= Imbalance(b) <= 1.0
  {
    TotalNonNegative(b.bids, |b.bids|);
    TotalNonNegative(b.asks, |b.asks|);
    var bid, ask := TotalQty(b.bids, |b.bids|), TotalQty(b.asks, |b.asks|);
    if bid + ask > 0.0 { Quotient(bid - ask, bid + ask, -1.0, 1.0); }
  }

  /** The snapshot after the k-th update of a history. */
  function SnapAt(books: seq<Book>, k: nat, levels: nat, window: nat): Snapshot
    requires window >= 1 && k < |books|
  {
    Run(books[..k + 1], levels, window).snap
  }

  /** The deltas of a run telescope. */
  lemma DeltaAt(books: seq<Book>, k: nat, levels: nat, window: nat)
    requires window >= 1 && 0 < k < |books|
    ensures SnapAt(books, k, levels, window).imbalance
         == SnapAt(books, k - 1, levels, window).imbalance + SnapAt(books, k, levels, window).imbalanceDelta
  {
    assert books[..k + 1][..k] == books[..k];
  }

  lemma OneStepLess(n: nat, phi: real)
    requires n > 0
    ensures n as real * phi == (n - 1) as real * phi + phi && (n == 1 ==> n as real * phi == phi)
  {
    assert (n - 1) as real == n as real - 1.0;
  }

  /** If the imbalance falls by more than n steps of phi within n updates, one update made it
      fall by more than phi. */
  lemma {:induction false} SomeUpdateFalls(books: seq<Book>, levels: nat, window: nat, lo: nat, hi: nat, phi: real)
    requires window >= 1 && lo < hi < |books|
    requires SnapAt(books, hi, levels, window).imbalance
           < SnapAt(books, lo, levels, window).imbalance - (hi - lo) as real * phi
    ensures exists k :: lo < k <= hi && SnapAt(books, k, levels, window).imbalanceDelta < -phi
    decreases hi
  {
    hide SnapAt;
    DeltaAt(books, hi, levels, window);
    if SnapAt(books, hi, levels, window).imbalanceDelta >= -phi {
      OneStepLess(hi - lo, phi);
      if lo < hi - 1 { SomeUpdateFalls(books, levels, window, lo, hi - 1, phi); }
    }
  }

  lemma {:induction false} SomeUpdateRises(books: seq<Book>, levels: nat, window: nat, lo: nat, hi: nat, phi: real)
    requires window >= 1 && lo < hi < |books|
    requires SnapAt(books, hi, levels, window).imbalance
           > SnapAt(books, lo, levels, window).imbalance + (hi - lo) as real * phi
    ensures exists k :: lo < k <= hi && SnapAt(books, k, levels, window).imbalanceDelta > phi
    decreases hi
  {
    hide SnapAt;
    DeltaAt(books, hi, levels, window);
    if SnapAt(books, hi, levels, window).imbalanceDelta <= phi {
      OneStepLess(hi - lo, phi);
      if lo < hi - 1 { SomeUpdateRises(books, levels, window, lo, hi - 1, phi); }
    }
  }
}
