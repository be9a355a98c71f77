/** When each condition triggers and which value it reports, from the levels of the book, the mids, trades
    and closed windows a symbol has. The functions that judge conditions and compute averages and
    imbalances do not occur in these statements. */
module Verdicts {
  import opened Windows
  import opened Words
  import opened OrderBooks
  import opened Aggregators
  import Trading = TradeAggregators
  import Tumbling = TumblingWindows
  import opened Signals
  import opened Engine
  import opened Sharding
  import opened SymbolHistory
  import opened FiringLog
  import opened Published
  import BookMeaning

  /** What the trades of one side add to the volume. */
  function Amounts(trades: seq<Trading.TradeEntry>, buy: bool): (xs: seq<real>)
    ensures |xs| == |trades|
  {
    seq(|trades|, i requires 0 <= i < |trades| => if trades[i].isBuy == buy then trades[i].qty else 0.0)
  }

  function Bought(st: SymState): real { Sum(Amounts(st.trades.trades, true)) }

  function Sold(st: SymState): real { Sum(Amounts(st.trades.trades, false)) }

  /** Best ask minus best bid, 0 without both. */
  function Gap(b: Book): real {
    if b.bids == [] || b.asks == [] then 0.0 else b.asks[0].price - b.bids[0].price
  }

  function TwiceMid(b: Book): real {
    if b.bids == [] || b.asks == [] then 0.0 else b.bids[0].price + b.asks[0].price
  }

  /** How far the mid is from the average of the sampled mids, times twice their number. */
  function Distance(st: SymState): real {
    var d := TwiceMid(st.book) * |st.agg.mids| as real - 2.0 * Sum(st.agg.mids);
    if d < 0.0 then -d else d
  }

  /** num / den > limit, where a ratio without positive denominator is 0. */
  ghost predicate Exceeds(num: real, den: real, limit: real) {
    if den > 0.0 then num > limit * den else 0.0 > limit
  }

  /** st is the symbol's state after a depth message, `before` its book before that message. */
  ghost predicate ShouldTrigger(c: Condition, before: Book, st: SymState) {
    var bid, ask := Sum(Quantities(st.book.bids)), Sum(Quantities(st.book.asks));
    var closed := st.trades.completed;
    match c.kind
    case SpreadWide => Gap(st.book) > c.threshold
    case SpreadNarrow => 0.0 < Gap(st.book) < c.threshold
    case ImbalanceBid => Exceeds(bid - ask, bid + ask, c.threshold)
    case ImbalanceAsk => Exceeds(ask - bid, bid + ask, c.threshold)
    case PriceDeviation =>
      st.agg.mids != [] && Sum(st.agg.mids) > 0.0 && Distance(st) > c.threshold * (2.0 * Sum(st.agg.mids))
    case TradeImbalanceBuy => st.trades.trades != [] && Exceeds(Bought(st) - Sold(st), Bought(st) + Sold(st), c.threshold)
    case TradeImbalanceSell => st.trades.trades != [] && Exceeds(Sold(st) - Bought(st), Bought(st) + Sold(st), c.threshold)
    case VolumeSpike =>
      closed != [] && Sum(closed) > 0.0 && (Bought(st) + Sold(st)) * |closed| as real > c.threshold * Sum(closed)
    case BookPressureBid =>
      st.book.updates > 1 && exists now, prev :: IsImbalance(now, st.book) && IsImbalance(prev, before) && now - prev > c.threshold
    case BookPressureAsk =>
      st.book.updates > 1 && exists now, prev :: IsImbalance(now, st.book) && IsImbalance(prev, before) && prev - now > c.threshold
  }

  /** v is the value reported with the signal. */
  ghost predicate IsValue(v: real, c: Condition, before: Book, st: SymState) {
    match c.kind
    case SpreadWide | SpreadNarrow => v == Gap(st.book)
    case ImbalanceBid | ImbalanceAsk => IsImbalance(v, st.book)
    case PriceDeviation => v * (2.0 * Sum(st.agg.mids)) == Distance(st)
    case TradeImbalanceBuy | TradeImbalanceSell => IsRatio(v, Bought(st) - Sold(st), Bought(st) + Sold(st))
    case VolumeSpike => v * Sum(st.trades.completed) == (Bought(st) + Sold(st)) * |st.trades.completed| as real
    case BookPressureBid | BookPressureAsk => exists prev :: IsImbalance(prev, before) && IsImbalance(prev + v, st.book)
  }

  // ---------------------------------------------------------------- one judgement

  /** The published statistics are those of the book and the samples. */
  ghost predicate StatisticsLinked(before: Book, b: Book, a: Agg) {
    && IsTop(a.snap.spread, a.snap.mid, b) && a.snap.samples == b.updates && IsMean(a.snap.midSma, a.mids)
    && IsImbalance(a.snap.imbalance, b) && IsImbalance(a.snap.imbalance - a.snap.imbalanceDelta, before)
  }

  /** The published volumes are those of the trades and the closed windows. */
  ghost predicate TradesLinked(ts: Trading.TradeState) {
    && Trading.IsTradeSnapshot(ts.snap, Sum(Amounts(ts.trades, true)), Sum(Amounts(ts.trades, false)), |ts.trades|)
    && IsMean(ts.snap.volumeSma, ts.completed) && (ts.trades == [] ==> ts.completed == [])
  }

  ghost predicate Linked(before: Book, st: SymState) {
    StatisticsLinked(before, st.book, st.agg) && TradesLinked(st.trades)
  }

  lemma RatioUnique(x: real, y: real, num: real, den: real)
    requires IsRatio(x, num, den) && IsRatio(y, num, den)
    ensures x == y
  {
    if den > 0.0 {
      RatioExceeds(x, num, den, y);
    }
  }

  lemma RatioComparison(x: real, num: real, den: real, limit: real)
    requires IsRatio(x, num, den)
    ensures x > limit <==> Exceeds(num, den, limit)
    ensures x < -limit <==> Exceeds(-num, den, limit)
  {
    if den > 0.0 {
      RatioExceeds(x, num, den, limit);
      RatioExceeds(x, num, den, -limit);
      assert (-limit) * den == -(limit * den);
    }
  }

  lemma SpreadMeans(c: Condition, before: Book, st: SymState)
    requires Linked(before, st) && (c.kind.SpreadWide? || c.kind.SpreadNarrow?)
    ensures var v := Judge(c, st.agg.snap, InfoOf(st.trades));
      (v.triggered <==> ShouldTrigger(c, before, st)) && (v.triggered ==> IsValue(v.value, c, before, st))
  {
    hide IsImbalance, IsMean, TradesLinked;
  }

  lemma ImbalanceMeans(c: Condition, before: Book, st: SymState)
    requires Linked(before, st) && (c.kind.ImbalanceBid? || c.kind.ImbalanceAsk?)
    ensures var v := Judge(c, st.agg.snap, InfoOf(st.trades));
      (v.triggered <==> ShouldTrigger(c, before, st)) && (v.triggered ==> IsValue(v.value, c, before, st))
  {
    hide IsMean, TradesLinked, IsTop, Exceeds;
    var bid, ask := Sum(Quantities(st.book.bids)), Sum(Quantities(st.book.asks));
    RatioComparison(st.agg.snap.imbalance, bid - ask, bid + ask, c.threshold);
    assert -(bid - ask) == ask - bid;
  }

  lemma PressureMeans(c: Condition, before: Book, st: SymState)
    requires Linked(before, st) && (c.kind.BookPressureBid? || c.kind.BookPressureAsk?)
    ensures var v := Judge(c, st.agg.snap, InfoOf(st.trades));
      (v.triggered <==> ShouldTrigger(c, before, st)) && (v.triggered ==> IsValue(v.value, c, before, st))
  {
    hide IsMean, TradesLinked, IsTop, IsImbalance;
    var now, delta := st.agg.snap.imbalance, st.agg.snap.imbalanceDelta;
    forall x | IsImbalance(x, st.book) ensures x == now { ImbalanceUnique(x, now, st.book); }
    forall x | IsImbalance(x, before) ensures x == now - delta { ImbalanceUnique(x, now - delta, before); }
    assert now - (now - delta) == delta && (now - delta) + delta == now;
  }

  lemma ImbalanceUnique(x: real, y: real, b: Book)
    requires IsImbalance(x, b) && IsImbalance(y, b)
    ensures x == y
  {
    var bid, ask := Sum(Quantities(b.bids)), Sum(Quantities(b.asks));
    RatioUnique(x, y, bid - ask, bid + ask);
  }

  lemma TradeImbalanceMeans(c: Condition, before: Book, st: SymState)
    requires Linked(before, st) && (c.kind.TradeImbalanceBuy? || c.kind.TradeImbalanceSell?)
    ensures var v := Judge(c, st.agg.snap, InfoOf(st.trades));
      (v.triggered <==> ShouldTrigger(c, before, st)) && (v.triggered ==> IsValue(v.value, c, before, st))
  {
    hide IsMean, StatisticsLinked, Exceeds, Sum, Amounts, IsRatio;
    RatioComparison(st.trades.snap.imbalance, Bought(st) - Sold(st), Bought(st) + Sold(st), c.threshold);
    assert -(Bought(st) - Sold(st)) == Sold(st) - Bought(st);
  }

  /** Dividing by the mean of n numbers is multiplying by n and dividing by their sum. */
  lemma PerMean(total: real, mean: real, xs: seq<real>, limit: real)
    requires xs != [] && mean * |xs| as real == Sum(xs)
    ensures mean > 0.0 <==> Sum(xs) > 0.0
    ensures mean > 0.0 ==> (total / mean > limit <==> total * |xs| as real > limit * Sum(xs))
    ensures mean > 0.0 ==> (total / mean) * Sum(xs) == total * |xs| as real
  {
    var n := |xs| as real;
    Scale(0.0, mean, n);
    Scale(mean, 0.0, n);
    if mean > 0.0 {
      var v := total / mean;
      assert v * mean == total;
      assert v * Sum(xs) == (v * mean) * n;
      RatioExceeds(v, total * n, Sum(xs), limit);
    }
  }

  lemma SpikeMeans(c: Condition, before: Book, st: SymState)
    requires Linked(before, st) && c.kind.VolumeSpike?
    ensures var v := Judge(c, st.agg.snap, InfoOf(st.trades));
      (v.triggered <==> ShouldTrigger(c, before, st)) && (v.triggered ==> IsValue(v.value, c, before, st))
  {
    hide StatisticsLinked, IsRatio, Sum, Amounts;
    if st.trades.completed != [] {
      PerMean(Bought(st) + Sold(st), st.trades.snap.volumeSma, st.trades.completed, c.threshold);
    }
  }

  /** The distance of the mid from the mean, scaled. */
  lemma ScaledDistance(st: SymState)
    requires st.agg.mids != [] && IsMean(st.agg.snap.midSma, st.agg.mids) && 2.0 * st.agg.snap.mid == TwiceMid(st.book)
    ensures Distance(st) == 2.0 * (Abs(st.agg.snap.mid - st.agg.snap.midSma) * |st.agg.mids| as real)
  {
    var mid, sma, n := st.agg.snap.mid, st.agg.snap.midSma, |st.agg.mids| as real;
    assert TwiceMid(st.book) * n - 2.0 * Sum(st.agg.mids) == 2.0 * ((mid - sma) * n);
    Scale(mid, sma, n);
    Scale(sma, mid, n);
    assert (-(mid - sma)) * n == -((mid - sma) * n);
  }

  lemma DeviationMeans(c: Condition, before: Book, st: SymState)
    requires Linked(before, st) && c.kind.PriceDeviation?
    ensures var v := Judge(c, st.agg.snap, InfoOf(st.trades));
      (v.triggered <==> ShouldTrigger(c, before, st)) && (v.triggered ==> IsValue(v.value, c, before, st))
  {
    hide IsImbalance, TradesLinked, Sum, Distance, Abs;
    var snap, mids := st.agg.snap, st.agg.mids;
    if mids != [] {
      ScaledDistance(st);
      PerMean(Abs(snap.mid - snap.midSma), snap.midSma, mids, c.threshold);
      TwiceBoth(Abs(snap.mid - snap.midSma) * |mids| as real, c.threshold, Sum(mids));
      if snap.midSma > 0.0 {
        TwiceEqual(Deviation(snap), Sum(mids), Abs(snap.mid - snap.midSma) * |mids| as real);
      }
    }
  }

  lemma TwiceBoth(x: real, limit: real, y: real)
    ensures x > limit * y <==> 2.0 * x > limit * (2.0 * y)
  {
    assert limit * (2.0 * y) == 2.0 * (limit * y);
  }

  lemma TwiceEqual(v: real, y: real, x: real)
    requires v * y == x
    ensures v * (2.0 * y) == 2.0 * x
  {
    assert v * (2.0 * y) == 2.0 * (v * y);
  }

  /** For every kind: when the detector's verdict is positive, and its value then. */
  lemma JudgeMeans(c: Condition, before: Book, st: SymState)
    requires Linked(before, st)
    ensures var v := Judge(c, st.agg.snap, InfoOf(st.trades));
      (v.triggered <==> ShouldTrigger(c, before, st)) && (v.triggered ==> IsValue(v.value, c, before, st))
  {
    hide Linked, Judge, ShouldTrigger, IsValue;
    match c.kind
    case SpreadWide | SpreadNarrow => SpreadMeans(c, before, st);
    case ImbalanceBid | ImbalanceAsk => ImbalanceMeans(c, before, st);
    case PriceDeviation => DeviationMeans(c, before, st);
    case TradeImbalanceBuy | TradeImbalanceSell => TradeImbalanceMeans(c, before, st);
    case VolumeSpike => SpikeMeans(c, before, st);
    case BookPressureBid | BookPressureAsk => PressureMeans(c, before, st);
  }

  // ---------------------------------------------------------------- over runs of messages

  /** The trades and closed windows a state holds, from the symbol's trades alone: always an end of the
      history; with event times that do not decrease exactly the trades at most 1000 ms older than the
      newest; and the volumes of the last twenty finished runs. */
  ghost predicate HoldsTrades(st: Trading.TradeState, ts: seq<Trading.Trade>) {
    && Trading.HoldsFrom(st.trades, ts, |ts| - |st.trades|)
    && (ts != [] && Trading.Chronological(ts) ==> st.trades == Trading.Recent(ts, ts[|ts| - 1].timeMs, 1000))
    && (ts != [] && Tumbling.Timely(ts, 1000) ==>
          var rs := Tumbling.Runs(ts, 1000); st.completed == LastN(Tumbling.Volumes(rs[..|rs| - 1]), 20))
  }

  /** What a symbol's state is made of, from the symbol's messages alone. */
  ghost predicate IsStateOf(st: SymState, us: seq<Update>, ts: seq<Trading.Trade>) {
    && BookMeaning.IsBook(st.book, us) && HoldsTrades(st.trades, ts)
    && exists books :: IsHistory(books, us) && st.agg.mids == LastN(PositiveMids(books), 20)
  }

  lemma {:induction false} AmountsAreVolume(trades: seq<Trading.TradeEntry>, buy: bool)
    ensures Sum(Amounts(trades, buy)) == Trading.SideVolume(trades, buy)
  {
    if trades != [] {
      var n := |trades| - 1;
      AmountsAreVolume(trades[..n], buy);
      assert Amounts(trades, buy)[..n] == Amounts(trades[..n], buy);
    }
  }

  lemma {:induction false} TradesAreHeld(ts: seq<Trading.Trade>)
    ensures HoldsTrades(Trading.Run(ts, TRADE_WINDOW_MS, TRADE_SMA_WINDOWS), ts)
  {
    hide Trading.Run, Trading.HoldsFrom, Trading.IsTradeSnapshot, Trading.Chronological, Tumbling.Timely, Tumbling.Tight;
    Trading.DequeIsSuffix(ts, TRADE_WINDOW_MS, TRADE_SMA_WINDOWS);
    if ts != [] && Trading.Chronological(ts) { Trading.SlidingWindowIsFilter(ts, TRADE_WINDOW_MS, TRADE_SMA_WINDOWS); }
    if ts != [] && Tumbling.Timely(ts, TRADE_WINDOW_MS) { Tumbling.TumblingWindowsPartition(ts, TRADE_WINDOW_MS, TRADE_SMA_WINDOWS); }
  }

  lemma {:induction false} TradesAreLinked(ts: seq<Trading.Trade>)
    ensures TradesLinked(Trading.Run(ts, TRADE_WINDOW_MS, TRADE_SMA_WINDOWS))
  {
    hide Trading.Step, Trading.HoldsFrom, Trading.IsTradeSnapshot, Amounts, Sum, Mean, IsMean;
    var st := Trading.Run(ts, TRADE_WINDOW_MS, TRADE_SMA_WINDOWS);
    Trading.DequeIsSuffix(ts, TRADE_WINDOW_MS, TRADE_SMA_WINDOWS);
    AmountsAreVolume(st.trades, true);
    AmountsAreVolume(st.trades, false);
    Tumbling.VolumeIsConserved(ts, TRADE_WINDOW_MS, TRADE_SMA_WINDOWS);
    MeanIs(st.completed);
    if ts == [] {
      NothingTraded();
    } else {
      Trading.LastIsRecomputed(ts, TRADE_WINDOW_MS, TRADE_SMA_WINDOWS);
    }
  }

  lemma NothingTraded()
    ensures Trading.IsTradeSnapshot(Trading.EmptyTrades.snap, Trading.SideVolume([], true), Trading.SideVolume([], false), 0)
  {
  }

  lemma {:induction false} LinkedAfter(cs: seq<Condition>, evs: seq<Event>, s: Symbol)
    requires Clocked(cs, evs) && evs != [] && IsDepthOf(evs, |evs| - 1, s)
    ensures Clocked(cs, evs[..|evs| - 1])
    ensures var before, st := StateOf(Engine.Run(cs, evs[..|evs| - 1]), s).book, StateOf(Engine.Run(cs, evs), s);
      Linked(before, st) && IsStateOf(st, DepthsOf(evs, s), TradesOf(evs, s))
  {
    hide Engine.Run, Trading.Run, Aggregators.Run, HoldsTrades, TradesLinked, StatisticsLinked, BookMeaning.IsBook, ApplyAll;
    ClockedInit(cs, evs);
    DepthStateIgnoresTrades(cs, evs, s);
    DepthStateIgnoresTrades(cs, evs[..|evs| - 1], s);
    StatisticsAreLinked(evs, s);
    TradeStateIgnoresDepths(cs, evs, s);
    TradesAreHeld(TradesOf(evs, s));
    TradesAreLinked(TradesOf(evs, s));
  }

  lemma {:induction false} StatisticsAreLinked(evs: seq<Event>, s: Symbol)
    requires evs != [] && IsDepthOf(evs, |evs| - 1, s)
    ensures var us, us0 := DepthsOf(evs, s), DepthsOf(evs[..|evs| - 1], s);
      var a := Aggregators.Run(BooksAlong(us), VWAP_LEVELS, SMA_WINDOW);
      && StatisticsLinked(ApplyAll(EmptyBook, us0), ApplyAll(EmptyBook, us), a)
      && BookMeaning.IsBook(ApplyAll(EmptyBook, us), us)
      && IsHistory(BooksAlong(us), us) && a.mids == LastN(PositiveMids(BooksAlong(us)), 20)
  {
    hide Aggregators.Run, IsHistory, IsImbalance, IsMean, IsTop, IsVwap, ApplyAll, BooksAlong, DepthsOf, PositiveMids;
    var us := DepthsOf(evs, s);
    RunIsWindowed(BooksAlong(us), VWAP_LEVELS, SMA_WINDOW);
    BooksAlongMean(us);
    BookMeaning.BookMeans(us);
    LastTwoBooks(evs, s);
    EmptyImbalance();
  }

  /** The books after the last update and before it. */
  lemma {:induction false} LastTwoBooks(evs: seq<Event>, s: Symbol)
    requires evs != [] && IsDepthOf(evs, |evs| - 1, s)
    ensures var us, us0 := DepthsOf(evs, s), DepthsOf(evs[..|evs| - 1], s);
      && |BooksAlong(us)| == |us| == |us0| + 1
      && BooksAlong(us)[|us| - 1] == ApplyAll(EmptyBook, us)
      && (us0 == [] ==> ApplyAll(EmptyBook, us0) == EmptyBook)
      && (us0 != [] ==> BooksAlong(us)[|us| - 2] == ApplyAll(EmptyBook, us0))
  {
    hide ApplyAll;
    var us, us0 := DepthsOf(evs, s), DepthsOf(evs[..|evs| - 1], s);
    SnocInit(us0, evs[|evs| - 1].message.update);
    assert us[..|us|] == us && us[..|us| - 1] == us0;
    BookAt(us, |us| - 1);
    if us0 != [] { BookAt(us, |us| - 2); } else { NoUpdates(); }
  }

  lemma NoUpdates()
    ensures ApplyAll(EmptyBook, []) == EmptyBook
  {
  }

  lemma EmptyImbalance()
    ensures IsImbalance(0.0, EmptyBook)
  {
    assert Quantities([]) == [] && Sum([]) == 0.0;
  }

  /** The positions of the conditions that trigger, in order. */
  ghost predicate Picks(idx: seq<nat>, cs: seq<Condition>, before: Book, st: SymState) {
    && (forall i {:trigger idx[i]} :: 0 <= i < |idx| ==> idx[i] < |cs|)
    && (forall i, j {:trigger idx[i], idx[j]} :: 0 <= i < j < |idx| ==> idx[i] < idx[j])
    && (forall k: nat {:trigger k in idx} {:trigger cs[k]} :: k < |cs| ==> (k in idx <==> ShouldTrigger(cs[k], before, st)))
  }

  /** x is the attempt condition c makes for symbol s at this reading. */
  ghost predicate IsAttempt(x: Attempt, c: Condition, s: Symbol, now: u64, before: Book, st: SymState) {
    && x.signal.kind == c.kind && x.signal.symbol == s && x.signal.threshold == c.threshold && x.signal.timeUs == now
    && x.cooldownUs == c.cooldownUs && IsValue(x.signal.value, c, before, st)
  }

  lemma {:induction false} AttemptsMean(cs: seq<Condition>, n: nat, s: Symbol, before: Book, st: SymState, clock: seq<u64>) returns (idx: seq<nat>)
    requires n <= |cs| == |clock| && Linked(before, st)
    ensures var xs := AttemptsUpTo(cs, n, s, st.agg.snap, InfoOf(st.trades), clock);
      && Picks(idx, cs[..n], before, st) && |xs| == |idx|
      && forall i {:trigger xs[i]} :: 0 <= i < |xs| ==> IsAttempt(xs[i], cs[idx[i]], s, clock[idx[i]], before, st)
    decreases n
  {
    hide Linked, Judge, ShouldTrigger, IsValue;
    if n == 0 {
      idx := [];
    } else {
      idx := AttemptsMean(cs, n - 1, s, before, st, clock);
      JudgeMeans(cs[n - 1], before, st);
      PickNext(idx, cs, n - 1, before, st);
      if ShouldTrigger(cs[n - 1], before, st) { idx := idx + [n - 1]; }
    }
  }

  lemma {:induction false} PickNext(idx: seq<nat>, cs: seq<Condition>, n: nat, before: Book, st: SymState)
    requires n < |cs| && Picks(idx, cs[..n], before, st)
    ensures Picks(if ShouldTrigger(cs[n], before, st) then idx + [n] else idx, cs[..n + 1], before, st)
  {
    hide ShouldTrigger;
    assert forall k {:trigger cs[..n][k]} {:trigger cs[..n + 1][k]} :: 0 <= k < n ==> cs[..n][k] == cs[k] == cs[..n + 1][k];
    assert n !in idx;
  }

  /** Main theorem. A depth message of symbol s makes the detector attempt exactly the conditions that
      should trigger on the symbol's state, in their order, each with its value, threshold, symbol and
      reading; and that state is what the symbol's messages say. */
  lemma {:induction false} MessageTriggers(cs: seq<Condition>, evs: seq<Event>, s: Symbol) returns (idx: seq<nat>)
    requires Clocked(cs, evs) && evs != [] && IsDepthOf(evs, |evs| - 1, s)
    ensures Clocked(cs, evs[..|evs| - 1])
    ensures var n := |evs| - 1;
      var before, st := StateOf(Engine.Run(cs, evs[..n]), s).book, StateOf(Engine.Run(cs, evs), s);
      var old_, all := RunAttempts(cs, evs[..n]), RunAttempts(cs, evs);
      && IsStateOf(st, DepthsOf(evs, s), TradesOf(evs, s)) && BookMeaning.IsBook(before, DepthsOf(evs[..n], s))
      && Picks(idx, cs, before, st) && |all| == |old_| + |idx| && all[..|old_|] == old_
      && forall i {:trigger idx[i]} :: 0 <= i < |idx| ==>
           IsAttempt(all[|old_| + i], cs[idx[i]], s, evs[n].clock[idx[i]], before, st)
  {
    hide Linked, Picks, IsAttempt, IsStateOf, BookMeaning.IsBook, AttemptsUpTo, AfterDepth, Process;
    var n := |evs| - 1;
    var e, ev := Engine.Run(cs, evs[..n]), evs[n];
    LinkedAfter(cs, evs, s);
    StateMeans(cs, evs[..n], s);
    AfterIsProcessed(cs, e, ev, s);
    var st := StateOf(Engine.Run(cs, evs), s);
    assert st == AfterDepth(StateOf(e, s), ev.message.update);
    SampledOnce(cs, e, ev);
    idx := AttemptsMean(cs, |cs|, s, StateOf(e, s).book, st, ev.clock);
    assert cs[..|cs|] == cs;
  }

  lemma SampledOnce(cs: seq<Condition>, e: State, ev: Event)
    requires |ev.clock| == |cs| && ev.message.Depth?
    ensures var u := ev.message.update;
      var st := AfterDepth(StateOf(e, u.symbol), u);
      DepthAttempts(cs, st, u.symbol, ev.clock) == AttemptsUpTo(cs, |cs|, u.symbol, st.agg.snap, InfoOf(st.trades), ev.clock)
  {
    DepthStep(cs, e, ev);
  }

  /** A trade makes it attempt nothing. */
  lemma {:induction false} TradeTriggersNothing(cs: seq<Condition>, evs: seq<Event>)
    requires Clocked(cs, evs) && evs != [] && evs[|evs| - 1].message.TradeMessage?
    ensures Clocked(cs, evs[..|evs| - 1]) && RunAttempts(cs, evs) == RunAttempts(cs, evs[..|evs| - 1])
  {
    ClockedInit(cs, evs);
  }
}
