/** A swing of the imbalance does not pass the engine unnoticed, whatever else it is processing. */
module EnginePressure {
  import Aggregators
  import opened Signals
  import opened CooldownLaws
  import opened PressureLaws
  import opened Engine
  import opened Sharding
  import opened SymbolHistory
  import opened FiringLog

  /** Kinds whose verdict does not look at trades. */
  predicate OnBook(kind: Kind) {
    kind.ImbalanceBid? || kind.ImbalanceAsk? || kind.BookPressureBid? || kind.BookPressureAsk?
  }

  /** Such a condition triggers on a message exactly if it triggers at that point of the symbol's own history. */
  lemma {:induction false} TriggersOnHistory(cs: seq<Condition>, evs: seq<Event>, p: nat, k: nat, s: Symbol)
    requires Clocked(cs, evs) && IsDepthOf(evs, p, s) && k < |cs| && OnBook(cs[k].kind)
    ensures var books, x := BooksAlong(DepthsOf(evs, s)), Rank(evs, p, s);
      x < |books| && (TriggersOn(cs, evs, p, k) <==> TriggersAt(cs[k], books, x, VWAP_LEVELS, SMA_WINDOW))
  {
    hide Engine.Run, AfterDepth, Aggregators.SnapAt, BooksAlong, DepthsOf;
    SnapOfMessage(cs, evs, p, s);
  }

  /** Two imbalance conditions on opposite sides and the pressure condition between them, for a swing that
      takes this many updates. */
  predicate Swing(first: Condition, second: Condition, pressure: Condition, updates: nat) {
    && first.threshold == second.threshold && updates as real * pressure.threshold <= 2.0 * first.threshold
    && if first.kind.ImbalanceBid? then second.kind.ImbalanceAsk? && pressure.kind.BookPressureAsk?
       else first.kind.ImbalanceAsk? && second.kind.ImbalanceBid? && pressure.kind.BookPressureBid?
  }

  /** With the thresholds main configures these are the swings of at most nine updates. */
  lemma ConfiguredSwings(updates: nat)
    ensures Swing(ConfiguredBid, ConfiguredAsk, ConfiguredPressureAsk, updates) <==> updates <= 9
    ensures Swing(ConfiguredAsk, ConfiguredBid, ConfiguredPressureBid, updates) <==> updates <= 9
  {
  }

  lemma {:induction false} RanksInOrder(evs: seq<Event>, p: nat, q: nat, s: Symbol)
    requires IsDepthOf(evs, p, s) && IsDepthOf(evs, q, s)
    ensures p < q <==> Rank(evs, p, s) < Rank(evs, q, s)
  {
    hide Rank;
    if p < q {
      RankStep(evs, p, s);
      RankGrows(evs, p + 1, q, s);
    } else {
      RankGrows(evs, q, p, s);
    }
  }

  lemma {:induction false} SwingInHistory(cs: seq<Condition>, evs: seq<Event>, s: Symbol, x: nat, y: nat, a: nat, b: nat, c: nat)
      returns (z: nat)
    requires a < |cs| && b < |cs| && c < |cs| && x < y < |BooksAlong(DepthsOf(evs, s))| && Swing(cs[a], cs[b], cs[c], y - x)
    requires TriggersAt(cs[a], BooksAlong(DepthsOf(evs, s)), x, VWAP_LEVELS, SMA_WINDOW)
    requires TriggersAt(cs[b], BooksAlong(DepthsOf(evs, s)), y, VWAP_LEVELS, SMA_WINDOW)
    ensures x < z <= y && TriggersAt(cs[c], BooksAlong(DepthsOf(evs, s)), z, VWAP_LEVELS, SMA_WINDOW)
  {
    hide TriggersAt;
    var books := BooksAlong(DepthsOf(evs, s));
    if cs[a].kind.ImbalanceBid? {
      SwingToAskTriggersPressure(books, x, y, VWAP_LEVELS, SMA_WINDOW, cs[a], cs[b], cs[c]);
    } else {
      SwingToBidTriggersPressure(books, x, y, VWAP_LEVELS, SMA_WINDOW, cs[a], cs[b], cs[c]);
    }
    z :| x < z <= y && TriggersAt(cs[c], books, z, VWAP_LEVELS, SMA_WINDOW);
  }

  /** If messages p and q of a run trigger the two imbalance conditions for one symbol, then some message
      of that symbol after p and up to q triggers the pressure condition. Only the symbol's own depth
      updates are counted; trades and other symbols may come in between. */
  lemma {:induction false} SwingInRun(cs: seq<Condition>, evs: seq<Event>, s: Symbol, p: nat, q: nat, a: nat, b: nat, c: nat)
      returns (r: nat)
    requires Clocked(cs, evs) && p < q && IsDepthOf(evs, p, s) && IsDepthOf(evs, q, s)
    requires a < |cs| && b < |cs| && c < |cs| && Rank(evs, p, s) <= Rank(evs, q, s)
    requires Swing(cs[a], cs[b], cs[c], Rank(evs, q, s) - Rank(evs, p, s))
    requires TriggersOn(cs, evs, p, a) && TriggersOn(cs, evs, q, b)
    ensures p < r <= q && IsDepthOf(evs, r, s) && TriggersOn(cs, evs, r, c)
  {
    hide TriggersOn, TriggersAt, Rank;
    TriggersOnHistory(cs, evs, p, a, s);
    TriggersOnHistory(cs, evs, q, b, s);
    RanksInOrder(evs, p, q, s);
    var z := SwingInHistory(cs, evs, s, Rank(evs, p, s), Rank(evs, q, s), a, b, c);
    BooksAlongAt(DepthsOf(evs, s), 0);
    r := MessageOfRank(evs, s, z);
    TriggersOnHistory(cs, evs, r, c, s);
    RanksInOrder(evs, p, r, s);
    RanksInOrder(evs, q, r, s);
  }

  // ---------------------------------------------------------------- what becomes of the trigger

  /** A trigger on the last message is one of the run's attempts. */
  lemma {:induction false} TriggerIsAttempted(cs: seq<Condition>, evs: seq<Event>, k: nat) returns (j: nat)
    requires Clocked(cs, evs) && evs != [] && k < |cs| && TriggersOn(cs, evs, |evs| - 1, k)
    ensures var run, r := RunAttempts(cs, evs), |evs| - 1;
      && j < |run| && run[j].Key() == (cs[k].kind, evs[r].message.update.symbol)
      && run[j].Time() == evs[r].clock[k] && run[j].cooldownUs == cs[k].cooldownUs
  {
    hide AfterDepth, Judge, AttemptsUpTo, TryAll, DepthAttempts, Process;
    var n := |evs| - 1;
    var e, u, clock := Run(cs, evs[..n]), evs[n].message.update, evs[n].clock;
    DepthStep(cs, e, evs[n]);
    var st := AfterDepth(StateOf(e, u.symbol), u);
    var m := AttemptOf(cs, |cs|, k, u.symbol, st.agg.snap, InfoOf(st.trades), clock);
    j := |RunAttempts(cs, evs[..n])| + m;
  }

  /** Fired or suppressed, the log then holds a firing of the trigger's key that is at most its cooldown old. */
  lemma {:induction false} RecentlyLogged(run: seq<Attempt>, j: nat) returns (x: nat)
    requires ClockForward(run) && j < |run|
    ensures var log, now := TryAll(NoCooldowns, run).log, run[j].Time();
      && x < |log| && (log[x].kind, log[x].symbol) == run[j].Key()
      && (log[x].timeUs == now || 0 <= now - log[x].timeUs < run[j].cooldownUs)
  {
    var i := j;
    if !Fired(run, j) { i := SuppressedHasWitness(run, j); }
    LogIsFired(run);
    x := FiredIsLogged(run, i);
    assert TryAll(NoCooldowns, run).log[x] == run[FiredAt(run)[x]].signal;
  }

  lemma {:induction false} ClockOfPrefix(evs: seq<Event>, n: nat)
    requires ClockNeverBack(evs) && n <= |evs|
    ensures ClockNeverBack(evs[..n])
    decreases |evs|
  {
    if n < |evs| {
      ClockOfPrefix(evs[..|evs| - 1], n);
      assert evs[..|evs| - 1][..n] == evs[..n];
    } else {
      assert evs[..n] == evs;
    }
  }

  lemma {:induction false} TriggersOnPrefix(cs: seq<Condition>, evs: seq<Event>, r: nat, k: nat)
    requires Clocked(cs, evs) && r < |evs| && k < |cs| && TriggersOn(cs, evs, r, k)
    ensures Clocked(cs, evs[..r + 1]) && TriggersOn(cs, evs[..r + 1], r, k)
  {
    hide Run, AfterDepth, Judge;
    assert evs[..r + 1][..r] == evs[..r];
  }

  /** Main theorem. With a clock that never steps back, a swing from one side to the other puts a
      BOOK_PRESSURE signal of the symbol into the firing log: when the message that triggers it has been
      processed, the log holds a firing of that kind and symbol at most the cooldown old. */
  lemma {:induction false} SwingIsSignalled(cs: seq<Condition>, evs: seq<Event>, s: Symbol, p: nat, q: nat, a: nat, b: nat, c: nat)
      returns (r: nat, x: nat)
    requires Clocked(cs, evs) && ClockNeverBack(evs) && p < q && IsDepthOf(evs, p, s) && IsDepthOf(evs, q, s)
    requires a < |cs| && b < |cs| && c < |cs| && Rank(evs, p, s) <= Rank(evs, q, s)
    requires Swing(cs[a], cs[b], cs[c], Rank(evs, q, s) - Rank(evs, p, s))
    requires TriggersOn(cs, evs, p, a) && TriggersOn(cs, evs, q, b)
    ensures p < r <= q && IsDepthOf(evs, r, s) && TriggersOn(cs, evs, r, c)
    ensures var log, now := LogAfter(cs, evs[..r + 1]), evs[r].clock[c];
      && log <= LogAfter(cs, evs) && x < |log| && log[x].kind == cs[c].kind && log[x].symbol == s
      && (log[x].timeUs == now || 0 <= now - log[x].timeUs < cs[c].cooldownUs)
  {
    hide TriggersOn, Swing, Rank, Run, RunAttempts, ClockNeverBack, ClockForward, LogAfter;
    r := SwingInRun(cs, evs, s, p, q, a, b, c);
    var seen := evs[..r + 1];
    TriggersOnPrefix(cs, evs, r, c);
    ClockOfPrefix(evs, r + 1);
    var j := TriggerIsAttempted(cs, seen, c);
    RunClockForward(cs, seen, 0);
    x := RecentlyLogged(RunAttempts(cs, seen), j);
    CooldownsFollowAttempts(cs, seen);
    LogIsLogAfter(cs, seen);
    LogGrows(cs, evs, r + 1);
  }
}

/** Bounds on everything the engine publishes, from what the messages carry. */
module EngineBounds {
  import Levels
  import opened OrderBooks
  import Aggregators
  import TradeAggregators
  import Windows
  import opened VwapLaws
  import opened Signals
  import opened Engine
  import opened Sharding
  import opened SymbolHistory
  import opened FiringLog

  ghost predicate SoundLevels(ls: seq<Levels.Level>) {
    forall i {:trigger ls[i]} :: 0 <= i < |ls| ==> ls[i].price > 0.0 && ls[i].qty >= 0.0
  }

  ghost predicate SoundMessage(m: Message) {
    match m
    case Depth(u) => SoundLevels(u.bids) && SoundLevels(u.asks)
    case TradeMessage(t) => t.qty >= 0.0
  }

  /** Prices are positive and quantities not negative. */
  ghost predicate SoundMarket(evs: seq<Event>) {
    forall i {:trigger evs[i]} :: 0 <= i < |evs| ==> SoundMessage(evs[i].message)
  }

  // ---------------------------------------------------------------- books

  lemma {:induction false} PutAddsOne(desc: bool, side: seq<Levels.Level>, l: Levels.Level, x: Levels.Level)
    requires x in Levels.Put(desc, side, l)
    ensures x == l || x in side
    decreases |side|
  {
    if side != [] && x in Levels.Put(desc, side[1..], l) { PutAddsOne(desc, side[1..], l, x); }
  }

  lemma {:induction false} EraseAddsNone(side: seq<Levels.Level>, p: real, x: Levels.Level)
    requires x in Levels.Erase(side, p)
    ensures x in side
    decreases |side|
  {
    if side[0].price != p && x != side[0] { EraseAddsNone(side[1..], p, x); }
  }

  /** Every level of a side that started empty was delivered, with a non-zero quantity. */
  lemma {:induction false} LevelsAreDelivered(desc: bool, ds: seq<Levels.Level>, x: Levels.Level)
    requires x in Levels.ApplyDeltas(desc, [], ds)
    ensures x in ds && x.qty != 0.0
    decreases |ds|
  {
    var init, l := ds[..|ds| - 1], ds[|ds| - 1];
    var side := Levels.ApplyDeltas(desc, [], init);
    if l.qty == 0.0 { EraseAddsNone(side, l.price, x); } else { PutAddsOne(desc, side, l, x); }
    if x in side { LevelsAreDelivered(desc, init, x); }
  }

  lemma {:induction false} DeltasAreSound(evs: seq<Event>, s: Symbol, desc: bool)
    requires SoundMarket(evs)
    ensures SoundLevels(Deltas(desc, DepthsOf(evs, s)))
    decreases |evs|
  {
    if evs != [] {
      var init, m := evs[..|evs| - 1], evs[|evs| - 1].message;
      assert SoundMarket(init) by { assert forall i {:trigger init[i]} :: 0 <= i < |init| ==> init[i] == evs[i]; }
      assert SoundMessage(m);
      DeltasAreSound(init, s, desc);
      if m.Depth? && m.update.symbol == s {
        SnocInit(DepthsOf(init, s), m.update);
      } else {
        assert DepthsOf(evs, s) == DepthsOf(init, s);
      }
    }
  }

  ghost predicate PositiveBook(b: Book) {
    ValidBook(b) && Positive(b.bids) && Positive(b.asks) && Aggregators.PositivePrices(b)
  }

  lemma {:induction false} SideIsPositive(desc: bool, ds: seq<Levels.Level>)
    requires SoundLevels(ds)
    ensures var side := Levels.ApplyDeltas(desc, [], ds);
      Positive(side) && forall i {:trigger side[i]} :: 0 <= i < |side| ==> side[i].price > 0.0
  {
    var side := Levels.ApplyDeltas(desc, [], ds);
    forall i | 0 <= i < |side| ensures side[i].price > 0.0 && side[i].qty > 0.0 {
      LevelsAreDelivered(desc, ds, side[i]);
    }
  }

  /** Then every book of the run has positive prices and quantities. */
  lemma {:induction false} BooksArePositive(evs: seq<Event>, s: Symbol)
    requires SoundMarket(evs)
    ensures PositiveBook(ApplyAll(EmptyBook, DepthsOf(evs, s)))
  {
    var us := DepthsOf(evs, s);
    ApplyAllIsDeltas(EmptyBook, us);
    DeltasAreSound(evs, s, true);
    DeltasAreSound(evs, s, false);
    SideIsPositive(true, Deltas(true, us));
    SideIsPositive(false, Deltas(false, us));
    BookRefinesHistory(us, true, 0.0);
  }

  /** With bids only the imbalance is 1, with asks only -1, with neither 0. */
  ghost predicate OneSided(b: Book, imbalance: real) {
    && (b.bids != [] && b.asks == [] ==> imbalance == 1.0)
    && (b.bids == [] && b.asks != [] ==> imbalance == -1.0)
    && (b.bids == [] && b.asks == [] ==> imbalance == 0.0)
  }

  lemma {:induction false} SomeQuantity(side: seq<Levels.Level>)
    requires Positive(side) && side != []
    ensures Windows.Sum(Quantities(side)) > 0.0
  {
    var n := |side| - 1;
    assert Quantities(side)[..n] == Quantities(side[..n]);
    Windows.SumNonNegative(Quantities(side)[..n]);
  }

  lemma {:induction false} OneSidedBook(b: Book)
    requires PositiveBook(b)
    ensures OneSided(b, Aggregators.Imbalance(b))
  {
    hide Aggregators.Imbalance, Windows.Sum;
    Aggregators.ImbalanceIs(b);
    if b.bids != [] { SomeQuantity(b.bids); }
    if b.asks != [] { SomeQuantity(b.asks); }
    NoQuantity();
    Aggregators.OneSidedImbalance(Aggregators.Imbalance(b), b);
  }

  lemma NoQuantity()
    ensures Quantities([]) == [] && Windows.Sum([]) == 0.0
  {
  }

  ghost predicate BoundedFigures(b: Book, snap: Aggregators.Snapshot) {
    && -1.0 <= snap.imbalance <= 1.0 && -2.0 <= snap.imbalanceDelta <= 2.0
    && (b.bids != [] ==> b.bids[Min(VWAP_LEVELS, |b.bids|) - 1].price <= snap.bidVwap <= b.BestBid())
    && (b.asks != [] ==> b.BestAsk() <= snap.askVwap <= b.asks[Min(VWAP_LEVELS, |b.asks|) - 1].price)
    && (b.bids != [] && b.asks != [] ==> snap.askVwap - snap.bidVwap >= snap.spread)
    && OneSided(b, snap.imbalance)
    && (snap.midSma > 0.0 ==> Aggregators.Deviation(snap) <= SMA_WINDOW as real - 1.0)
    && (snap.midSma > 0.0 && (b.bids == [] || b.asks == []) ==> Aggregators.Deviation(snap) == 1.0)
  }

  lemma {:induction false} BoundedOnceRefreshed(a: Aggregators.Agg, b: Book)
    requires PositiveBook(b) && -1.0 <= a.snap.imbalance <= 1.0
    ensures var snap := Aggregators.Refresh(a, b, VWAP_LEVELS, SMA_WINDOW).snap;
      && -1.0 <= snap.imbalance <= 1.0 && -2.0 <= snap.imbalanceDelta <= 2.0
      && (b.bids != [] ==> b.bids[Min(VWAP_LEVELS, |b.bids|) - 1].price <= snap.bidVwap <= b.BestBid())
      && (b.asks != [] ==> b.BestAsk() <= snap.askVwap <= b.asks[Min(VWAP_LEVELS, |b.asks|) - 1].price)
      && (b.bids != [] && b.asks != [] ==> snap.askVwap - snap.bidVwap >= snap.spread)
      && OneSided(b, snap.imbalance)
  {
    hide Aggregators.Imbalance, Vwap, OneSided;
    Aggregators.ImbalanceIsNormalised(b);
    OneSidedBook(b);
    BidVwapLaws(b.bids, VWAP_LEVELS, VWAP_LEVELS);
    AskVwapLaws(b.asks, VWAP_LEVELS, VWAP_LEVELS);
    if b.bids != [] && b.asks != [] { VwapsSpanTheSpread(b, VWAP_LEVELS, VWAP_LEVELS); }
  }

  /** The figures along a history of positive books. */
  lemma {:induction false} HistoryIsBounded(books: seq<Book>)
    requires forall i {:trigger books[i]} :: 0 <= i < |books| ==> PositiveBook(books[i])
    ensures BoundedFigures(if books == [] then EmptyBook else books[|books| - 1],
                           Aggregators.Run(books, VWAP_LEVELS, SMA_WINDOW).snap)
    decreases |books|
  {
    hide Aggregators.Refresh, PositiveBook, Aggregators.Deviation;
    if books != [] {
      var init, b := books[..|books| - 1], books[|books| - 1];
      HistoryIsBounded(init);
      BoundedOnceRefreshed(Aggregators.Run(init, VWAP_LEVELS, SMA_WINDOW), b);
      if Aggregators.Run(books, VWAP_LEVELS, SMA_WINDOW).snap.midSma > 0.0 {
        PricesArePositive(b);
        Aggregators.DeviationIsBounded(books, VWAP_LEVELS, SMA_WINDOW);
      }
    }
  }

  lemma PricesArePositive(b: Book)
    requires PositiveBook(b)
    ensures Aggregators.PositivePrices(b)
  {
  }

  lemma {:induction false} SoundPrefix(evs: seq<Event>, n: nat)
    requires SoundMarket(evs) && n <= |evs|
    ensures SoundMarket(evs[..n])
  {
  }

  /** Every book the symbol has gone through. */
  lemma {:induction false} HistoryIsPositive(evs: seq<Event>, s: Symbol, i: nat)
    requires SoundMarket(evs) && i < |DepthsOf(evs, s)|
    ensures i < |BooksAlong(DepthsOf(evs, s))| && PositiveBook(BooksAlong(DepthsOf(evs, s))[i])
  {
    hide PositiveBook, SoundMarket, BooksAlong, DepthsOf, ApplyAll;
    var us := DepthsOf(evs, s);
    var p := MessageOfRank(evs, s, i);
    RankStep(evs, p, s);
    SoundPrefix(evs, p + 1);
    BooksArePositive(evs[..p + 1], s);
    DepthsPrefix(evs, p + 1, s);
    assert us[..i + 1] == DepthsOf(evs[..p + 1], s);
    BookAt(us, i);
  }

  /** Main theorem. If all messages carry positive prices and no negative quantities, then after every run
      and for every symbol: all levels are positive, the imbalance lies in [-1, 1] and its change in
      [-2, 2], the averages lie between the best price and the last one averaged and at least the spread
      apart, and the price deviation is at most 19, exactly 1 on a one-sided book. */
  lemma {:induction false} DepthFiguresAreBounded(cs: seq<Condition>, evs: seq<Event>, s: Symbol)
    requires Clocked(cs, evs) && SoundMarket(evs)
    ensures var st := StateOf(Run(cs, evs), s);
      PositiveBook(st.book) && BoundedFigures(st.book, st.agg.snap)
  {
    hide PositiveBook, BoundedFigures, Run, Aggregators.Run, SoundMarket, BooksAlong, DepthsOf;
    var us := DepthsOf(evs, s);
    var books := BooksAlong(us);
    BooksArePositive(evs, s);
    DepthStateIgnoresTrades(cs, evs, s);
    BooksAlongAt(us, |us|);
    forall i | 0 <= i < |books| ensures PositiveBook(books[i]) { HistoryIsPositive(evs, s, i); }
    HistoryIsBounded(books);
    if us != [] { BookAt(us, |us| - 1); assert us[..|us|] == us; }
  }

  // ---------------------------------------------------------------- trades

  ghost predicate SoundTrades(ts: seq<TradeAggregators.Trade>) {
    forall i {:trigger ts[i]} :: 0 <= i < |ts| ==> ts[i].qty >= 0.0
  }

  ghost predicate NonNegative(xs: seq<real>) {
    forall i {:trigger xs[i]} :: 0 <= i < |xs| ==> xs[i] >= 0.0
  }

  /** No quantity in the trade windows is negative. */
  ghost predicate SoundWindows(st: TradeAggregators.TradeState) {
    && (forall i {:trigger st.trades[i]} :: 0 <= i < |st.trades| ==> st.trades[i].qty >= 0.0)
    && NonNegative(st.completed) && st.current >= 0.0
  }

  ghost predicate BoundedTrades(snap: TradeAggregators.TradeSnapshot) {
    && snap.buyVolume >= 0.0 && snap.sellVolume >= 0.0 && snap.totalVolume == snap.buyVolume + snap.sellVolume
    && -1.0 <= snap.imbalance <= 1.0 && snap.volumeSma >= 0.0
  }

  lemma {:induction false} ExpireKeepsTail(s: seq<TradeAggregators.TradeEntry>, cutoff: nat)
    ensures var r := TradeAggregators.Expire(s, cutoff); |r| <= |s| && r == s[|s| - |r|..]
    decreases |s|
  {
    if s != [] && s[0].timeMs < cutoff { ExpireKeepsTail(s[1..], cutoff); }
  }

  lemma {:induction false} MeanNonNegative(xs: seq<real>)
    requires xs != [] && NonNegative(xs)
    ensures Windows.Mean(xs) >= 0.0
  {
    Windows.SumNonNegative(xs);
    var mean, n := Windows.Mean(xs), |xs| as real;
    assert mean * n == Windows.Sum(xs);
    Windows.Scale(mean, 0.0, n);
  }

  lemma {:induction false} RecomputedIsBounded(trades: seq<TradeAggregators.TradeEntry>, completed: seq<real>, old_: TradeAggregators.TradeSnapshot)
    requires forall i {:trigger trades[i]} :: 0 <= i < |trades| ==> trades[i].qty >= 0.0
    requires NonNegative(completed) && old_.volumeSma >= 0.0
    ensures BoundedTrades(TradeAggregators.Recompute(trades, completed, old_))
  {
    hide TradeAggregators.Imbalance;
    TradeAggregators.VolumeNonNegative(trades, true);
    TradeAggregators.VolumeNonNegative(trades, false);
    TradeAggregators.TradeImbalanceIsNormalised(trades, completed, old_);
    if completed != [] { MeanNonNegative(completed); }
  }

  lemma {:induction false} StepIsBounded(st: TradeAggregators.TradeState, t: TradeAggregators.Trade)
    requires SoundWindows(st) && st.snap.volumeSma >= 0.0 && t.qty >= 0.0
    ensures var st' := TradeAggregators.Step(st, t, TRADE_WINDOW_MS, TRADE_SMA_WINDOWS);
      SoundWindows(st') && BoundedTrades(st'.snap)
  {
    hide TradeAggregators.Recompute, TradeAggregators.Expire, BoundedTrades;
    var rolled := TradeAggregators.Roll(st, t.timeMs, TRADE_WINDOW_MS, TRADE_SMA_WINDOWS);
    var cutoff := TradeAggregators.Cutoff(t.timeMs, TRADE_WINDOW_MS);
    ExpireKeepsTail(st.trades, cutoff);
    var trades := TradeAggregators.Expire(st.trades, cutoff) + [TradeAggregators.EntryOf(t)];
    RecomputedIsBounded(trades, rolled.completed, rolled.snap);
  }

  lemma {:induction false} WindowsAreBounded(ts: seq<TradeAggregators.Trade>)
    requires SoundTrades(ts)
    ensures var st := TradeAggregators.Run(ts, TRADE_WINDOW_MS, TRADE_SMA_WINDOWS);
      SoundWindows(st) && BoundedTrades(st.snap)
    decreases |ts|
  {
    hide TradeAggregators.Step, SoundWindows;
    if ts == [] {
      NoTradesYet();
    } else {
      WindowsAreBounded(ts[..|ts| - 1]);
      StepIsBounded(TradeAggregators.Run(ts[..|ts| - 1], TRADE_WINDOW_MS, TRADE_SMA_WINDOWS), ts[|ts| - 1]);
    }
  }

  lemma NoTradesYet()
    ensures SoundWindows(TradeAggregators.EmptyTrades)
  {
  }

  lemma {:induction false} TradesAreSound(evs: seq<Event>, s: Symbol)
    requires SoundMarket(evs)
    ensures SoundTrades(TradesOf(evs, s))
    decreases |evs|
  {
    if evs != [] {
      var init, m := evs[..|evs| - 1], evs[|evs| - 1].message;
      SoundPrefix(evs, |evs| - 1);
      assert SoundMessage(m);
      TradesAreSound(init, s);
    }
  }

  lemma ImbalanceOfTrades(x: TradeAggregators.TradeSnapshot, bought: real, sold: real, count: nat)
    requires BoundedTrades(x) && TradeAggregators.IsTradeSnapshot(x, bought, sold, count)
    ensures x.buyVolume == bought && x.sellVolume == sold && x.count == count
    ensures x.imbalance * (bought + sold) == bought - sold
  {
  }

  /** The deque and the figures of a symbol's trades at most 1000 ms older than its newest. */
  ghost predicate ShowsLastSecond(st: TradeAggregators.TradeState, ts: seq<TradeAggregators.Trade>)
    requires ts != []
  {
    var now := ts[|ts| - 1].timeMs;
    var bought, sold := TradeAggregators.RecentVolume(ts, now, 1000, true), TradeAggregators.RecentVolume(ts, now, 1000, false);
    && st.trades == TradeAggregators.Recent(ts, now, 1000) && st.snap.count == |st.trades|
    && st.snap.buyVolume == bought && st.snap.sellVolume == sold
    && st.snap.imbalance * (bought + sold) == bought - sold
  }

  lemma {:induction false} LastSecondIsShown(ts: seq<TradeAggregators.Trade>)
    requires SoundTrades(ts) && ts != [] && TradeAggregators.Chronological(ts)
    ensures ShowsLastSecond(TradeAggregators.Run(ts, TRADE_WINDOW_MS, TRADE_SMA_WINDOWS), ts)
  {
    hide TradeAggregators.Run, SoundWindows, BoundedTrades, TradeAggregators.IsTradeSnapshot;
    var st, now := TradeAggregators.Run(ts, TRADE_WINDOW_MS, TRADE_SMA_WINDOWS), ts[|ts| - 1].timeMs;
    WindowsAreBounded(ts);
    TradeAggregators.SlidingWindowIsFilter(ts, TRADE_WINDOW_MS, TRADE_SMA_WINDOWS);
    ImbalanceOfTrades(st.snap, TradeAggregators.RecentVolume(ts, now, 1000, true),
                      TradeAggregators.RecentVolume(ts, now, 1000, false), |st.trades|);
  }

  /** Main theorem. Without negative quantities, after every run and for every symbol: no published volume is
      negative and the trade imbalance lies in [-1, 1], whatever the order of event times; if they do not
      decrease, these are the figures of the symbol's trades of the last second. */
  lemma {:induction false} TradeFiguresAreBounded(cs: seq<Condition>, evs: seq<Event>, s: Symbol)
    requires Clocked(cs, evs) && SoundMarket(evs)
    ensures var st, ts := StateOf(Run(cs, evs), s).trades, TradesOf(evs, s);
      && SoundWindows(st) && BoundedTrades(st.snap)
      && (ts != [] && TradeAggregators.Chronological(ts) ==> ShowsLastSecond(st, ts))
  {
    hide Run, TradeAggregators.Run, SoundWindows, BoundedTrades, ShowsLastSecond;
    var ts := TradesOf(evs, s);
    TradeStateIgnoresDepths(cs, evs, s);
    TradesAreSound(evs, s);
    WindowsAreBounded(ts);
    if ts != [] && TradeAggregators.Chronological(ts) { LastSecondIsShown(ts); }
  }

  // ---------------------------------------------------------------- what can trigger at all

  /** The threshold from which on a condition of this kind is idle. */
  function Ceiling(kind: Kind): (c: real) {
    match kind
    case ImbalanceBid | ImbalanceAsk | TradeImbalanceBuy | TradeImbalanceSell => 1.0
    case BookPressureBid | BookPressureAsk => 2.0
    case _ => SMA_WINDOW as real - 1.0
  }

  predicate HasCeiling(kind: Kind) {
    !kind.SpreadWide? && !kind.SpreadNarrow? && !kind.VolumeSpike?
  }

  lemma JudgedBelowCeiling(c: Condition, b: Book, agg: Aggregators.Snapshot, trades: TradeInfo)
    requires HasCeiling(c.kind) && BoundedFigures(b, agg) && (trades.Trades? ==> BoundedTrades(trades.snap))
    requires Judge(c, agg, trades).triggered
    ensures c.threshold < Ceiling(c.kind)
  {
    hide Aggregators.Deviation, Vwap;
  }

  /** A condition on an imbalance, its change or the price deviation triggers in no run of sound messages
      once its threshold has reached 1, 2 or 19. */
  lemma {:induction false} TriggersBelowCeiling(cs: seq<Condition>, evs: seq<Event>, p: nat, k: nat)
    requires Clocked(cs, evs) && SoundMarket(evs) && p < |evs| && k < |cs| && HasCeiling(cs[k].kind)
    requires TriggersOn(cs, evs, p, k)
    ensures cs[k].threshold < Ceiling(cs[k].kind)
  {
    hide Judge, BoundedFigures, BoundedTrades, PositiveBook, SoundWindows, Ceiling, HasCeiling, AfterDepth, Process;
    var e, u := Run(cs, evs[..p]), evs[p].message.update;
    assert evs[..p + 1] == evs[..p] + [evs[p]];
    RunSnoc(cs, evs[..p], evs[p]);
    SoundPrefix(evs, p + 1);
    DepthFiguresAreBounded(cs, evs[..p + 1], u.symbol);
    TradeFiguresAreBounded(cs, evs[..p + 1], u.symbol);
    AfterIsProcessed(cs, e, evs[p], u.symbol);
    var st := AfterDepth(StateOf(e, u.symbol), u);
    JudgedBelowCeiling(cs[k], st.book, st.agg.snap, InfoOf(st.trades));
  }
}
