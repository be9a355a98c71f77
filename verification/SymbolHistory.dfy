/** What each part of a symbol's state is a function of: book and statistics of its depth updates, trade
    windows of its trades. */
module SymbolHistory {
  import OrderBooks
  import Aggregators
  import TradeAggregators
  import opened Signals
  import opened Engine
  import opened Sharding

  /** The depth updates of one symbol in a run. */
  function DepthsOf(evs: seq<Event>, s: Symbol): seq<OrderBooks.Update> {
    if evs == [] then []
    else
      var m := evs[|evs| - 1].message;
      DepthsOf(evs[..|evs| - 1], s) + (if m.Depth? && m.update.symbol == s then [m.update] else [])
  }

  /** The books a symbol goes through. */
  function BooksAlong(us: seq<OrderBooks.Update>): seq<OrderBooks.Book> {
    if us == [] then [] else BooksAlong(us[..|us| - 1]) + [OrderBooks.ApplyAll(OrderBooks.EmptyBook, us)]
  }

  lemma {:induction false} SnocInit<T>(s: seq<T>, x: T)
    ensures (s + [x])[..|s|] == s && (s + [x])[|s|] == x
  {
  }

  lemma StartStateOf(s: Symbol)
    ensures StateOf(Start, s) == FreshState
  {
  }

  /** What one message does to the depth state of symbol s. */
  lemma DepthStateStep(cs: seq<Condition>, e: State, ev: Event, s: Symbol)
    requires |ev.clock| == |cs|
    ensures var st, st' := StateOf(e, s), StateOf(Process(cs, e, ev), s);
      if ev.message.Depth? && ev.message.update.symbol == s then
        var book := OrderBooks.Apply(st.book, ev.message.update);
        && st'.book == book && st'.agg == Aggregators.Refresh(st.agg, book, VWAP_LEVELS, SMA_WINDOW)
        && s in Process(cs, e, ev).states
      else st'.book == st.book && st'.agg == st.agg && (s in e.states ==> s in Process(cs, e, ev).states)
  {
    hide OrderBooks.Apply, Aggregators.Refresh, TryAll, DepthAttempts, TradeAggregators.Step;
  }

  /** Book and statistics of a symbol are a function of its depth updates alone. */
  lemma {:induction false} DepthStateIgnoresTrades(cs: seq<Condition>, evs: seq<Event>, s: Symbol)
    requires Clocked(cs, evs)
    ensures var us, st := DepthsOf(evs, s), StateOf(Run(cs, evs), s);
      && st.book == OrderBooks.ApplyAll(OrderBooks.EmptyBook, us)
      && st.agg == Aggregators.Run(BooksAlong(us), VWAP_LEVELS, SMA_WINDOW)
      && (us != [] ==> s in Run(cs, evs).states)
    decreases |evs|
  {
    hide OrderBooks.Apply, Aggregators.Refresh, Process, StateOf;
    if evs == [] {
      StartStateOf(s);
    } else {
      var init, ev := evs[..|evs| - 1], evs[|evs| - 1];
      ClockedInit(cs, evs);
      DepthStateStep(cs, Run(cs, init), ev, s);
      DepthStateIgnoresTrades(cs, init, s);
      var us := DepthsOf(init, s);
      if ev.message.Depth? && ev.message.update.symbol == s {
        var u := ev.message.update;
        SnocInit(us, u);
        SnocInit(BooksAlong(us), OrderBooks.ApplyAll(OrderBooks.EmptyBook, us + [u]));
        assert DepthsOf(evs, s) == us + [u];
      } else {
        assert DepthsOf(evs, s) == us;
      }
    }
  }

  // ---------------------------------------------------------------- trade windows ignore depth updates

  function TradesOf(evs: seq<Event>, s: Symbol): seq<TradeAggregators.Trade> {
    if evs == [] then []
    else
      var m := evs[|evs| - 1].message;
      TradesOf(evs[..|evs| - 1], s) + (if m.TradeMessage? && m.trade.symbol == s then [m.trade] else [])
  }

  lemma TradeStateStep(cs: seq<Condition>, e: State, ev: Event, s: Symbol)
    requires |ev.clock| == |cs|
    ensures StateOf(Process(cs, e, ev), s).trades ==
      if ev.message.TradeMessage? && ev.message.trade.symbol == s
      then TradeAggregators.Step(StateOf(e, s).trades, ev.message.trade, TRADE_WINDOW_MS, TRADE_SMA_WINDOWS)
      else StateOf(e, s).trades
  {
    hide OrderBooks.Apply, Aggregators.Refresh, TryAll, DepthAttempts, TradeAggregators.Step;
  }

  /** The trade windows of a symbol are a function of its trades alone. */
  lemma {:induction false} TradeStateIgnoresDepths(cs: seq<Condition>, evs: seq<Event>, s: Symbol)
    requires Clocked(cs, evs)
    ensures StateOf(Run(cs, evs), s).trades == TradeAggregators.Run(TradesOf(evs, s), TRADE_WINDOW_MS, TRADE_SMA_WINDOWS)
    decreases |evs|
  {
    hide TradeAggregators.Step, Process, StateOf;
    if evs == [] {
      StartStateOf(s);
    } else {
      var init, ev := evs[..|evs| - 1], evs[|evs| - 1];
      ClockedInit(cs, evs);
      TradeStateStep(cs, Run(cs, init), ev, s);
      TradeStateIgnoresDepths(cs, init, s);
      if ev.message.TradeMessage? && ev.message.trade.symbol == s {
        SnocInit(TradesOf(init, s), ev.message.trade);
      } else {
        assert TradesOf(evs, s) == TradesOf(init, s);
      }
    }
  }

  // ---------------------------------------------------------------- where an update stands in its symbol's history

  ghost predicate IsDepthOf(evs: seq<Event>, p: nat, s: Symbol) {
    p < |evs| && evs[p].message.Depth? && evs[p].message.update.symbol == s
  }

  /** How many updates of the symbol come before message p. */
  function Rank(evs: seq<Event>, p: nat, s: Symbol): nat
    requires p <= |evs|
  {
    |DepthsOf(evs[..p], s)|
  }

  lemma {:induction false} DepthsPrefix(evs: seq<Event>, n: nat, s: Symbol)
    requires n <= |evs|
    ensures DepthsOf(evs[..n], s) <= DepthsOf(evs, s)
    decreases |evs|
  {
    if n == |evs| {
      assert evs[..n] == evs;
    } else {
      DepthsPrefix(evs[..|evs| - 1], n, s);
      assert evs[..|evs| - 1][..n] == evs[..n];
    }
  }

  /** An update of the symbol is the next one of its history; any other message leaves the history alone. */
  lemma {:induction false} RankStep(evs: seq<Event>, p: nat, s: Symbol)
    requires p < |evs|
    ensures Rank(evs, p + 1, s) == Rank(evs, p, s) + (if IsDepthOf(evs, p, s) then 1 else 0)
    ensures IsDepthOf(evs, p, s) ==>
      Rank(evs, p, s) < |DepthsOf(evs, s)| && DepthsOf(evs, s)[Rank(evs, p, s)] == evs[p].message.update
  {
    assert evs[..p + 1][..p] == evs[..p];
    DepthsPrefix(evs, p + 1, s);
  }

  lemma {:induction false} RankGrows(evs: seq<Event>, p: nat, q: nat, s: Symbol)
    requires p <= q <= |evs|
    ensures Rank(evs, p, s) <= Rank(evs, q, s) <= |DepthsOf(evs, s)|
  {
    assert evs[..q][..p] == evs[..p];
    DepthsPrefix(evs[..q], p, s);
    DepthsPrefix(evs, q, s);
  }

  /** Every update of the history came with a message. */
  lemma {:induction false} MessageOfRank(evs: seq<Event>, s: Symbol, x: nat) returns (p: nat)
    requires x < |DepthsOf(evs, s)|
    ensures IsDepthOf(evs, p, s) && Rank(evs, p, s) == x
    decreases |evs|
  {
    var n := |evs| - 1;
    assert evs[..n + 1] == evs;
    RankStep(evs, n, s);
    if x < Rank(evs, n, s) {
      p := MessageOfRank(evs[..n], s, x);
      assert evs[..n][..p] == evs[..p];
    } else {
      p := n;
    }
  }

  lemma {:induction false} BooksAlongAt(us: seq<OrderBooks.Update>, n: nat)
    requires n <= |us|
    ensures |BooksAlong(us)| == |us| && BooksAlong(us)[..n] == BooksAlong(us[..n])
    decreases |us|
  {
    if n == |us| {
      assert us[..n] == us;
      if us != [] { BooksAlongAt(us[..n - 1], n - 1); }
    } else {
      BooksAlongAt(us[..|us| - 1], n);
      assert us[..|us| - 1][..n] == us[..n];
    }
  }

  lemma {:induction false} BookAt(us: seq<OrderBooks.Update>, i: nat)
    requires i < |us|
    ensures |BooksAlong(us)| == |us| && BooksAlong(us)[i] == OrderBooks.ApplyAll(OrderBooks.EmptyBook, us[..i + 1])
  {
    BooksAlongAt(us, i + 1);
    BooksAlongAt(us[..i + 1], i);
    assert BooksAlong(us)[i] == BooksAlong(us)[..i + 1][i];
  }

  /** The statistics a message leaves behind are those of the symbol's history up to it. */
  lemma {:induction false} SnapOfMessage(cs: seq<Condition>, evs: seq<Event>, p: nat, s: Symbol)
    requires Clocked(cs, evs) && IsDepthOf(evs, p, s)
    ensures Clocked(cs, evs[..p])
    ensures var books, x := BooksAlong(DepthsOf(evs, s)), Rank(evs, p, s);
      && x < |books|
      && AfterDepth(StateOf(Run(cs, evs[..p]), s), evs[p].message.update).agg.snap
           == Aggregators.SnapAt(books, x, VWAP_LEVELS, SMA_WINDOW)
  {
    hide Process, Aggregators.Run, OrderBooks.Apply, Aggregators.Refresh;
    var us, x := DepthsOf(evs, s), Rank(evs, p, s);
    assert evs[..p + 1] == evs[..p] + [evs[p]];
    RunSnoc(cs, evs[..p], evs[p]);
    DepthStateIgnoresTrades(cs, evs[..p + 1], s);
    AfterIsProcessed(cs, Run(cs, evs[..p]), evs[p], s);
    RankStep(evs, p, s);
    DepthsPrefix(evs, p + 1, s);
    assert us[..x + 1] == DepthsOf(evs[..p + 1], s);
    BooksAlongAt(us, x + 1);
  }

  lemma AfterIsProcessed(cs: seq<Condition>, e: State, ev: Event, s: Symbol)
    requires |ev.clock| == |cs| && ev.message.Depth? && ev.message.update.symbol == s
    ensures StateOf(Process(cs, e, ev), s) == AfterDepth(StateOf(e, s), ev.message.update)
  {
    hide AfterDepth, TryAll, DepthAttempts;
  }
}
