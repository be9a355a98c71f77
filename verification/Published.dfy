/** What the engine's state and its snapshots say after a run of messages, figure by figure and in terms of
    the messages alone. */
module Published {
  import opened OrderBooks
  import opened BookMeaning
  import Aggregators
  import opened Signals
  import opened Engine
  import opened Sharding
  import opened SymbolHistory
  import opened FiringLog
  import opened Snapshots

  /** The books a symbol went through, one after each of its updates. */
  ghost predicate IsHistory(books: seq<Book>, us: seq<Update>) {
    |books| == |us| && forall i {:trigger books[i]} :: 0 <= i < |books| ==> IsBook(books[i], us[..i + 1])
  }

  /** The statistics of a symbol that had these updates: five levels, twenty samples. */
  ghost predicate IsAggregation(x: Aggregators.Snapshot, us: seq<Update>) {
    exists books :: IsHistory(books, us) && Aggregators.IsStatistics(x, books, 5, 20)
  }

  ghost predicate IsSymbolSnapshot(x: SymbolSnapshot, us: seq<Update>) {
    && IsSide(x.bids, Quotes(us, true), true) && IsSide(x.asks, Quotes(us, false), false)
    && IsBest(x.bestBid, x.bids, true) && IsBest(x.bestAsk, x.asks, false)
    && (if x.bids == [] || x.asks == [] then x.spread == 0.0 && x.mid == 0.0
        else x.spread == x.bestAsk - x.bestBid && 2.0 * x.mid == x.bestBid + x.bestAsk)
    && x.updateCount == |us| && IsAggregation(x.aggregation, us)
  }

  ghost predicate HasMessage(evs: seq<Event>, s: Symbol) {
    exists j :: 0 <= j < |evs| && evs[j].message.Symbol() == s
  }

  function NumTrades(evs: seq<Event>): nat {
    if evs == [] then 0 else NumTrades(evs[1..]) + (if evs[0].message.TradeMessage? then 1 else 0)
  }

  /** The newest fifty firings of a run, newest first. */
  ghost predicate IsRecent(recent: seq<Signal>, run: seq<Attempt>) {
    var idx := FiredAt(run);
    && |recent| == (if |idx| < 50 then |idx| else 50)
    && forall i {:trigger recent[i]} :: 0 <= i < |recent| ==> recent[i] == run[idx[|idx| - 1 - i]].signal
  }

  /** The snapshot that belongs to these messages. */
  ghost predicate IsEngineSnapshot(x: EngineSnapshot, cs: seq<Condition>, evs: seq<Event>)
    requires Clocked(cs, evs)
  {
    && (forall s {:trigger s in x.symbols} {:trigger HasMessage(evs, s)} :: s in x.symbols <==> HasMessage(evs, s))
    && (forall s {:trigger x.symbols[s]} :: s in x.symbols ==> IsSymbolSnapshot(x.symbols[s], DepthsOf(evs, s)))
    && x.processed == |evs| && x.tradesProcessed == NumTrades(evs)
    && x.signalsFired == |FiredAt(RunAttempts(cs, evs))| && IsRecent(x.recentSignals, RunAttempts(cs, evs))
  }

  // ---------------------------------------------------------------- books and statistics

  lemma {:induction false} BooksAlongMean(us: seq<Update>)
    ensures IsHistory(BooksAlong(us), us)
  {
    BooksAlongAt(us, |us|);
    forall i | 0 <= i < |us| ensures IsBook(BooksAlong(us)[i], us[..i + 1]) {
      BookAt(us, i);
      BookMeans(us[..i + 1]);
    }
  }

  /** After every run, for every symbol: its book is what its updates say, and its statistics are those of
      the books it went through. */
  lemma {:induction false} StateMeans(cs: seq<Condition>, evs: seq<Event>, s: Symbol)
    requires Clocked(cs, evs)
    ensures var st, us := StateOf(Run(cs, evs), s), DepthsOf(evs, s);
      && IsBook(st.book, us) && ValidBook(st.book) && IsHistory(BooksAlong(us), us)
      && Aggregators.IsStatistics(st.agg.snap, BooksAlong(us), 5, 20)
  {
    hide Run, Aggregators.Run, IsBook, IsHistory, Aggregators.IsStatistics;
    var us := DepthsOf(evs, s);
    DepthStateIgnoresTrades(cs, evs, s);
    BookMeans(us);
    BookRefinesHistory(us, true, 0.0);
    BooksAlongMean(us);
    Aggregators.RunIsWindowed(BooksAlong(us), VWAP_LEVELS, SMA_WINDOW);
  }

  // ---------------------------------------------------------------- snapshots

  lemma {:induction false} SymbolSnapshotMeans(cs: seq<Condition>, evs: seq<Event>, s: Symbol)
    requires Clocked(cs, evs)
    ensures IsSymbolSnapshot(SymbolSnapshotOf(StateOf(Run(cs, evs), s)), DepthsOf(evs, s))
  {
    hide Run, IsHistory, Aggregators.IsStatistics, IsSide, IsBest, BooksAlong;
    var st := StateOf(Run(cs, evs), s);
    StateMeans(cs, evs, s);
    FirstIsBest(st.book.bids, true);
    FirstIsBest(st.book.asks, false);
  }

  lemma {:induction false} HasMessageSnoc(evs: seq<Event>, s: Symbol)
    requires evs != []
    ensures HasMessage(evs, s) <==> HasMessage(evs[..|evs| - 1], s) || evs[|evs| - 1].message.Symbol() == s
  {
    var init := evs[..|evs| - 1];
    assert forall j {:trigger evs[j]} {:trigger init[j]} :: 0 <= j < |init| ==> init[j] == evs[j];
  }

  lemma ProcessAddsSymbol(cs: seq<Condition>, e: State, ev: Event)
    requires |ev.clock| == |cs|
    ensures var e' := Process(cs, e, ev);
      && e'.states.Keys == e.states.Keys + {ev.message.Symbol()} && e'.processed == e.processed + 1
      && e'.tradesProcessed == e.tradesProcessed + (if ev.message.TradeMessage? then 1 else 0)
  {
    hide AfterDepth, AfterTrade, TryAll, DepthAttempts;
  }

  lemma {:induction false} NumTradesSnoc(evs: seq<Event>)
    requires evs != []
    ensures NumTrades(evs) == NumTrades(evs[..|evs| - 1]) + (if evs[|evs| - 1].message.TradeMessage? then 1 else 0)
    decreases |evs|
  {
    if |evs| > 1 {
      NumTradesSnoc(evs[1..]);
      assert evs[..|evs| - 1][1..] == evs[1..][..|evs| - 2];
    }
  }

  /** The counters count, and a state exists for exactly the symbols of the messages. */
  lemma {:induction false} CountersMean(cs: seq<Condition>, evs: seq<Event>)
    requires Clocked(cs, evs)
    ensures var e := Run(cs, evs);
      && e.processed == |evs| && e.tradesProcessed == NumTrades(evs)
      && forall s {:trigger s in e.states} {:trigger HasMessage(evs, s)} :: s in e.states <==> HasMessage(evs, s)
    decreases |evs|
  {
    hide Process, HasMessage;
    if evs == [] {
      NoMessages();
    } else {
      var init, ev := evs[..|evs| - 1], evs[|evs| - 1];
      ClockedInit(cs, evs);
      CountersMean(cs, init);
      ProcessAddsSymbol(cs, Run(cs, init), ev);
      NumTradesSnoc(evs);
      forall s ensures s in Run(cs, evs).states <==> HasMessage(evs, s) {
        HasMessageSnoc(evs, s);
        assert s in Run(cs, evs).states.Keys <==> s in Run(cs, init).states.Keys || s == ev.message.Symbol();
      }
    }
  }

  lemma NoMessages()
    ensures forall s :: !HasMessage([], s)
  {
  }

  lemma {:induction false} RecentMeans(cs: seq<Condition>, evs: seq<Event>)
    requires Clocked(cs, evs)
    ensures var log := Run(cs, evs).cool.log;
      |log| == |FiredAt(RunAttempts(cs, evs))| && IsRecent(NewestFirst(log, MAX_RECENT_SIGNALS), RunAttempts(cs, evs))
  {
    hide Run, RunAttempts, TryAll, FiredAt;
    CooldownsFollowAttempts(cs, evs);
    LogIsFired(RunAttempts(cs, evs));
  }

  /** The snapshot of a run of messages says what the messages say. */
  lemma {:induction false} SnapshotMeans(cs: seq<Condition>, evs: seq<Event>)
    requires Clocked(cs, evs)
    ensures IsEngineSnapshot(SnapshotOf(Run(cs, evs)), cs, evs)
  {
    hide Run, RunAttempts, FiredAt, HasMessage, IsRecent, IsSymbolSnapshot, SymbolSnapshotOf, NewestFirst;
    CountersMean(cs, evs);
    RecentMeans(cs, evs);
    forall s | s in Run(cs, evs).states ensures IsSymbolSnapshot(SymbolSnapshotOf(Run(cs, evs).states[s]), DepthsOf(evs, s)) {
      SymbolSnapshotMeans(cs, evs, s);
    }
  }
}
