/** The processing thread as objects (src/engine/processing_thread.cpp). Every call of `Process` is
    one step of the fold in Engine, and the published snapshot, the recent signals and the
    recording follow it. */
module Processor {
  import opened SpscQueues
  import opened Words
  import opened Recording
  import opened OrderBooks
  import opened BookMeaning
  import opened Aggregators
  import TradeAggregators
  import opened Signals
  import opened Engine
  import opened Sharding
  import opened Snapshots
  import opened Arrivals
  import opened DiskIo

  class SymbolState {
    const book: OrderBook
    const aggregator: Aggregator
    const trades: TradeAggregators.TradeAggregator

    ghost predicate Configured() {
      && aggregator.vwapLevels == VWAP_LEVELS && aggregator.smaWindow == SMA_WINDOW
      && trades.windowMs == TRADE_WINDOW_MS && trades.smaWindows == TRADE_SMA_WINDOWS
    }

    function State(): SymState
      reads book, aggregator, trades
    {
      SymState(book.State(), aggregator.State(), trades.State())
    }

    constructor (symbol: Symbol)
      ensures Configured() && State() == FreshState
      ensures fresh(book) && fresh(aggregator) && fresh(trades)
    {
      book := new OrderBook(symbol);
      aggregator := new Aggregator(VWAP_LEVELS, SMA_WINDOW);
      trades := new TradeAggregators.TradeAggregator(TRADE_WINDOW_MS, TRADE_SMA_WINDOWS);
    }

    /** Book first, then its statistics; a sequence gap is logged and nothing else. */
    method ApplyDepth(u: Update)
      requires Configured() && ValidBook(State().book)
      modifies book, aggregator
      ensures ValidBook(State().book) && State() == AfterDepth(old(State()), u)
    {
      var gap := book.ApplyUpdate(u);
      aggregator.UpdateFrom(book);
    }

    method ApplyTrade(t: TradeAggregators.Trade)
      requires Configured()
      modifies trades
      ensures State() == AfterTrade(old(State()), t)
    {
      trades.Update(t);
    }
  }

  /** A table of states: all its objects belong to `repr` and no two symbols share one. */
  ghost predicate Table(states: map<Symbol, SymbolState>, repr: set<object>) {
    && (forall s {:trigger states[s]} :: s in states ==>
          && states[s].Configured()
          && states[s].book in repr && states[s].aggregator in repr && states[s].trades in repr)
    && (forall s, t {:trigger states[s], states[t]} :: s in states && t in states && s != t ==>
          && states[s].book != states[t].book && states[s].aggregator != states[t].aggregator
          && states[s].trades != states[t].trades)
  }

  ghost predicate BooksValid(view: map<Symbol, SymState>) {
    forall s {:trigger view[s]} :: s in view ==> ValidBook(view[s].book)
  }

  lemma AddNew(states: map<Symbol, SymbolState>, view: map<Symbol, SymState>, repr: set<object>, k: Symbol, st: SymbolState)
    requires Table(states, repr) && BooksValid(view) && st.Configured()
    requires st.book !in repr && st.aggregator !in repr && st.trades !in repr
    ensures Table(states[k := st], repr + {st.book, st.aggregator, st.trades}) && BooksValid(view[k := FreshState])
  {
  }

  /** No other symbol's state shares an object with that of k. */
  lemma OthersApart(states: map<Symbol, SymbolState>, repr: set<object>, view: map<Symbol, SymState>, k: Symbol)
    requires Table(states, repr) && BooksValid(view) && k in states && k in view
    ensures states[k].Configured() && ValidBook(view[k].book)
    ensures forall s {:trigger states[s]} :: s in states && s != k ==>
      && states[s].book != states[k].book && states[s].aggregator != states[k].aggregator && states[s].trades != states[k].trades
  {
  }

  lemma BooksStayValid(view: map<Symbol, SymState>, k: Symbol, st: SymState)
    requires BooksValid(view) && ValidBook(st.book)
    ensures BooksValid(view[k := st])
  {
  }

  lemma BookStays(st: SymState, t: TradeAggregators.Trade)
    ensures AfterTrade(st, t).book == st.book
  {
  }

  /** A symbol's part of a snapshot against the symbol's state, field by field. */
  ghost predicate IsViewOf(x: SymbolSnapshot, st: SymState) {
    && x.bids == st.book.bids && x.asks == st.book.asks && x.aggregation == st.agg.snap
    && IsBest(x.bestBid, st.book.bids, true) && IsBest(x.bestAsk, st.book.asks, false)
    && Aggregators.IsTop(x.spread, x.mid, st.book) && x.updateCount == st.book.updates
  }

  lemma {:induction false} ViewsAreShown(view: map<Symbol, SymState>)
    requires BooksValid(view)
    ensures forall s {:trigger SymbolSnapshotOf(view[s])} :: s in view ==> IsViewOf(SymbolSnapshotOf(view[s]), view[s])
  {
    hide IsBest;
    forall s | s in view ensures IsViewOf(SymbolSnapshotOf(view[s]), view[s]) {
      FirstIsBest(view[s].book.bids, true);
      FirstIsBest(view[s].book.asks, false);
    }
  }

  class ProcessingThread {
    const val: Decoding
    const recorder: DiskLogger?
    const detector: SignalDetector
    var states: map<Symbol, SymbolState>
    var recentSignals: seq<Signal>
    var snapshot: EngineSnapshot
    var processed: nat
    var tradesProcessed: nat
    var signalsFired: nat

    ghost var Repr: set<object>            // the objects behind the per-symbol states
    ghost var view: map<Symbol, SymState>   // and what they hold

    ghost function Disk(): set<object>
      reads recorder
    {
      if recorder == null then {} else if recorder.file == null then {recorder} else {recorder, recorder.file}
    }

    /** What has been recorded, and whether recording is on. */
    ghost function Written(): seq<Entry>
      reads recorder
    {
      if recorder == null then [] else recorder.written
    }

    ghost function CreatedUs(): u64
      reads recorder
    {
      if recorder == null then 0 else recorder.createdUs
    }

    ghost predicate Recording()
      reads recorder
    {
      recorder != null && recorder.file != null
    }

    /** What no step changes; the table may only grow by new objects. */
    twostate predicate Same()
      reads this, recorder, detector
    {
      && Disk() == old(Disk()) && Recording() == old(Recording()) && CreatedUs() == old(CreatedUs())
      && detector.conditions == old(detector.conditions) && fresh(Repr - old(Repr))
    }

    ghost predicate Shape()
      reads `states, `view, `Repr, Repr
    {
      && Table(states, Repr) && view.Keys == states.Keys && BooksValid(view)
      && forall s {:trigger states[s]} {:trigger view[s]} :: s in states ==> states[s].State() == view[s]
    }

    ghost predicate Valid()
      reads `states, `view, `Repr, `signalsFired, `recentSignals, detector, Repr, Disk()
    {
      && Shape() && Disk() !! Repr && this !in Repr && detector !in Repr
      && (recorder != null ==> recorder.Valid())
      && detector.Valid() && signalsFired == |detector.log|
      && recentSignals == NewestFirst(detector.log, MAX_RECENT_SIGNALS)
    }

    lemma Apart()
      requires Valid()
      ensures this !in Repr && this !in Disk()
    {
    }

    ghost function State(): Engine.State
      reads this, detector
    {
      Engine.State(view, detector.State(), processed, tradesProcessed)
    }

    constructor (val: Decoding, conditions: seq<Condition>, recorder: DiskLogger?)
      requires recorder != null ==> recorder.Valid()
      ensures Valid() && State() == Engine.Start && detector.conditions == conditions
      ensures this.val == val && this.recorder == recorder && fresh(detector) && Repr == {}
    {
      var d := new SignalDetector();
      var i := 0;
      while i < |conditions|
        invariant 0 <= i <= |conditions| && d.Valid() && fresh(d)
        invariant d.conditions == conditions[..i] && d.State() == NoCooldowns
      {
        d.AddCondition(conditions[i]);
        i := i + 1;
      }
      this.val, this.recorder, detector := val, recorder, d;
      states, recentSignals, processed, tradesProcessed, signalsFired := map[], [], 0, 0, 0;
      Repr, view := {}, map[];
      snapshot := EngineSnapshot(map[], [], 0, 0, 0);
    }

    /** A new entry of the table. */
    method Insert(symbol: Symbol, st: SymbolState)
      requires Shape() && symbol !in states && st.Configured() && st.State() == FreshState
      requires st.book !in Repr && st.aggregator !in Repr && st.trades !in Repr
      requires this !in Repr && this !in {st.book, st.aggregator, st.trades}
      modifies `states, `Repr, `view
      ensures Shape() && states == old(states)[symbol := st] && view == old(view)[symbol := FreshState]
      ensures Repr == old(Repr) + {st.book, st.aggregator, st.trades}
    {
      hide Table, BooksValid;
      AddNew(states, view, Repr, symbol, st);
      states, view, Repr := states[symbol := st], view[symbol := FreshState], Repr + {st.book, st.aggregator, st.trades};
    }

    /** `get_or_create_state` */
    method GetOrCreateState(symbol: Symbol) returns (st: SymbolState)
      requires Shape() && this !in Repr
      modifies `states, `Repr, `view
      ensures Shape() && symbol in states && states[symbol] == st
      ensures view == old(view)[symbol := StateOf(old(State()), symbol)] && fresh(Repr - old(Repr))
      ensures st.book in Repr && st.aggregator in Repr && st.trades in Repr
    {
      if symbol in states {
        st := states[symbol];
        assert view == view[symbol := view[symbol]];
      } else {
        st := new SymbolState(symbol);
        Insert(symbol, st);
      }
    }

    method UpdateBook(st: SymbolState, u: Update)
      requires Shape() && u.symbol in states && states[u.symbol] == st
      modifies st.book, st.aggregator, `view
      ensures Shape() && view == old(view)[u.symbol := AfterDepth(old(view)[u.symbol], u)]
      ensures st.State() == view[u.symbol]
    {
      hide Table, BooksValid, ValidBook, AfterDepth, SymbolState.Configured, SymbolState.State;
      OthersApart(states, Repr, view, u.symbol);
      st.ApplyDepth(u);
      BooksStayValid(view, u.symbol, st.State());
      view := view[u.symbol := st.State()];
    }

    method UpdateTrades(st: SymbolState, t: TradeAggregators.Trade)
      requires Shape() && t.symbol in states && states[t.symbol] == st
      modifies st.trades, `view
      ensures Shape() && view == old(view)[t.symbol := AfterTrade(old(view)[t.symbol], t)]
    {
      hide Table, BooksValid, ValidBook, AfterTrade, SymbolState.Configured, SymbolState.State;
      BookStays(view[t.symbol], t);
      OthersApart(states, Repr, view, t.symbol);
      st.ApplyTrade(t);
      BooksStayValid(view, t.symbol, st.State());
      view := view[t.symbol := st.State()];
    }

    /** The signal callback, once per fired signal. */
    method OnSignal(sig: Signal)
      modifies `signalsFired, `recentSignals
      ensures signalsFired == old(signalsFired) + 1
      ensures recentSignals == PushFront(old(recentSignals), sig)
    {
      signalsFired := signalsFired + 1;
      recentSignals := [sig] + recentSignals;
      if |recentSignals| > MAX_RECENT_SIGNALS {
        recentSignals := recentSignals[..|recentSignals| - 1];
      }
    }

    /** The detector runs and hands each fired signal to the callback. */
    method RunDetector(symbol: Symbol, agg: Aggregators.Snapshot, trades: TradeInfo, clock: seq<u64>)
      requires detector.Valid() && |clock| == |detector.conditions|
      requires signalsFired == |detector.log| && recentSignals == NewestFirst(detector.log, MAX_RECENT_SIGNALS)
      modifies detector, `signalsFired, `recentSignals
      ensures detector.Valid() && detector.conditions == old(detector.conditions)
      ensures signalsFired == |detector.log| && recentSignals == NewestFirst(detector.log, MAX_RECENT_SIGNALS)
      ensures detector.State() == TryAll(old(detector.State()), Attempts(detector.conditions, symbol, agg, trades, clock))
    {
      ghost var log := detector.log;
      var calls := detector.Evaluate(symbol, agg, trades, clock);
      var i := 0;
      assert log + calls[..0] == log;
      while i < |calls|
        invariant 0 <= i <= |calls|
        modifies `signalsFired, `recentSignals
        invariant signalsFired == |log| + i && recentSignals == NewestFirst(log + calls[..i], MAX_RECENT_SIGNALS)
      {
        PushFrontIsNewest(log + calls[..i], calls[i]);
        assert log + calls[..i] + [calls[i]] == log + calls[..i + 1];
        OnSignal(calls[i]);
        i := i + 1;
      }
      assert calls[..i] == calls;
    }

    method Record(u: DepthUpdate, wallUs: u64)
      requires Valid() && ValidUpdate(u)
      modifies Disk()
      ensures Valid() && State() == old(State()) && Same()
      ensures Written() == old(Written()) + (if old(Recording()) then [Entry(wallUs, ToRecord(u))] else [])
    {
      hide Shape;
      if recorder != null {
        var ok := recorder.Write(u, wallUs);
      }
    }

    method ApplyToBook(u: Update) returns (agg: Aggregators.Snapshot, trades: TradeInfo)
      requires Valid()
      modifies `states, `Repr, `view, Repr
      ensures Valid() && detector.State() == old(detector.State()) && Written() == old(Written()) && Same()
      ensures view == old(view)[u.symbol := AfterDepth(StateOf(old(State()), u.symbol), u)]
      ensures agg == view[u.symbol].agg.snap && trades == InfoOf(view[u.symbol].trades)
    {
      hide Shape, AfterDepth, ValidBook, DiskLogger.Valid, SignalDetector.Valid, NewestFirst;
      var st := GetOrCreateState(u.symbol);
      UpdateBook(st, u);
      agg, trades := st.aggregator.snapshot, InfoOf(st.trades.State());
    }

    method Detect(symbol: Symbol, agg: Aggregators.Snapshot, trades: TradeInfo, clock: seq<u64>)
      requires Valid() && |clock| == |detector.conditions|
      modifies detector, `signalsFired, `recentSignals
      ensures Valid() && view == old(view) && Written() == old(Written()) && Same()
      ensures detector.State() == TryAll(old(detector.State()), Attempts(detector.conditions, symbol, agg, trades, clock))
    {
      hide Shape;
      RunDetector(symbol, agg, trades, clock);
    }

    method ProcessDepth(u: DepthUpdate, wallUs: u64, clock: seq<u64>)
      requires Valid() && Sound(u) && |clock| == |detector.conditions|
      modifies `states, `Repr, `view, `signalsFired, `recentSignals, detector, Repr, Disk()
      ensures Valid() && Same()
      ensures var st := AfterDepth(StateOf(old(State()), u.symbol), DecodeUpdate(val, u));
        && view == old(view)[u.symbol := st]
        && detector.State() == TryAll(old(detector.State()), DepthAttempts(detector.conditions, st, u.symbol, clock))
      ensures Written() == old(Written()) + (if old(Recording()) then [Entry(wallUs, ToRecord(u))] else [])
    {
      hide Valid, Shape;
      Record(u, wallUs);
      var agg, trades := ApplyToBook(DecodeUpdate(val, u));
      Detect(u.symbol, agg, trades, clock);
    }

    method ApplyToTrades(t: TradeAggregators.Trade)
      requires Valid()
      modifies `states, `Repr, `view, Repr
      ensures Valid() && detector.State() == old(detector.State()) && Written() == old(Written()) && Same()
      ensures view == old(view)[t.symbol := AfterTrade(StateOf(old(State()), t.symbol), t)]
    {
      hide Shape, AfterTrade, ValidBook, DiskLogger.Valid, SignalDetector.Valid, NewestFirst;
      var st := GetOrCreateState(t.symbol);
      UpdateTrades(st, t);
    }

    method ProcessTrade(t: TradeAggregators.Trade)
      requires Valid()
      modifies `states, `Repr, `view, `tradesProcessed, Repr
      ensures Valid() && detector.State() == old(detector.State()) && Written() == old(Written()) && Same()
      ensures tradesProcessed == old(tradesProcessed) + 1
      ensures view == old(view)[t.symbol := AfterTrade(StateOf(old(State()), t.symbol), t)]
    {
      hide Valid, Shape, AfterTrade;
      Apart();
      tradesProcessed := tradesProcessed + 1;
      ApplyToTrades(t);
    }

    /** One symbol's part of the snapshot after another. */
    method SymbolSnapshots() returns (symbols: map<Symbol, SymbolSnapshot>)
      requires Shape()
      ensures symbols == SnapshotOf(State()).symbols
    {
      symbols := map[];
      var todo := states.Keys;
      while todo != {}
        invariant todo <= states.Keys && symbols.Keys == states.Keys - todo
        invariant forall s {:trigger symbols[s]} :: s in symbols ==> symbols[s] == SymbolSnapshotOf(view[s])
      {
        var s :| s in todo;
        assert states[s].State() == view[s];
        symbols := symbols[s := SymbolSnapshotOf(states[s].State())];
        todo := todo - {s};
      }
    }

    /** The published snapshot, field by field. */
    ghost predicate Shown()
      reads this
    {
      && snapshot.symbols.Keys == view.Keys
      && (forall s {:trigger snapshot.symbols[s]} :: s in view ==> IsViewOf(snapshot.symbols[s], view[s]))
      && snapshot.processed == processed && snapshot.tradesProcessed == tradesProcessed
      && snapshot.signalsFired == signalsFired && snapshot.recentSignals == recentSignals
    }

    lemma BooksAreValid()
      requires Valid()
      ensures BooksValid(view)
    {
    }

    method UpdateSnapshot()
      requires Valid()
      modifies `snapshot
      ensures Valid() && snapshot == SnapshotOf(State()) && Shown()
    {
      hide Shape, IsViewOf, SymbolSnapshotOf, BooksValid, DiskLogger.Valid;
      BooksAreValid();
      ViewsAreShown(view);
      var symbols := SymbolSnapshots();
      snapshot := EngineSnapshot(symbols, recentSignals, processed, tradesProcessed, signalsFired);
    }

    /** One message. */
    method Process(a: Arrival)
      requires Valid() && |a.clock| == |detector.conditions| && (a.message.ParsedDepth? ==> Sound(a.message.update))
      modifies this, detector, Repr, Disk()
      ensures Valid() && Same()
      ensures State() == Engine.Process(detector.conditions, old(State()), EventOf(val, a))
      ensures Written() == old(Written()) + (if old(Recording()) then Recorded([a]) else [])
      ensures snapshot == SnapshotOf(State())
    {
      hide Valid, Shape, Shown, AfterDepth, AfterTrade;
      RecordedOne(a);
      Apart();
      processed := processed + 1;
      match a.message {
        case ParsedTrade(t) => ProcessTrade(t);
        case ParsedDepth(u) => ProcessDepth(u, a.wallUs, a.clock);
      }
      UpdateSnapshot();
    }

    /** The thread has processed exactly these messages since it was constructed. */
    ghost predicate Follows(done: seq<Arrival>)
      reads this, detector
    {
      && SoundArrivals(done) && Clocked(detector.conditions, Events(val, done))
      && State() == Engine.Run(detector.conditions, Events(val, done))
    }

    /** One more message extends the run. */
    method ProcessFollowing(a: Arrival, ghost done: seq<Arrival>)
      requires Valid() && Follows(done) && |a.clock| == |detector.conditions|
      requires a.message.ParsedDepth? ==> Sound(a.message.update)
      modifies this, detector, Repr, Disk()
      ensures Valid() && Same() && Follows(done + [a])
      ensures Written() == old(Written()) + (if old(Recording()) then Recorded([a]) else [])
    {
      hide Shape, Valid, DecodeUpdate, Engine.Process, Engine.Run, SnapshotOf;
      FollowsSnoc(detector.conditions, val, done, a);
      Process(a);
    }

    method ProcessNext(queue: SpscQueue<Parsed>, wallUs: u64, clock: seq<u64>, ghost done: seq<Arrival>) returns (more: bool)
      requires Valid() && queue.Valid() && queue !in Repr && queue.buffer !in Repr
      requires Follows(done) && (queue.contents != [] ==> |clock| == |detector.conditions|)
      requires queue.contents != [] && queue.contents[0].ParsedDepth? ==> Sound(queue.contents[0].update)
      modifies this, detector, Repr, Disk(), queue`head, queue`popped, queue`contents
      ensures Valid() && queue.Valid() && queue !in Repr && queue.buffer !in Repr && Same()
      ensures more == (old(queue.contents) != [])
      ensures !more ==> queue.contents == [] && Follows(done) && Written() == old(Written())
      ensures more ==>
        var a := Arrival(old(queue.contents)[0], wallUs, clock);
        && queue.contents == old(queue.contents)[1..] && Follows(done + [a])
        && Written() == old(Written()) + (if old(Recording()) then Recorded([a]) else [])
    {
      hide Shape, Valid, SpscQueue.Valid, DecodeUpdate, Engine.Process, Engine.Run, SnapshotOf;
      assert queue as object !in Disk() && queue.buffer as object !in Disk();
      var r := queue.TryPop();
      assert Valid();
      if r.None? { return false; }
      ProcessFollowing(Arrival(r.value, wallUs, clock), done);
      more := true;
    }

    /** The second drain loop of `run`: processes everything still queued, in order, each message
        with its own clock readings. */
    method Drain(queue: SpscQueue<Parsed>, readings: seq<Reading>, ghost done: seq<Arrival>)
      requires Valid() && queue.Valid() && queue !in Repr && queue.buffer !in Repr && Follows(done)
      requires |readings| == |queue.contents|
      requires forall i {:trigger readings[i]} :: 0 <= i < |readings| ==> |readings[i].clock| == |detector.conditions|
      requires forall i {:trigger queue.contents[i]} :: 0 <= i < |queue.contents| && queue.contents[i].ParsedDepth? ==>
        Sound(queue.contents[i].update)
      modifies this, detector, Repr, Disk(), queue`head, queue`popped, queue`contents
      ensures Valid() && queue.Valid() && queue.contents == [] && Same()
      ensures Follows(done + Stamped(old(queue.contents), readings))
      ensures Written() == old(Written()) + (if old(Recording()) then Recorded(Stamped(old(queue.contents), readings)) else [])
    {
      hide Shape, Valid, SpscQueue.Valid, Follows, Written, Recording, Recorded;
      ghost var all := Stamped(queue.contents, readings);
      StampedEnds(done, all);
      var i := 0;
      var more := true;
      while more
        invariant !more ==> queue.contents == []
        invariant 0 <= i <= |readings| && queue.contents == old(queue.contents)[i..]
        invariant Valid() && queue.Valid() && queue !in Repr && queue.buffer !in Repr && Same()
        invariant Follows(done + all[..i])
        invariant Written() == old(Written()) + (if old(Recording()) then Recorded(all[..i]) else [])
        decreases |readings| - i, more
      {
        var r := if i < |readings| then readings[i] else Reading(0, []);
        more := ProcessNext(queue, r.wallUs, r.clock, done + all[..i]);
        if more {
          StampedSnoc(done, all, i);
          i := i + 1;
        }
      }
    }
  }

  /** The clock readings of one message: the recorder's and the detector's. */
  datatype Reading = Reading(wallUs: u64, clock: seq<u64>)

  function Stamped(ms: seq<Parsed>, readings: seq<Reading>): (as_: seq<Arrival>)
    requires |ms| == |readings|
    ensures |as_| == |ms|
  {
    seq(|ms|, i requires 0 <= i < |ms| => Arrival(ms[i], readings[i].wallUs, readings[i].clock))
  }

  lemma StampedEnds(done: seq<Arrival>, all: seq<Arrival>)
    ensures done + all[..0] == done && Recorded(all[..0]) == [] && all[..|all|] == all
  {
  }

  lemma {:induction false} StampedSnoc(done: seq<Arrival>, all: seq<Arrival>, i: nat)
    requires i < |all|
    ensures done + all[..i + 1] == done + all[..i] + [all[i]]
    ensures Recorded(all[..i + 1]) == Recorded(all[..i]) + Recorded([all[i]])
  {
    assert all[..i + 1][..i] == all[..i];
    RecordedOne(all[i]);
  }

  lemma {:induction false} FollowsSnoc(cs: seq<Condition>, val: Decoding, done: seq<Arrival>, a: Arrival)
    requires SoundArrivals(done) && Clocked(cs, Events(val, done)) && |a.clock| == |cs|
    requires a.message.ParsedDepth? ==> Sound(a.message.update)
    ensures SoundArrivals(done + [a]) && Clocked(cs, Events(val, done + [a]))
    ensures Engine.Run(cs, Events(val, done + [a])) == Engine.Process(cs, Engine.Run(cs, Events(val, done)), EventOf(val, a))
  {
    assert Events(val, done + [a]) == Events(val, done) + [EventOf(val, a)];
    RunSnoc(cs, Events(val, done), EventOf(val, a));
  }
}
