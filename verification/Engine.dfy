/** The processing thread as a fold over messages (src/engine/processing_thread.cpp): what each
    message does to the per-symbol states, the cooldowns and the firing log. */
module Engine {
  import opened Words
  import opened OrderBooks
  import opened Aggregators
  import opened TradeAggregators
  import opened Signals

  type Symbol = seq<byte>

  // defaults of the constructors SymbolState uses
  const VWAP_LEVELS: nat := 5
  const SMA_WINDOW: nat := 20
  const TRADE_WINDOW_MS: nat := 1000
  const TRADE_SMA_WINDOWS: nat := 20

  datatype Message = Depth(update: Update) | TradeMessage(trade: Trade)
  {
    function Symbol(): Symbol {
      match this case Depth(u) => u.symbol case TradeMessage(t) => t.symbol
    }
  }

  /** A message with the wall-clock readings its processing would take, one per condition. */
  datatype Event = Event(message: Message, clock: seq<u64>)

  datatype SymState = SymState(book: Book, agg: Agg, trades: TradeState)

  const FreshState: SymState := SymState(EmptyBook, EmptyAgg, EmptyTrades)

  datatype State = State(states: map<Symbol, SymState>, cool: Cooldowns, processed: nat, tradesProcessed: nat)

  const Start: State := State(map[], NoCooldowns, 0, 0)

  /** `get_or_create_state` */
  function StateOf(e: State, s: Symbol): SymState {
    if s in e.states then e.states[s] else FreshState
  }

  /** Trade statistics reach the detector only once there are trades in the window. */
  function InfoOf(t: TradeState): TradeInfo {
    if t.snap.count > 0 then Trades(t.snap) else NoTrades
  }

  function AfterDepth(st: SymState, u: Update): SymState {
    var book := Apply(st.book, u);
    SymState(book, Refresh(st.agg, book, VWAP_LEVELS, SMA_WINDOW), st.trades)
  }

  function AfterTrade(st: SymState, t: Trade): SymState {
    st.(trades := Step(st.trades, t, TRADE_WINDOW_MS, TRADE_SMA_WINDOWS))
  }

  function DepthAttempts(cs: seq<Condition>, st: SymState, s: Symbol, clock: seq<u64>): seq<Attempt>
    requires |clock| == |cs|
  {
    Attempts(cs, s, st.agg.snap, InfoOf(st.trades), clock)
  }

  function Process(cs: seq<Condition>, e: State, ev: Event): State
    requires |ev.clock| == |cs|
  {
    match ev.message
    case Depth(u) =>
      var st := AfterDepth(StateOf(e, u.symbol), u);
      State(e.states[u.symbol := st], TryAll(e.cool, DepthAttempts(cs, st, u.symbol, ev.clock)),
            e.processed + 1, e.tradesProcessed)
    case TradeMessage(t) =>
      State(e.states[t.symbol := AfterTrade(StateOf(e, t.symbol), t)], e.cool, e.processed + 1, e.tradesProcessed + 1)
  }

  ghost predicate Clocked(cs: seq<Condition>, evs: seq<Event>) {
    forall i {:trigger evs[i]} :: 0 <= i < |evs| ==> |evs[i].clock| == |cs|
  }

  ghost function Run(cs: seq<Condition>, evs: seq<Event>): State
    requires Clocked(cs, evs)
  {
    if evs == [] then Start else Process(cs, Run(cs, evs[..|evs| - 1]), evs[|evs| - 1])
  }
}

/** Symbols do not influence each other. */
module Sharding {
  import opened Words
  import opened Signals
  import opened Engine

  /** The part of an event sequence that concerns one symbol. */
  function For(evs: seq<Event>, s: Symbol): seq<Event> {
    if evs == [] then []
    else For(evs[..|evs| - 1], s) + (if evs[|evs| - 1].message.Symbol() == s then [evs[|evs| - 1]] else [])
  }

  function LogOf(log: seq<Signal>, s: Symbol): seq<Signal> {
    if log == [] then []
    else LogOf(log[..|log| - 1], s) + (if log[|log| - 1].symbol == s then [log[|log| - 1]] else [])
  }

  ghost predicate SameCooldowns(a: Cooldowns, b: Cooldowns, s: Symbol) {
    && LogOf(a.log, s) == LogOf(b.log, s)
    && forall k: Kind {:trigger (k, s) in a.lastFired} {:trigger (k, s) in b.lastFired} ::
         ((k, s) in a.lastFired <==> (k, s) in b.lastFired)
         && ((k, s) in a.lastFired ==> a.lastFired[(k, s)] == b.lastFired[(k, s)])
  }

  /** Two engine states a symbol cannot tell apart. */
  ghost predicate Same(a: State, b: State, s: Symbol) {
    && (s in a.states <==> s in b.states) && StateOf(a, s) == StateOf(b, s)
    && SameCooldowns(a.cool, b.cool, s)
  }

  ghost predicate AllFor(attempts: seq<Attempt>, s: Symbol) {
    forall i {:trigger attempts[i]} :: 0 <= i < |attempts| ==> attempts[i].signal.symbol == s
  }

  lemma {:induction false} AttemptsAreForSymbol(cs: seq<Condition>, n: nat, s: Symbol, st: SymState, clock: seq<u64>)
    requires n <= |cs| == |clock|
    ensures AllFor(AttemptsUpTo(cs, n, s, st.agg.snap, InfoOf(st.trades), clock), s)
    decreases n
  {
    if n > 0 { AttemptsAreForSymbol(cs, n - 1, s, st, clock); }
  }

  lemma {:induction false} LogOfSnoc(log: seq<Signal>, x: Signal, s: Symbol)
    ensures LogOf(log + [x], s) == LogOf(log, s) + (if x.symbol == s then [x] else [])
  {
    assert (log + [x])[..|log|] == log;
  }

  /** Attempts for a symbol look at and change only that symbol's cooldowns. */
  lemma {:induction false} TryAgrees(a: Cooldowns, b: Cooldowns, x: Attempt, s: Symbol)
    requires SameCooldowns(a, b, s)
    ensures x.signal.symbol == s ==> SameCooldowns(Try(a, x), Try(b, x), s)
    ensures x.signal.symbol != s ==> SameCooldowns(Try(a, x), b, s)
  {
    LogOfSnoc(a.log, x.signal, s);
    LogOfSnoc(b.log, x.signal, s);
    if x.signal.symbol == s {
      assert x.Key() == (x.signal.kind, s);
      assert Fires(a, x) <==> Fires(b, x);
    }
  }

  lemma {:induction false} TryAllAgrees(a: Cooldowns, b: Cooldowns, xs: seq<Attempt>, owner: Symbol, s: Symbol)
    requires SameCooldowns(a, b, s) && AllFor(xs, owner)
    ensures owner == s ==> SameCooldowns(TryAll(a, xs), TryAll(b, xs), s)
    ensures owner != s ==> SameCooldowns(TryAll(a, xs), b, s)
    decreases |xs|
  {
    if xs != [] {
      var init, x := xs[..|xs| - 1], xs[|xs| - 1];
      TryAllAgrees(a, b, init, owner, s);
      if owner == s {
        TryAgrees(TryAll(a, init), TryAll(b, init), x, s);
      } else {
        TryAgrees(TryAll(a, init), b, x, s);
      }
    }
  }

  lemma {:induction false} ProcessAgrees(cs: seq<Condition>, a: State, b: State, ev: Event, s: Symbol)
    requires |ev.clock| == |cs| && Same(a, b, s)
    ensures ev.message.Symbol() == s ==> Same(Process(cs, a, ev), Process(cs, b, ev), s)
    ensures ev.message.Symbol() != s ==> Same(Process(cs, a, ev), b, s)
  {
    var owner := ev.message.Symbol();
    if ev.message.Depth? {
      var st := AfterDepth(StateOf(a, owner), ev.message.update);
      AttemptsAreForSymbol(cs, |cs|, owner, st, ev.clock);
      TryAllAgrees(a.cool, b.cool, DepthAttempts(cs, st, owner, ev.clock), owner, s);
    }
  }

  lemma {:induction false} ClockedInit(cs: seq<Condition>, evs: seq<Event>)
    requires evs != [] && Clocked(cs, evs)
    ensures Clocked(cs, evs[..|evs| - 1])
  {
    assert forall i {:trigger evs[..|evs| - 1][i]} :: 0 <= i < |evs| - 1 ==> evs[..|evs| - 1][i] == evs[i];
  }

  lemma {:induction false} ForIsClocked(cs: seq<Condition>, evs: seq<Event>, s: Symbol)
    requires Clocked(cs, evs)
    ensures Clocked(cs, For(evs, s))
  {
    if evs != [] {
      ClockedInit(cs, evs);
      ForIsClocked(cs, evs[..|evs| - 1], s);
    }
  }

  lemma {:induction false} RunSnoc(cs: seq<Condition>, evs: seq<Event>, ev: Event)
    requires Clocked(cs, evs) && |ev.clock| == |cs|
    ensures Clocked(cs, evs + [ev]) && Run(cs, evs + [ev]) == Process(cs, Run(cs, evs), ev)
  {
    assert (evs + [ev])[..|evs|] == evs;
  }

  /** Sharding. For any run and any symbol, the symbol's book, statistics, trade windows, cooldown
      entries and firings are those of the run that contains only its own messages, taken with
      the same clock readings. */
  lemma {:induction false} ShardsAreIndependent(cs: seq<Condition>, evs: seq<Event>, s: Symbol)
    requires Clocked(cs, evs) && Clocked(cs, For(evs, s))
    ensures Same(Run(cs, evs), Run(cs, For(evs, s)), s)
    decreases |evs|
  {
    if evs != [] {
      var init, ev := evs[..|evs| - 1], evs[|evs| - 1];
      ClockedInit(cs, evs);
      ForIsClocked(cs, init, s);
      ShardsAreIndependent(cs, init, s);
      ProcessAgrees(cs, Run(cs, init), Run(cs, For(init, s)), ev, s);
      if ev.message.Symbol() == s {
        RunSnoc(cs, For(init, s), ev);
      } else {
        assert For(evs, s) == For(init, s);
      }
    }
  }

  /** The firing log of a symbol's own run is already its restriction. */
  lemma {:induction false} OwnLogIsWhole(cs: seq<Condition>, evs: seq<Event>, s: Symbol)
    requires Clocked(cs, evs) && For(evs, s) == evs
    ensures LogOf(Run(cs, evs).cool.log, s) == Run(cs, evs).cool.log
    decreases |evs|
  {
    if evs != [] {
      var init, ev := evs[..|evs| - 1], evs[|evs| - 1];
      ClockedInit(cs, evs);
      ForLength(init, s);
      assert ev.message.Symbol() == s;
      assert For(init, s) == init;
      OwnLogIsWhole(cs, init, s);
      if ev.message.Depth? {
        var e := Run(cs, init);
        var st := AfterDepth(StateOf(e, s), ev.message.update);
        AttemptsAreForSymbol(cs, |cs|, s, st, ev.clock);
        TryAllKeepsWhole(e.cool, DepthAttempts(cs, st, s, ev.clock), s);
      }
    }
  }

  lemma {:induction false} ForLength(evs: seq<Event>, s: Symbol)
    ensures |For(evs, s)| <= |evs|
  {
    if evs != [] { ForLength(evs[..|evs| - 1], s); }
  }

  lemma {:induction false} TryAllKeepsWhole(c: Cooldowns, xs: seq<Attempt>, s: Symbol)
    requires AllFor(xs, s) && LogOf(c.log, s) == c.log
    ensures LogOf(TryAll(c, xs).log, s) == TryAll(c, xs).log
    decreases |xs|
  {
    if xs != [] {
      var init := xs[..|xs| - 1];
      TryAllKeepsWhole(c, init, s);
      LogOfSnoc(TryAll(c, init).log, xs[|xs| - 1].signal, s);
    }
  }

  lemma {:induction false} ForIsIdempotent(evs: seq<Event>, s: Symbol)
    ensures For(For(evs, s), s) == For(evs, s)
  {
    if evs != [] {
      var init, ev := evs[..|evs| - 1], evs[|evs| - 1];
      ForIsIdempotent(init, s);
      if ev.message.Symbol() == s {
        assert For(evs, s)[..|For(init, s)|] == For(init, s);
      } else {
        assert For(evs, s) == For(init, s);
      }
    }
  }

  /** Sharding theorem. For any run and any symbol, the symbol's book, statistics, trade windows and
      cooldown entries are those of the run of its own messages alone, taken with the same clock
      readings, and its firings in the joint log are exactly the log of that run. */
  lemma ShardingTheorem(cs: seq<Condition>, evs: seq<Event>, s: Symbol)
    requires Clocked(cs, evs)
    ensures Clocked(cs, For(evs, s))
    ensures var joint, own := Run(cs, evs), Run(cs, For(evs, s));
      && (s in joint.states <==> s in own.states)
      && (s in joint.states ==> joint.states[s] == own.states[s])
      && (forall k: Kind :: (k, s) in joint.cool.lastFired <==> (k, s) in own.cool.lastFired)
      && (forall k: Kind :: (k, s) in joint.cool.lastFired ==> joint.cool.lastFired[(k, s)] == own.cool.lastFired[(k, s)])
      && LogOf(joint.cool.log, s) == own.cool.log
  {
    ForIsClocked(cs, evs, s);
    ShardsAreIndependent(cs, evs, s);
    ForIsIdempotent(evs, s);
    OwnLogIsWhole(cs, For(evs, s), s);
  }
}
