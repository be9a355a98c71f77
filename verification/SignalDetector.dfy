/** Trigger conditions and cooldown bookkeeping (src/engine/signal_detector.cpp). */
module Signals {
  import opened Words
  import opened Aggregators
  import TradeAggregators

  datatype Kind =
    | SpreadWide | SpreadNarrow | ImbalanceBid | ImbalanceAsk | PriceDeviation
    | TradeImbalanceBuy | TradeImbalanceSell | VolumeSpike | BookPressureBid | BookPressureAsk

  datatype Condition = Condition(kind: Kind, threshold: real, cooldownUs: u64)

  datatype Signal = Signal(kind: Kind, symbol: seq<byte>, value: real, threshold: real, timeUs: u64)

  datatype TradeInfo = NoTrades | Trades(snap: TradeAggregators.TradeSnapshot)

  /** The value a condition looks at, and whether it triggers. */
  datatype Verdict = Verdict(triggered: bool, value: real)

  const Quiet: Verdict := Verdict(false, 0.0)

  function Judge(c: Condition, agg: Snapshot, trades: TradeInfo): Verdict {
    match c.kind
    case SpreadWide => Verdict(agg.spread > c.threshold, agg.spread)
    case SpreadNarrow => Verdict(agg.spread > 0.0 && agg.spread < c.threshold, agg.spread)
    case ImbalanceBid => Verdict(agg.imbalance > c.threshold, agg.imbalance)
    case ImbalanceAsk => Verdict(agg.imbalance < -c.threshold, agg.imbalance)
    case PriceDeviation =>
      if agg.midSma > 0.0 then Verdict(Deviation(agg) > c.threshold, Deviation(agg)) else Quiet
    case TradeImbalanceBuy =>
      if trades.Trades? && trades.snap.count > 0
      then Verdict(trades.snap.imbalance > c.threshold, trades.snap.imbalance) else Quiet
    case TradeImbalanceSell =>
      if trades.Trades? && trades.snap.count > 0
      then Verdict(trades.snap.imbalance < -c.threshold, trades.snap.imbalance) else Quiet
    case VolumeSpike =>
      if trades.Trades? && trades.snap.volumeSma > 0.0 then
        var v := trades.snap.totalVolume / trades.snap.volumeSma;
        Verdict(v > c.threshold, v)
      else Quiet
    case BookPressureBid =>
      if agg.samples > 1 then Verdict(agg.imbalanceDelta > c.threshold, agg.imbalanceDelta) else Quiet
    case BookPressureAsk =>
      if agg.samples > 1 then Verdict(agg.imbalanceDelta < -c.threshold, agg.imbalanceDelta) else Quiet
  }

  // ---------------------------------------------------------------- cooldown

  type Key = (Kind, seq<byte>)

  /** A triggered condition and the clock reading it took. */
  datatype Attempt = Attempt(signal: Signal, cooldownUs: u64)
  {
    function Key(): Key { (signal.kind, signal.symbol) }

    function Time(): u64 { signal.timeUs }
  }

  /** Cooldown map, everything fired so far, and the suppression counter. */
  datatype Cooldowns = Cooldowns(lastFired: map<Key, u64>, log: seq<Signal>, suppressed: nat)

  const NoCooldowns: Cooldowns := Cooldowns(map[], [], 0)

  /** Unsigned 64-bit subtraction. */
  function Elapsed(now: u64, last: u64): u64 { (now - last) % U64_SPAN }

  predicate Fires(c: Cooldowns, a: Attempt) {
    a.Key() in c.lastFired ==> Elapsed(a.Time(), c.lastFired[a.Key()]) >= a.cooldownUs
  }

  function Try(c: Cooldowns, a: Attempt): Cooldowns {
    if Fires(c, a) then Cooldowns(c.lastFired[a.Key() := a.Time()], c.log + [a.signal], c.suppressed)
    else c.(suppressed := c.suppressed + 1)
  }

  function TryAll(c: Cooldowns, attempts: seq<Attempt>): Cooldowns {
    if attempts == [] then c else Try(TryAll(c, attempts[..|attempts| - 1]), attempts[|attempts| - 1])
  }

  /** The attempts of the first n conditions on one update; condition i would read clock[i]. */
  function AttemptsUpTo(cs: seq<Condition>, n: nat, symbol: seq<byte>, agg: Snapshot, trades: TradeInfo, clock: seq<u64>): seq<Attempt>
    requires n <= |cs| == |clock|
  {
    if n == 0 then []
    else
      var c := cs[n - 1];
      var v := Judge(c, agg, trades);
      AttemptsUpTo(cs, n - 1, symbol, agg, trades, clock) +
      (if v.triggered then [Attempt(Signal(c.kind, symbol, v.value, c.threshold, clock[n - 1]), c.cooldownUs)] else [])
  }

  /** What one call of `evaluate` attempts to fire: nothing before the first sample. */
  function Attempts(cs: seq<Condition>, symbol: seq<byte>, agg: Snapshot, trades: TradeInfo, clock: seq<u64>): seq<Attempt>
    requires |cs| == |clock|
  {
    if agg.samples == 0 then [] else AttemptsUpTo(cs, |cs|, symbol, agg, trades, clock)
  }

  class SignalDetector {
    var conditions: seq<Condition>
    var lastFired: map<Key, u64>
    var signalsFired: nat
    var suppressed: nat
    ghost var log: seq<Signal>

    ghost predicate Valid()
      reads this
    {
      signalsFired == |log|
    }

    ghost function State(): Cooldowns
      reads this
    {
      Cooldowns(lastFired, log, suppressed)
    }

    constructor ()
      ensures Valid() && State() == NoCooldowns && conditions == []
    {
      conditions, lastFired, signalsFired, suppressed := [], map[], 0, 0;
      log := [];
    }

    method AddCondition(c: Condition)
      requires Valid()
      modifies `conditions
      ensures Valid() && conditions == old(conditions) + [c]
    {
      conditions := conditions + [c];
    }

    /** A condition has triggered: suppress it while its type and symbol are cooling down. */
    method Trigger(sig: Signal, cooldownUs: u64) returns (fired: bool)
      requires Valid()
      modifies `lastFired, `signalsFired, `suppressed, `log
      ensures Valid() && State() == Try(old(State()), Attempt(sig, cooldownUs))
      ensures fired == Fires(old(State()), Attempt(sig, cooldownUs))
      ensures log == old(log) + (if fired then [sig] else [])
    {
      var key := (sig.kind, sig.symbol);
      if key in lastFired && (sig.timeUs - lastFired[key]) % U64_SPAN < cooldownUs {
        suppressed := suppressed + 1;
        return false;
      }
      lastFired := lastFired[key := sig.timeUs];
      log := log + [sig];
      signalsFired := signalsFired + 1;
      fired := true;
    }

    /** Evaluates all conditions in order; `calls` are the signals handed to the callback. */
    method Evaluate(symbol: seq<byte>, agg: Snapshot, trades: TradeInfo, clock: seq<u64>) returns (calls: seq<Signal>)
      requires Valid() && |clock| == |conditions|
      modifies this
      ensures Valid() && conditions == old(conditions)
      ensures State() == TryAll(old(State()), Attempts(conditions, symbol, agg, trades, clock))
      ensures log == old(log) + calls
    {
      calls := [];
      if agg.samples == 0 { return; }
      ghost var done: seq<Attempt> := [];
      var i := 0;
      while i < |conditions|
        invariant 0 <= i <= |conditions| && conditions == old(conditions) && Valid()
        invariant done == AttemptsUpTo(conditions, i, symbol, agg, trades, clock)
        invariant State() == TryAll(old(State()), done)
        invariant log == old(log) + calls
      {
        var c := conditions[i];
        var v := Judge(c, agg, trades);
        if v.triggered {
          var sig := Signal(c.kind, symbol, v.value, c.threshold, clock[i]);
          ghost var a := Attempt(sig, c.cooldownUs);
          assert (done + [a])[..|done|] == done;
          done := done + [a];
          var fired := Trigger(sig, c.cooldownUs);
          if fired {
            calls := calls + [sig];
          }
        } else {
          assert AttemptsUpTo(conditions, i + 1, symbol, agg, trades, clock) == done;
        }
        i := i + 1;
      }
    }
  }
}

/** The cooldown seen over whole runs: the map against the log of everything that fired. */
module CooldownLaws {
  import opened Masks
  import opened Words
  import opened Signals

  /** Which attempts of a run that began without cooldowns fired. */
  ghost function Flags(run: seq<Attempt>): (f: seq<bool>)
    ensures |f| == |run|
  {
    if run == [] then []
    else Flags(run[..|run| - 1]) + [Fires(TryAll(NoCooldowns, run[..|run| - 1]), run[|run| - 1])]
  }

  ghost predicate Fired(run: seq<Attempt>, j: nat)
    requires j < |run|
  {
    Flags(run)[j]
  }

  lemma {:induction false} FlagsOfPrefix(run: seq<Attempt>, n: nat)
    requires n <= |run|
    ensures Flags(run[..n]) == Flags(run)[..n]
    decreases |run|
  {
    if n == |run| {
      assert run[..n] == run;
    } else {
      FlagsOfPrefix(run[..|run| - 1], n);
      assert run[..|run| - 1][..n] == run[..n];
    }
  }

  /** An attempt fires exactly if the cooldowns left by the attempts before it allow it. */
  lemma {:induction false} FiredIsFires(run: seq<Attempt>, j: nat)
    requires j < |run|
    ensures Fired(run, j) <==> Fires(TryAll(NoCooldowns, run[..j]), run[j])
  {
    FlagsOfPrefix(run, j + 1);
    assert run[..j + 1][..j] == run[..j];
  }

  ghost predicate ClockForward(run: seq<Attempt>) {
    forall i, j {:trigger run[i], run[j]} :: 0 <= i < j < |run| ==> run[i].Time() <= run[j].Time()
  }

  /** i is the last firing of `key` in the run. */
  ghost predicate LastFiring(run: seq<Attempt>, key: Key, i: nat) {
    && i < |run| && run[i].Key() == key && Fired(run, i)
    && forall k {:trigger run[k]} :: i < k < |run| && run[k].Key() == key ==> !Fired(run, k)
  }

  ghost predicate NeverFired(run: seq<Attempt>, key: Key) {
    forall k {:trigger run[k]} :: 0 <= k < |run| && run[k].Key() == key ==> !Fired(run, k)
  }

  lemma {:induction false} ExtendRun(run: seq<Attempt>, key: Key, i: nat)
    requires run != []
    ensures var n := |run| - 1;
      var hit := run[n].Key() == key && Fired(run, n);
      && (hit ==> LastFiring(run, key, n))
      && (!hit && NeverFired(run[..n], key) ==> NeverFired(run, key))
      && (!hit && LastFiring(run[..n], key, i) ==> LastFiring(run, key, i))
  {
    var n := |run| - 1;
    var init := run[..n];
    FlagsOfPrefix(run, n);
    forall k | 0 <= k < n ensures init[k] == run[k] && (Fired(init, k) <==> Fired(run, k)) {
      assert Flags(init)[k] == Flags(run)[..n][k];
    }
  }

  /** The map remembers exactly the last firing of each key. */
  lemma {:induction false} MapIsLastFiring(run: seq<Attempt>, key: Key) returns (i: nat)
    ensures key in TryAll(NoCooldowns, run).lastFired ==>
      LastFiring(run, key, i) && TryAll(NoCooldowns, run).lastFired[key] == run[i].Time()
    ensures key !in TryAll(NoCooldowns, run).lastFired ==> NeverFired(run, key)
    decreases |run|
  {
    i := 0;
    if run != [] {
      var n := |run| - 1;
      i := MapIsLastFiring(run[..n], key);
      ExtendRun(run, key, i);
      FiredIsFires(run, n);
      if run[n].Key() == key && Fired(run, n) { i := n; }
    }
  }

  lemma {:induction false} ForwardElapsed(now: u64, last: u64)
    requires last <= now
    ensures Elapsed(now, last) == now - last
  {
  }

  /** Main theorem. With a clock that never steps back, an attempt fires if and only if every
      earlier firing of its type and symbol is at least its own cooldown ago. */
  lemma FiresIffSpaced(run: seq<Attempt>, j: nat)
    requires j < |run| && ClockForward(run)
    ensures Fired(run, j) <==>
      forall i {:trigger run[i]} :: 0 <= i < j && run[i].Key() == run[j].Key() && Fired(run, i)
        ==> run[j].Time() - run[i].Time() >= run[j].cooldownUs
  {
    var past, key, now := run[..j], run[j].Key(), run[j].Time();
    FiredIsFires(run, j);
    FlagsOfPrefix(run, j);
    forall k | 0 <= k < j ensures past[k] == run[k] && (Fired(past, k) <==> Fired(run, k)) {
      assert Flags(past)[k] == Flags(run)[..j][k];
    }
    var last := MapIsLastFiring(past, key);
    if key in TryAll(NoCooldowns, past).lastFired {
      assert past[last] == run[last] && run[last].Time() <= now;
      ForwardElapsed(now, run[last].Time());
      forall i | 0 <= i < j && run[i].Key() == key && Fired(run, i) ensures run[i].Time() <= run[last].Time() {
        assert past[i] == run[i];
        assert i <= last;
      }
    }
  }

  /** A suppressed trigger has a witness: a firing of the same key less than a cooldown earlier. */
  lemma SuppressedHasWitness(run: seq<Attempt>, j: nat) returns (i: nat)
    requires j < |run| && ClockForward(run) && !Fired(run, j)
    ensures i < j && run[i].Key() == run[j].Key() && Fired(run, i)
    ensures 0 <= run[j].Time() - run[i].Time() < run[j].cooldownUs
  {
    FiresIffSpaced(run, j);
    i :| 0 <= i < j && run[i].Key() == run[j].Key() && Fired(run, i)
         && run[j].Time() - run[i].Time() < run[j].cooldownUs;
  }

  /** Fired and suppressed add up to triggered. */
  lemma {:induction false} EveryTriggerIsCounted(run: seq<Attempt>)
    ensures |TryAll(NoCooldowns, run).log| + TryAll(NoCooldowns, run).suppressed == |run|
    decreases |run|
  {
    if run != [] { EveryTriggerIsCounted(run[..|run| - 1]); }
  }

  /** When the clock steps back, the unsigned difference is huge: the attempt fires although the
      last firing is recent, unless the cooldown reaches almost to 2^64. */
  lemma BackwardClockFires(c: Cooldowns, a: Attempt)
    requires a.Key() in c.lastFired && a.Time() < c.lastFired[a.Key()]
    ensures Fires(c, a) <==> a.cooldownUs <= U64_SPAN - (c.lastFired[a.Key()] - a.Time())
  {
  }

  // ---------------------------------------------------------------- rate

  /** Firings of a key with a time in [lo, hi]. */
  ghost function Count(run: seq<Attempt>, key: Key, lo: nat, hi: nat): nat {
    if run == [] then 0
    else
      var n := |run| - 1;
      Count(run[..n], key, lo, hi)
      + (if run[n].Key() == key && lo <= run[n].Time() <= hi && Fired(run, n) then 1 else 0)
  }

  ghost predicate CooledBy(run: seq<Attempt>, key: Key, c: nat) {
    forall i {:trigger run[i]} :: 0 <= i < |run| && run[i].Key() == key ==> run[i].cooldownUs >= c
  }

  lemma {:induction false} PrefixFacts(run: seq<Attempt>, key: Key, c: nat)
    requires run != [] && ClockForward(run) && CooledBy(run, key, c)
    ensures ClockForward(run[..|run| - 1]) && CooledBy(run[..|run| - 1], key, c)
  {
    var init := run[..|run| - 1];
    assert forall i {:trigger init[i]} :: 0 <= i < |init| ==> init[i] == run[i];
  }

  /** The next firing comes at least c later. */
  lemma {:induction false} NextFiring(run: seq<Attempt>, key: Key, lo: nat, t: nat, n: nat, c: nat, k: nat)
    requires ClockForward(run) && CooledBy(run, key, c) && t < n < |run| && k > 0
    requires run[t].Key() == key == run[n].Key() && Fired(run, t) && Fired(run, n)
    requires lo + c * (k - 1) <= run[t].Time()
    ensures lo + c * k <= run[n].Time()
  {
    FiresIffSpaced(run, n);
    assert run[n].cooldownUs >= c;
    assert c * k == c * (k - 1) + c;
  }

  /** k firings in an interval need k - 1 cooldowns of room; t is the last of them. */
  lemma {:induction false} FiringsNeedRoom(run: seq<Attempt>, key: Key, lo: nat, hi: nat, c: nat) returns (t: nat)
    requires ClockForward(run) && CooledBy(run, key, c)
    ensures Count(run, key, lo, hi) > 0 ==>
      && t < |run| && run[t].Key() == key && Fired(run, t)
      && lo + c * (Count(run, key, lo, hi) - 1) <= run[t].Time() <= hi
    decreases |run|
  {
    hide Fires, Try, ClockForward, CooledBy;
    t := 0;
    if run != [] {
      var n := |run| - 1;
      var k := Count(run[..n], key, lo, hi);
      PrefixFacts(run, key, c);
      t := FiringsNeedRoom(run[..n], key, lo, hi, c);
      if k > 0 {
        FlagsOfPrefix(run, n);
        assert Fired(run, t) by { assert Flags(run[..n])[t] == Flags(run)[..n][t]; }
      }
      if run[n].Key() == key && lo <= run[n].Time() <= hi && Fired(run, n) {
        if k > 0 { NextFiring(run, key, lo, t, n, c, k); }
        t := n;
      }
    }
  }

  /** Any closed interval of length L holds at most L / c + 1 firings of a key whose conditions
      all have a cooldown of at least c > 0. */
  lemma FiringRateIsBounded(run: seq<Attempt>, key: Key, lo: nat, length: nat, c: nat)
    requires c > 0 && ClockForward(run) && CooledBy(run, key, c)
    ensures Count(run, key, lo, lo + length) <= length / c + 1
  {
    var t := FiringsNeedRoom(run, key, lo, lo + length, c);
    var k := Count(run, key, lo, lo + length);
    if k > 0 {
      QuotientBound(length, c, k - 1);
    }
  }

  lemma QuotientBound(x: nat, c: nat, k: nat)
    requires c > 0 && c * k <= x
    ensures k <= x / c
  {
    var d := k - x / c;
    assert c * d == c * k - c * (x / c);
    Multiple(c, d);
  }

  /** Two firings of one key never carry the same time if its cooldowns are not zero. */
  lemma FiringTimesAreDistinct(run: seq<Attempt>, i: nat, j: nat)
    requires ClockForward(run) && i < j < |run| && Fired(run, i) && Fired(run, j)
    requires run[i].Key() == run[j].Key() && run[j].cooldownUs > 0
    ensures run[i].Time() < run[j].Time()
  {
    FiresIffSpaced(run, j);
  }
}

/** When the imbalance swings from one side to the other within a few updates, the pressure
    condition must have triggered on the way. */
module PressureLaws {
  import opened Aggregators
  import opened OrderBooks
  import opened Signals

  ghost predicate TriggersAt(c: Condition, books: seq<Book>, k: nat, levels: nat, window: nat)
    requires window >= 1 && k < |books|
  {
    Judge(c, SnapAt(books, k, levels, window), NoTrades).triggered
  }

  lemma SamplesAt(books: seq<Book>, k: nat, levels: nat, window: nat)
    requires window >= 1 && k < |books|
    ensures SnapAt(books, k, levels, window).samples == k + 1
  {
    SamplesAreCounted(books[..k + 1], levels, window);
  }

  /** IMBALANCE_BID at update i and IMBALANCE_ASK at update j, both with threshold theta, force
      BOOK_PRESSURE_ASK with threshold phi somewhere in (i, j] if (j - i) * phi <= 2 * theta. */
  lemma SwingToAskTriggersPressure(books: seq<Book>, i: nat, j: nat, levels: nat, window: nat,
                                   bid: Condition, ask: Condition, pressure: Condition)
    requires window >= 1 && i < j < |books|
    requires bid.kind == ImbalanceBid && ask.kind == ImbalanceAsk && pressure.kind == BookPressureAsk
    requires bid.threshold == ask.threshold && (j - i) as real * pressure.threshold <= 2.0 * bid.threshold
    requires TriggersAt(bid, books, i, levels, window) && TriggersAt(ask, books, j, levels, window)
    ensures exists k :: i < k <= j && TriggersAt(pressure, books, k, levels, window)
  {
    SomeUpdateFalls(books, levels, window, i, j, pressure.threshold);
    var k :| i < k <= j && SnapAt(books, k, levels, window).imbalanceDelta < -pressure.threshold;
    SamplesAt(books, k, levels, window);
    assert TriggersAt(pressure, books, k, levels, window);
  }

  lemma SwingToBidTriggersPressure(books: seq<Book>, i: nat, j: nat, levels: nat, window: nat,
                                   ask: Condition, bid: Condition, pressure: Condition)
    requires window >= 1 && i < j < |books|
    requires ask.kind == ImbalanceAsk && bid.kind == ImbalanceBid && pressure.kind == BookPressureBid
    requires bid.threshold == ask.threshold && (j - i) as real * pressure.threshold <= 2.0 * bid.threshold
    requires TriggersAt(ask, books, i, levels, window) && TriggersAt(bid, books, j, levels, window)
    ensures exists k :: i < k <= j && TriggersAt(pressure, books, k, levels, window)
  {
    SomeUpdateRises(books, levels, window, i, j, pressure.threshold);
    var k :| i < k <= j && SnapAt(books, k, levels, window).imbalanceDelta > pressure.threshold;
    SamplesAt(books, k, levels, window);
    assert TriggersAt(pressure, books, k, levels, window);
  }

  const ConfiguredBid: Condition := Condition(ImbalanceBid, 0.7, 1_000_000)
  const ConfiguredAsk: Condition := Condition(ImbalanceAsk, 0.7, 1_000_000)
  const ConfiguredPressureBid: Condition := Condition(BookPressureBid, 0.15, 1_000_000)
  const ConfiguredPressureAsk: Condition := Condition(BookPressureAsk, 0.15, 1_000_000)

  /** With the thresholds main configures, no swing within nine updates goes unnoticed, in either
      direction. */
  lemma ConfiguredSwing(books: seq<Book>, i: nat, j: nat)
    requires i < j < |books| && j - i <= 9
    ensures TriggersAt(ConfiguredBid, books, i, 5, 20) && TriggersAt(ConfiguredAsk, books, j, 5, 20) ==>
      exists k :: i < k <= j && TriggersAt(ConfiguredPressureAsk, books, k, 5, 20)
    ensures TriggersAt(ConfiguredAsk, books, i, 5, 20) && TriggersAt(ConfiguredBid, books, j, 5, 20) ==>
      exists k :: i < k <= j && TriggersAt(ConfiguredPressureBid, books, k, 5, 20)
  {
    hide TriggersAt;
    if TriggersAt(ConfiguredBid, books, i, 5, 20) && TriggersAt(ConfiguredAsk, books, j, 5, 20) {
      SwingToAskTriggersPressure(books, i, j, 5, 20, ConfiguredBid, ConfiguredAsk, ConfiguredPressureAsk);
    }
    if TriggersAt(ConfiguredAsk, books, i, 5, 20) && TriggersAt(ConfiguredBid, books, j, 5, 20) {
      SwingToBidTriggersPressure(books, i, j, 5, 20, ConfiguredAsk, ConfiguredBid, ConfiguredPressureBid);
    }
  }
}
