/** Trade statistics over a sliding and over tumbling windows (src/engine/trade_aggregator.cpp). */
module TradeAggregators {
  import opened Words
  import opened Windows

  datatype Trade = Trade(symbol: seq<byte>, timeMs: u64, qty: real, buyerMaker: bool)

  datatype TradeEntry = TradeEntry(timeMs: u64, qty: real, isBuy: bool)

  datatype TradeSnapshot = TradeSnapshot(
    buyVolume: real, sellVolume: real, totalVolume: real, imbalance: real, volumeSma: real,
    count: nat, windows: nat)

  datatype TradeState = TradeState(
    trades: seq<TradeEntry>, completed: seq<real>, windowStart: u64, current: real, snap: TradeSnapshot)

  const EmptyTrades: TradeState := TradeState([], [], 0, 0.0, TradeSnapshot(0.0, 0.0, 0.0, 0.0, 0.0, 0, 0))

  function EntryOf(t: Trade): TradeEntry {
    TradeEntry(t.timeMs, t.qty, !t.buyerMaker)
  }

  function Cutoff(now: u64, window: nat): nat {
    if now > window then now - window else 0
  }

  /** `expire_old`: old trades leave from the front only. */
  function Expire(s: seq<TradeEntry>, cutoff: nat): seq<TradeEntry> {
    if s == [] || s[0].timeMs >= cutoff then s else Expire(s[1..], cutoff)
  }

  function SideVolume(s: seq<TradeEntry>, buy: bool): real {
    if s == [] then 0.0
    else SideVolume(s[..|s| - 1], buy) + (if s[|s| - 1].isBuy == buy then s[|s| - 1].qty else 0.0)
  }

  function Imbalance(buy: real, sell: real): real {
    if buy + sell > 0.0 then (buy - sell) / (buy + sell) else 0.0
  }

  function Recompute(trades: seq<TradeEntry>, completed: seq<real>, old_: TradeSnapshot): TradeSnapshot {
    var buy, sell := SideVolume(trades, true), SideVolume(trades, false);
    TradeSnapshot(buy, sell, buy + sell, Imbalance(buy, sell),
                  if completed == [] then old_.volumeSma else Mean(completed), |trades|, old_.windows)
  }

  /** Does the trade at `now` close the tumbling window that began at `start`; 64-bit addition. */
  predicate Closes(start: u64, now: u64, window: nat) {
    now >= (start + window) % U64_SPAN
  }

  function StartOf(st: TradeState, now: u64): u64 {
    if st.windowStart == 0 then now else st.windowStart
  }

  /** Start of the bucket of length `window` that contains `now`. */
  function BucketStart(now: u64, window: nat): (start: u64)
    requires window >= 1
    ensures start <= now
  {
    ModBounds(now, window);
    now - now % window
  }

  lemma ModBounds(x: nat, m: nat)
    requires m >= 1
    ensures 0 <= x % m <= x && x % m < m
  {
    assert x == m * (x / m) + x % m;
    if x / m >= 1 { assert m * (x / m) >= 0; }
  }

  /** First half of `update`: archive the open tumbling window if this trade is past its end. */
  function Roll(st: TradeState, now: u64, window: nat, n: nat): TradeState
    requires window >= 1
  {
    var start := StartOf(st, now);
    if Closes(start, now, window) then
      st.(completed := Push(st.completed, st.current, n), windowStart := BucketStart(now, window), current := 0.0,
          snap := st.snap.(windows := st.snap.windows + 1))
    else st.(windowStart := start)
  }

  /** Second half: expire, append, recompute. */
  function Add(st: TradeState, t: Trade, window: nat): TradeState {
    var trades := Expire(st.trades, Cutoff(t.timeMs, window)) + [EntryOf(t)];
    st.(trades := trades, current := st.current + t.qty, snap := Recompute(trades, st.completed, st.snap))
  }

  /** `TradeAggregator::update` with a window of `window` ms and an SMA over `n` closed windows. */
  function Step(st: TradeState, t: Trade, window: nat, n: nat): TradeState
    requires window >= 1
  {
    Add(Roll(st, t.timeMs, window, n), t, window)
  }

  function Run(ts: seq<Trade>, window: nat, n: nat): TradeState
    requires window >= 1
  {
    if ts == [] then EmptyTrades else Step(Run(ts[..|ts| - 1], window, n), ts[|ts| - 1], window, n)
  }

  /** `reset` as written: the open window's volume is left standing. */
  function ResetState(st: TradeState): TradeState {
    EmptyTrades.(current := st.current)
  }

  class TradeAggregator {
    const windowMs: nat
    const smaWindows: nat
    var trades: seq<TradeEntry>
    var completed: seq<real>
    var windowStart: u64
    var current: real
    var snapshot: TradeSnapshot

    function State(): TradeState
      reads this
    {
      TradeState(trades, completed, windowStart, current, snapshot)
    }

    constructor (windowMs: nat, smaWindows: nat)
      ensures State() == EmptyTrades && this.windowMs == windowMs && this.smaWindows == smaWindows
    {
      this.windowMs, this.smaWindows := windowMs, smaWindows;
      trades, completed, windowStart, current, snapshot := [], [], 0, 0.0, EmptyTrades.snap;
    }

    method Update(t: Trade)
      requires windowMs >= 1
      modifies this
      ensures State() == Step(old(State()), t, windowMs, smaWindows)
    {
      RollWindow(t.timeMs);
      AddTrade(t);
    }

    method RollWindow(now: u64)
      requires windowMs >= 1
      modifies this
      ensures State() == Roll(old(State()), now, windowMs, smaWindows)
    {
      if windowStart == 0 {
        windowStart := now;
      }
      if now >= (windowStart + windowMs) % U64_SPAN {
        completed := completed + [current];
        if |completed| > smaWindows {
          completed := completed[1..];
        }
        snapshot := snapshot.(windows := snapshot.windows + 1);
        current := 0.0;
        windowStart := BucketStart(now, windowMs);
      }
    }

    method AddTrade(t: Trade)
      modifies this
      ensures State() == Add(old(State()), t, windowMs)
    {
      ExpireOld(t.timeMs);
      trades := trades + [TradeEntry(t.timeMs, t.qty, !t.buyerMaker)];
      current := current + t.qty;
      RecomputeSnapshot();
    }

    method ExpireOld(now: u64)
      modifies `trades
      ensures trades == Expire(old(trades), Cutoff(now, windowMs))
      ensures IsExpired(old(trades), trades, now, windowMs)
    {
      ExpireIs(trades, now, windowMs);
      var cutoff := if now > windowMs then now - windowMs else 0;
      while trades != [] && trades[0].timeMs < cutoff
        invariant Expire(trades, cutoff) == Expire(old(trades), cutoff)
        decreases |trades|
      {
        trades := trades[1..];
      }
    }

    method RecomputeSnapshot()
      modifies `snapshot
      ensures snapshot == Recompute(trades, completed, old(snapshot))
      ensures IsTradeSnapshot(snapshot, SideVolume(trades, true), SideVolume(trades, false), |trades|)
    {
      RecomputedSnapshot(trades, completed, snapshot);
      var buy, sell, count := 0.0, 0.0, 0;
      while count < |trades|
        invariant 0 <= count <= |trades|
        invariant buy == SideVolume(trades[..count], true) && sell == SideVolume(trades[..count], false)
      {
        assert trades[..count + 1][..count] == trades[..count];
        if trades[count].isBuy {
          buy := buy + trades[count].qty;
        } else {
          sell := sell + trades[count].qty;
        }
        count := count + 1;
      }
      assert trades[..count] == trades;
      var total := buy + sell;
      snapshot := snapshot.(buyVolume := buy, sellVolume := sell, totalVolume := total, count := count,
                            imbalance := if total > 0.0 then (buy - sell) / total else 0.0);
      if completed != [] {
        var sum := Accumulate(completed);
        snapshot := snapshot.(volumeSma := sum / |completed| as real);
      }
    }

    method Reset()
      modifies this
      ensures State() == ResetState(old(State()))
    {
      trades, completed, windowStart, snapshot := [], [], 0, EmptyTrades.snap;
    }
  }

  /** `reset` restores the initial state exactly when the open window carried no volume. */
  lemma ResetRestoresIff(st: TradeState)
    ensures ResetState(st) == EmptyTrades <==> st.current == 0.0
  {
  }

  /** Whatever came before a reset: the first window after it also holds the volume the open window
      had then, so the two disagree unless that volume was zero. */
  lemma ResetLeaks(st: TradeState, t: Trade, window: nat, n: nat)
    requires window >= 1 && t.timeMs + window < U64_SPAN
    ensures Step(ResetState(st), t, window, n).current == st.current + t.qty
    ensures Step(EmptyTrades, t, window, n).current == t.qty
    ensures Step(ResetState(st), t, window, n) == Step(EmptyTrades, t, window, n) <==> st.current == 0.0
  {
    assert !Closes(t.timeMs, t.timeMs, window);
  }

  // ---------------------------------------------------------------- the sliding window

  ghost predicate Chronological(ts: seq<Trade>) {
    forall i, j {:trigger ts[i], ts[j]} :: 0 <= i < j < |ts| ==> ts[i].timeMs <= ts[j].timeMs
  }

  /** The trades of a history not older than `cutoff`. */
  function Since(ts: seq<Trade>, cutoff: nat): seq<TradeEntry> {
    if ts == [] then []
    else
      var t := ts[|ts| - 1];
      Since(ts[..|ts| - 1], cutoff) + (if t.timeMs >= cutoff then [EntryOf(t)] else [])
  }

  /** The trades at most `window` ms older than `now`, by their event times. */
  function Recent(ts: seq<Trade>, now: nat, window: nat): seq<TradeEntry> {
    if ts == [] then []
    else
      var t := ts[|ts| - 1];
      Recent(ts[..|ts| - 1], now, window)
      + (if t.timeMs + window >= now then [TradeEntry(t.timeMs, t.qty, !t.buyerMaker)] else [])
  }

  /** Their volume on one side, from scratch; a trade is a buy if the buyer is not the maker. */
  function RecentVolume(ts: seq<Trade>, now: nat, window: nat, buy: bool): real {
    if ts == [] then 0.0
    else
      var t := ts[|ts| - 1];
      RecentVolume(ts[..|ts| - 1], now, window, buy)
      + (if t.timeMs + window >= now && t.buyerMaker != buy then t.qty else 0.0)
  }

  lemma {:induction false} SinceIsRecent(ts: seq<Trade>, now: u64, window: nat)
    ensures Since(ts, Cutoff(now, window)) == Recent(ts, now, window)
  {
    if ts != [] { SinceIsRecent(ts[..|ts| - 1], now, window); }
  }

  lemma {:induction false} ExpireAppend(s: seq<TradeEntry>, e: TradeEntry, cutoff: nat)
    requires forall i {:trigger s[i]} :: 0 <= i < |s| ==> s[i].timeMs <= e.timeMs
    ensures Expire(s + [e], cutoff) == Expire(s, cutoff) + (if e.timeMs >= cutoff then [e] else [])
    decreases |s|
  {
    if s == [] {
      assert s + [e] == [e];
      assert [e][1..] == [];
    } else {
      assert (s + [e])[1..] == s[1..] + [e];
      ExpireAppend(s[1..], e, cutoff);
    }
  }

  lemma {:induction false} SinceIsBounded(ts: seq<Trade>, cutoff: nat, latest: nat)
    requires forall i {:trigger ts[i]} :: 0 <= i < |ts| ==> ts[i].timeMs <= latest
    ensures forall i {:trigger Since(ts, cutoff)[i]} :: 0 <= i < |Since(ts, cutoff)| ==> Since(ts, cutoff)[i].timeMs <= latest
  {
    if ts != [] { SinceIsBounded(ts[..|ts| - 1], cutoff, latest); }
  }

  /** On a chronological history, expiring from the front is filtering. */
  lemma {:induction false} ExpireIsFilter(ts: seq<Trade>, c: nat, c': nat)
    requires Chronological(ts) && c <= c'
    ensures Expire(Since(ts, c), c') == Since(ts, c')
    decreases |ts|
  {
    if ts != [] {
      var init, t := ts[..|ts| - 1], ts[|ts| - 1];
      ExpireIsFilter(init, c, c');
      SinceIsBounded(init, c, t.timeMs);
      if t.timeMs >= c {
        ExpireAppend(Since(init, c), EntryOf(t), c');
      } else {
        assert Since(ts, c) == Since(init, c) && Since(ts, c') == Since(init, c');
      }
    }
  }

  lemma SideVolumeSnoc(s: seq<TradeEntry>, e: TradeEntry, buy: bool)
    ensures SideVolume(s + [e], buy) == SideVolume(s, buy) + (if e.isBuy == buy then e.qty else 0.0)
  {
    assert (s + [e])[..|s|] == s;
  }

  lemma {:induction false} VolumeOfRecent(ts: seq<Trade>, now: nat, window: nat, buy: bool)
    ensures SideVolume(Recent(ts, now, window), buy) == RecentVolume(ts, now, window, buy)
  {
    if ts != [] {
      var init, t := ts[..|ts| - 1], ts[|ts| - 1];
      VolumeOfRecent(init, now, window, buy);
      if t.timeMs + window >= now {
        SideVolumeSnoc(Recent(init, now, window), TradeEntry(t.timeMs, t.qty, !t.buyerMaker), buy);
      } else {
        assert Recent(ts, now, window) == Recent(init, now, window);
      }
    }
  }

  lemma {:induction false} ChronologicalInit(ts: seq<Trade>)
    requires ts != [] && Chronological(ts)
    ensures Chronological(ts[..|ts| - 1])
    ensures forall i {:trigger ts[..|ts| - 1][i]} :: 0 <= i < |ts| - 1 ==> ts[..|ts| - 1][i].timeMs <= ts[|ts| - 1].timeMs
  {
    var init := ts[..|ts| - 1];
    assert forall i {:trigger init[i]} :: 0 <= i < |init| ==> init[i] == ts[i];
  }

  lemma {:induction false} CutoffGrows(ts: seq<Trade>, window: nat, n: nat)
    requires window >= 1 && ts != [] && Chronological(ts)
    ensures Run(ts, window, n).trades == Since(ts, Cutoff(ts[|ts| - 1].timeMs, window))
    decreases |ts|
  {
    var init, t := ts[..|ts| - 1], ts[|ts| - 1];
    ChronologicalInit(ts);
    if init != [] {
      CutoffGrows(init, window, n);
      var s := init[|init| - 1];
      assert s.timeMs <= t.timeMs;
      ExpireIsFilter(init, Cutoff(s.timeMs, window), Cutoff(t.timeMs, window));
    }
  }

  /** The figures a snapshot shows for these trades. */
  ghost predicate IsTradeSnapshot(x: TradeSnapshot, buy: real, sell: real, count: nat) {
    && x.buyVolume == buy && x.sellVolume == sell && x.totalVolume == buy + sell && x.count == count
    && IsRatio(x.imbalance, buy - sell, buy + sell)
  }

  lemma RecomputedSnapshot(trades: seq<TradeEntry>, completed: seq<real>, old_: TradeSnapshot)
    ensures IsTradeSnapshot(Recompute(trades, completed, old_), SideVolume(trades, true), SideVolume(trades, false), |trades|)
  {
  }

  /** Sliding window: on a chronological history the incrementally evicted deque holds exactly the
      trades at most `window` ms older than the newest, in order, and the published volumes, total,
      count and imbalance are those computed from these trades from scratch. */
  lemma {:induction false} SlidingWindowIsFilter(ts: seq<Trade>, window: nat, n: nat)
    requires window >= 1 && ts != [] && Chronological(ts)
    ensures var st, now := Run(ts, window, n), ts[|ts| - 1].timeMs;
      && st.trades == Recent(ts, now, window)
      && IsTradeSnapshot(st.snap, RecentVolume(ts, now, window, true), RecentVolume(ts, now, window, false), |st.trades|)
  {
    var now := ts[|ts| - 1].timeMs;
    CutoffGrows(ts, window, n);
    SinceIsRecent(ts, now, window);
    VolumeOfRecent(ts, now, window, true);
    VolumeOfRecent(ts, now, window, false);
    LastIsRecomputed(ts, window, n);
  }

  lemma {:induction false} LastIsRecomputed(ts: seq<Trade>, window: nat, n: nat)
    requires window >= 1 && ts != []
    ensures var st := Run(ts, window, n);
      IsTradeSnapshot(st.snap, SideVolume(st.trades, true), SideVolume(st.trades, false), |st.trades|)
  {
    hide Roll, Recompute, Expire, IsTradeSnapshot;
    var t := ts[|ts| - 1];
    var st := Roll(Run(ts[..|ts| - 1], window, n), t.timeMs, window, n);
    RecomputedSnapshot(Expire(st.trades, Cutoff(t.timeMs, window)) + [EntryOf(t)], st.completed, st.snap);
  }

  // ---------------------------------------------------------------- the deque of any history

  /** The deque holds the trades of the history from the f-th on. */
  ghost predicate HoldsFrom(trades: seq<TradeEntry>, ts: seq<Trade>, f: int) {
    && 0 <= f && f + |trades| == |ts|
    && forall i {:trigger ts[i]} :: f <= i < |ts| ==> trades[i - f] == TradeEntry(ts[i].timeMs, ts[i].qty, !ts[i].buyerMaker)
  }

  /** How many trades of a history have left the deque. */
  function Evicted(ts: seq<Trade>, window: nat, n: nat): int
    requires window >= 1
  {
    |ts| - |Run(ts, window, n).trades|
  }

  /** What `expire_old` removes: the front as long as it is more than `window` ms older than `now`. */
  ghost predicate IsExpired(s: seq<TradeEntry>, r: seq<TradeEntry>, now: nat, window: nat) {
    && |r| <= |s| && r == s[|s| - |r|..]
    && (forall i {:trigger s[i]} :: 0 <= i < |s| - |r| ==> s[i].timeMs + window < now)
    && (r != [] ==> r[0].timeMs + window >= now)
  }

  lemma {:induction false} ExpireIs(s: seq<TradeEntry>, now: u64, window: nat)
    ensures IsExpired(s, Expire(s, Cutoff(now, window)), now, window)
    decreases |s|
  {
    if s != [] && s[0].timeMs < Cutoff(now, window) {
      ExpireIs(s[1..], now, window);
      var k := |s| - |Expire(s, Cutoff(now, window))|;
      forall i | 0 <= i < k ensures s[i].timeMs + window < now {
        if i > 0 { assert s[i] == s[1..][i - 1]; }
      }
    }
  }

  /** For any event times: the deque is what remains of the history behind its front; a trade evicts
      from the front exactly the trades more than `window` ms older than itself, up to the first that
      is not, and never itself. */
  lemma {:induction false} DequeIsSuffix(ts: seq<Trade>, window: nat, n: nat)
    requires window >= 1
    ensures HoldsFrom(Run(ts, window, n).trades, ts, Evicted(ts, window, n))
    ensures ts != [] ==>
      var f0, f, now := Evicted(ts[..|ts| - 1], window, n), Evicted(ts, window, n), ts[|ts| - 1].timeMs;
      && 0 <= f0 <= f < |ts| && ts[f].timeMs + window >= now
      && forall i {:trigger ts[i]} :: f0 <= i < f ==> ts[i].timeMs + window < now
    decreases |ts|
  {
    hide Step, Expire, HoldsFrom, IsExpired;
    if ts == [] {
      NothingHeld();
    } else {
      var init, t := ts[..|ts| - 1], ts[|ts| - 1];
      DequeIsSuffix(init, window, n);
      StepTrades(Run(init, window, n), t, window, n);
      ExpireIs(Run(init, window, n).trades, t.timeMs, window);
      SuffixStep(ts, Run(init, window, n).trades, Expire(Run(init, window, n).trades, Cutoff(t.timeMs, window)), window);
    }
  }

  lemma NothingHeld()
    ensures HoldsFrom([], [], 0)
  {
  }

  lemma StepTrades(st: TradeState, t: Trade, window: nat, n: nat)
    requires window >= 1
    ensures Step(st, t, window, n).trades == Expire(st.trades, Cutoff(t.timeMs, window)) + [TradeEntry(t.timeMs, t.qty, !t.buyerMaker)]
  {
  }

  lemma SuffixStep(ts: seq<Trade>, s: seq<TradeEntry>, r: seq<TradeEntry>, window: nat)
    requires ts != [] && HoldsFrom(s, ts[..|ts| - 1], |ts| - 1 - |s|) && IsExpired(s, r, ts[|ts| - 1].timeMs, window)
    ensures var t, f0, f := ts[|ts| - 1], |ts| - 1 - |s|, |ts| - 1 - |r|;
      && HoldsFrom(r + [TradeEntry(t.timeMs, t.qty, !t.buyerMaker)], ts, f)
      && 0 <= f0 <= f < |ts| && ts[f].timeMs + window >= t.timeMs
      && forall i {:trigger ts[i]} :: f0 <= i < f ==> ts[i].timeMs + window < t.timeMs
  {
    var f0, f, init := |ts| - 1 - |s|, |ts| - 1 - |r|, ts[..|ts| - 1];
    assert forall i {:trigger ts[i]} :: f0 <= i < |init| ==> ts[i] == init[i] && s[i - f0].timeMs == ts[i].timeMs;
    if r != [] { assert r[0] == s[f - f0]; }
  }

  lemma {:induction false} VolumeNonNegative(s: seq<TradeEntry>, buy: bool)
    requires forall i {:trigger s[i]} :: 0 <= i < |s| ==> s[i].qty >= 0.0
    ensures SideVolume(s, buy) >= 0.0
  {
    if s != [] { VolumeNonNegative(s[..|s| - 1], buy); }
  }

  lemma {:induction false} TradeImbalanceIsNormalised(s: seq<TradeEntry>, completed: seq<real>, old_: TradeSnapshot)
    requires forall i {:trigger s[i]} :: 0 <= i < |s| ==> s[i].qty >= 0.0
    ensures -1.0 <= Recompute(s, completed, old_).imbalance <= 1.0
  {
    VolumeNonNegative(s, true);
    VolumeNonNegative(s, false);
    var buy, sell := SideVolume(s, true), SideVolume(s, false);
    if buy + sell > 0.0 { Quotient(buy - sell, buy + sell, -1.0, 1.0); }
  }
}
