/** The cooldown laws carried over to the engine. */
module FiringLog {
  import opened Words
  import opened Signals
  import opened CooldownLaws
  import opened Engine
  import opened Sharding
  import Aggregators

  /** Every trigger of a run, in order. */
  ghost function RunAttempts(cs: seq<Condition>, evs: seq<Event>): seq<Attempt>
    requires Clocked(cs, evs)
  {
    if evs == [] then []
    else
      var init, ev := evs[..|evs| - 1], evs[|evs| - 1];
      RunAttempts(cs, init) +
      match ev.message
      case TradeMessage(_) => []
      case Depth(u) => DepthAttempts(cs, AfterDepth(StateOf(Run(cs, init), u.symbol), u), u.symbol, ev.clock)
  }

  lemma {:induction false} TryAllConcat(c: Cooldowns, a: seq<Attempt>, b: seq<Attempt>)
    ensures TryAll(c, a + b) == TryAll(TryAll(c, a), b)
    decreases |b|
  {
    if b == [] {
      assert a + b == a;
    } else {
      TryAllConcat(c, a, b[..|b| - 1]);
      assert (a + b)[..|a + b| - 1] == a + b[..|b| - 1];
    }
  }

  /** The cooldowns and the log of a run are those of its triggers. */
  lemma {:induction false} CooldownsFollowAttempts(cs: seq<Condition>, evs: seq<Event>)
    requires Clocked(cs, evs)
    ensures Run(cs, evs).cool == TryAll(NoCooldowns, RunAttempts(cs, evs))
    decreases |evs|
  {
    if evs != [] {
      var init, ev := evs[..|evs| - 1], evs[|evs| - 1];
      CooldownsFollowAttempts(cs, init);
      if ev.message.Depth? {
        var u := ev.message.update;
        TryAllConcat(NoCooldowns, RunAttempts(cs, init),
                     DepthAttempts(cs, AfterDepth(StateOf(Run(cs, init), u.symbol), u), u.symbol, ev.clock));
      } else {
        assert RunAttempts(cs, evs) == RunAttempts(cs, init);
      }
    }
  }

  predicate Ordered(clock: seq<u64>) {
    forall a, b {:trigger clock[a], clock[b]} :: 0 <= a < b < |clock| ==> clock[a] <= clock[b]
  }

  /** The last clock reading of a run. */
  function Latest(evs: seq<Event>): nat {
    if evs == [] then 0
    else
      var clock := evs[|evs| - 1].clock;
      if clock == [] then Latest(evs[..|evs| - 1]) else clock[|clock| - 1]
  }

  /** The readings of a run, in the order they are taken, never decrease. */
  ghost predicate ClockNeverBack(evs: seq<Event>) {
    evs == [] ||
    var init, clock := evs[..|evs| - 1], evs[|evs| - 1].clock;
    ClockNeverBack(init) && Ordered(clock) && forall b {:trigger clock[b]} :: 0 <= b < |clock| ==> Latest(init) <= clock[b]
  }

  ghost predicate TimesWithin(xs: seq<Attempt>, lo: nat, hi: nat) {
    forall i {:trigger xs[i]} :: 0 <= i < |xs| ==> lo <= xs[i].Time() <= hi
  }

  ghost predicate CooledAtLeast(xs: seq<Attempt>, c: nat) {
    forall i {:trigger xs[i]} :: 0 <= i < |xs| ==> xs[i].cooldownUs >= c
  }

  ghost predicate ConditionsCool(cs: seq<Condition>, c: nat) {
    forall k {:trigger cs[k]} :: 0 <= k < |cs| ==> cs[k].cooldownUs >= c
  }

  lemma {:induction false} AttemptsFollowClock(cs: seq<Condition>, n: nat, s: Symbol, st: SymState, clock: seq<u64>, lo: nat, c: nat)
    requires n <= |cs| == |clock| && Ordered(clock) && ConditionsCool(cs, c)
    requires forall b {:trigger clock[b]} :: 0 <= b < |clock| ==> lo <= clock[b]
    ensures var xs := AttemptsUpTo(cs, n, s, st.agg.snap, InfoOf(st.trades), clock);
      ClockForward(xs) && CooledAtLeast(xs, c) && TimesWithin(xs, lo, if n == 0 then lo else clock[n - 1])
    decreases n
  {
    if n > 0 {
      AttemptsFollowClock(cs, n - 1, s, st, clock, lo, c);
      assert n > 1 ==> clock[n - 2] <= clock[n - 1];
    }
  }

  lemma {:induction false} ForwardConcat(a: seq<Attempt>, b: seq<Attempt>, mid: nat, hi: nat, c: nat)
    requires ClockForward(a) && TimesWithin(a, 0, mid) && CooledAtLeast(a, c)
    requires ClockForward(b) && TimesWithin(b, mid, hi) && CooledAtLeast(b, c) && mid <= hi
    ensures ClockForward(a + b) && TimesWithin(a + b, 0, hi) && CooledAtLeast(a + b, c)
  {
  }

  lemma NoAttempts()
    ensures ClockForward([]) && forall c: nat :: CooledAtLeast([], c)
  {
  }

  /** Over a run whose clock never steps back the triggers are in time order. */
  lemma {:induction false} RunClockForward(cs: seq<Condition>, evs: seq<Event>, c: nat)
    requires Clocked(cs, evs) && ClockNeverBack(evs) && ConditionsCool(cs, c)
    ensures ClockForward(RunAttempts(cs, evs)) && CooledAtLeast(RunAttempts(cs, evs), c)
    ensures TimesWithin(RunAttempts(cs, evs), 0, Latest(evs))
    decreases |evs|
  {
    hide Run, AfterDepth, Judge, ClockForward, CooledAtLeast;
    NoAttempts();
    if evs != [] {
      var init, ev := evs[..|evs| - 1], evs[|evs| - 1];
      ClockedInit(cs, evs);
      RunClockForward(cs, init, c);
      var old_, clock := RunAttempts(cs, init), ev.clock;
      assert clock != [] ==> Latest(init) <= clock[|clock| - 1];
      if ev.message.Depth? {
        var u := ev.message.update;
        var st := AfterDepth(StateOf(Run(cs, init), u.symbol), u);
        var new_ := DepthAttempts(cs, st, u.symbol, clock);
        AttemptsFollowClock(cs, |cs|, u.symbol, st, clock, Latest(init), c);
        assert RunAttempts(cs, evs) == old_ + new_;
        ForwardConcat(old_, new_, Latest(init), Latest(evs), c);
      } else {
        assert RunAttempts(cs, evs) == old_;
      }
    }
  }

  // ---------------------------------------------------------------- the log only grows

  lemma ProcessOnlyAppends(cs: seq<Condition>, e: State, ev: Event)
    requires |ev.clock| == |cs|
    ensures e.cool.log <= Process(cs, e, ev).cool.log
  {
    if ev.message.Depth? {
      var u := ev.message.update;
      TryAllOnlyAppends(e.cool, DepthAttempts(cs, AfterDepth(StateOf(e, u.symbol), u), u.symbol, ev.clock));
    }
  }

  /** The firing log of a run. */
  ghost function LogAfter(cs: seq<Condition>, evs: seq<Event>): seq<Signal> {
    if Clocked(cs, evs) then Run(cs, evs).cool.log else []
  }

  lemma {:induction false} LogStep(cs: seq<Condition>, evs: seq<Event>)
    requires Clocked(cs, evs) && evs != []
    ensures Clocked(cs, evs[..|evs| - 1]) && LogAfter(cs, evs[..|evs| - 1]) <= LogAfter(cs, evs)
  {
    ClockedInit(cs, evs);
    ProcessOnlyAppends(cs, Run(cs, evs[..|evs| - 1]), evs[|evs| - 1]);
  }

  lemma PrefixOfPrefix(a: seq<Signal>, b: seq<Signal>, c: seq<Signal>)
    requires a <= b <= c
    ensures a <= c
  {
  }

  lemma {:induction false} LogGrows(cs: seq<Condition>, evs: seq<Event>, a: nat)
    requires Clocked(cs, evs) && a <= |evs|
    ensures LogAfter(cs, evs[..a]) <= LogAfter(cs, evs)
    decreases |evs|
  {
    var n := |evs|;
    if a == n {
      assert evs[..a] == evs;
    } else {
      LogStep(cs, evs);
      LogGrows(cs, evs[..n - 1], a);
      assert evs[..n - 1][..a] == evs[..a];
      PrefixOfPrefix(LogAfter(cs, evs[..a]), LogAfter(cs, evs[..n - 1]), LogAfter(cs, evs));
    }
  }

  lemma {:induction false} TryAllOnlyAppends(c: Cooldowns, xs: seq<Attempt>)
    ensures c.log <= TryAll(c, xs).log
    decreases |xs|
  {
    if xs != [] { TryAllOnlyAppends(c, xs[..|xs| - 1]); }
  }

  // ---------------------------------------------------------------- the log and its triggers

  /** The positions of the triggers that fired, in order. */
  ghost function FiredAt(run: seq<Attempt>): (idx: seq<nat>)
    ensures forall k {:trigger idx[k]} :: 0 <= k < |idx| ==> idx[k] < |run|
  {
    if run == [] then []
    else FiredAt(run[..|run| - 1]) + (if Fired(run, |run| - 1) then [|run| - 1] else [])
  }

  /** The log is the sequence of the triggers that fired. */
  lemma {:induction false} LogIsFired(run: seq<Attempt>)
    ensures var idx, log := FiredAt(run), TryAll(NoCooldowns, run).log;
      && |idx| == |log|
      && (forall k {:trigger idx[k]} :: 0 <= k < |idx| ==> Fired(run, idx[k]) && log[k] == run[idx[k]].signal)
      && (forall j, k {:trigger idx[j], idx[k]} :: 0 <= j < k < |idx| ==> idx[j] < idx[k])
    decreases |run|
  {
    if run != [] {
      var n := |run| - 1;
      var init := run[..n];
      LogIsFired(init);
      FiredIsFires(run, n);
      FlagsOfPrefix(run, n);
      forall k | 0 <= k < |FiredAt(init)| ensures Fired(run, FiredAt(init)[k]) {
        assert Flags(init)[FiredAt(init)[k]] == Flags(run)[..n][FiredAt(init)[k]];
      }
    }
  }

  /** What the dashboard takes for the identity of a signal. */
  datatype SignalKey = SignalKey(timeUs: u64, kind: Kind, symbol: Symbol)

  function KeyOf(s: Signal): SignalKey { SignalKey(s.timeUs, s.kind, s.symbol) }

  ghost predicate DistinctKeys(log: seq<Signal>) {
    forall i, j {:trigger log[i], log[j]} :: 0 <= i < j < |log| ==> KeyOf(log[i]) != KeyOf(log[j])
  }

  // ---------------------------------------------------------------- repeated keys

  /** Trigger j has no cooldown and the type, symbol and time of the earlier firing i. */
  ghost predicate Repeats(run: seq<Attempt>, i: int, j: int) {
    && 0 <= i < j < |run| && run[i].Key() == run[j].Key() && run[i].Time() == run[j].Time()
    && Fired(run, i) && run[j].cooldownUs == 0
  }

  /** A trigger at the very time of an earlier firing of its key fires exactly if it has no cooldown. */
  lemma SameTimeFiresIff(run: seq<Attempt>, i: nat, j: nat)
    requires ClockForward(run) && i < j < |run| && Fired(run, i)
    requires run[i].Key() == run[j].Key() && run[i].Time() == run[j].Time()
    ensures Fired(run, j) <==> run[j].cooldownUs == 0
  {
    FiresIffSpaced(run, j);
  }

  /** Every firing has its place in the log. */
  lemma {:induction false} FiredIsLogged(run: seq<Attempt>, i: nat) returns (k: nat)
    requires i < |run| && Fired(run, i)
    ensures k < |FiredAt(run)| && FiredAt(run)[k] == i
    decreases |run|
  {
    var n := |run| - 1;
    if i == n {
      k := |FiredAt(run)| - 1;
    } else {
      FlagsOfPrefix(run, n);
      assert Flags(run[..n])[i] == Flags(run)[..n][i];
      k := FiredIsLogged(run[..n], i);
    }
  }

  /** Two firings of one key at one time are two equal keys in the log. */
  lemma {:induction false} TwoFiringsOneKey(run: seq<Attempt>, i: nat, j: nat)
    requires i < j < |run| && Fired(run, i) && Fired(run, j)
    requires run[i].Key() == run[j].Key() && run[i].Time() == run[j].Time()
    ensures !DistinctKeys(TryAll(NoCooldowns, run).log)
  {
    LogIsFired(run);
    var a := FiredIsLogged(run, i);
    var b := FiredIsLogged(run, j);
    var idx, log := FiredAt(run), TryAll(NoCooldowns, run).log;
    assert log[a] == run[idx[a]].signal && log[b] == run[idx[b]].signal;
    assert KeyOf(log[a]) == KeyOf(log[b]) && a < b;
  }

  /** With a clock that never steps back a key is logged twice if and only if a trigger without
      cooldown repeats a firing. */
  lemma {:induction false} LogRepeatsIff(run: seq<Attempt>)
    requires ClockForward(run)
    ensures DistinctKeys(TryAll(NoCooldowns, run).log) <==> !exists i, j :: Repeats(run, i, j)
  {
    var idx, log := FiredAt(run), TryAll(NoCooldowns, run).log;
    LogIsFired(run);
    forall a, b | 0 <= a < b < |log| && KeyOf(log[a]) == KeyOf(log[b]) ensures Repeats(run, idx[a], idx[b]) {
      assert idx[a] < idx[b];
      SameTimeFiresIff(run, idx[a], idx[b]);
    }
    forall i, j | Repeats(run, i, j) ensures !DistinctKeys(log) {
      SameTimeFiresIff(run, i, j);
      TwoFiringsOneKey(run, i, j);
    }
  }

  /** Main theorem. Over a run of messages whose clock never steps back, the firings have distinct
      keys if and only if no trigger without cooldown repeats the key and time of a firing. */
  lemma FiringKeysDistinctIff(cs: seq<Condition>, evs: seq<Event>)
    requires Clocked(cs, evs) && ClockNeverBack(evs)
    ensures DistinctKeys(Run(cs, evs).cool.log) <==> !exists i, j :: Repeats(RunAttempts(cs, evs), i, j)
  {
    CooldownsFollowAttempts(cs, evs);
    RunClockForward(cs, evs, 0);
    LogRepeatsIff(RunAttempts(cs, evs));
  }

  // ---------------------------------------------------------------- whatever the clock

  /** Trigger j has the type, symbol and time of the earlier firing i, and the unsigned time since l,
      the last firing of the key before j, has reached j's cooldown. */
  ghost predicate RepeatsAfter(run: seq<Attempt>, i: int, l: int, j: int) {
    && 0 <= i <= l < j < |run| && run[i].Key() == run[j].Key() && run[i].Time() == run[j].Time()
    && Fired(run, i) && LastFiring(run[..j], run[j].Key(), l)
    && Elapsed(run[j].Time(), run[l].Time()) >= run[j].cooldownUs
  }

  lemma {:induction false} PastFirings(run: seq<Attempt>, j: nat)
    requires j <= |run|
    ensures forall k {:trigger run[k]} {:trigger run[..j][k]} :: 0 <= k < j ==>
      run[..j][k] == run[k] && (Fired(run[..j], k) <==> Fired(run, k))
  {
    FlagsOfPrefix(run, j);
    forall k | 0 <= k < j ensures run[..j][k] == run[k] && (Fired(run[..j], k) <==> Fired(run, k)) {
      assert Flags(run[..j])[k] == Flags(run)[..j][k];
    }
  }

  lemma {:induction false} FindLast(run: seq<Attempt>, i: nat, j: nat) returns (l: nat)
    requires i < j <= |run| && Fired(run, i)
    ensures i <= l < j && LastFiring(run[..j], run[i].Key(), l)
    decreases j - i
  {
    PastFirings(run, j);
    if k :| i < k < j && run[k].Key() == run[i].Key() && Fired(run, k) {
      l := FindLast(run, k, j);
    } else {
      l := i;
    }
  }

  /** Whatever the clock, a trigger fires again if and only if the unsigned time since the last firing
      of its key has reached its cooldown. */
  lemma {:induction false} FiresAgainIff(run: seq<Attempt>, l: nat, j: nat)
    requires j < |run| && LastFiring(run[..j], run[j].Key(), l)
    ensures Fired(run, j) <==> Elapsed(run[j].Time(), run[l].Time()) >= run[j].cooldownUs
  {
    var past, key := run[..j], run[j].Key();
    PastFirings(run, j);
    FiredIsFires(run, j);
    var last := MapIsLastFiring(past, key);
    assert past[l].Key() == key && Fired(past, l);
  }

  /** Main theorem. Whatever the clock, the firings of a run of messages have distinct keys if and
      only if no trigger that may fire again repeats the key and time of a firing. */
  lemma {:induction false} FiringKeysDistinctIffAnyClock(cs: seq<Condition>, evs: seq<Event>)
    requires Clocked(cs, evs)
    ensures DistinctKeys(Run(cs, evs).cool.log) <==> !exists i, l, j :: RepeatsAfter(RunAttempts(cs, evs), i, l, j)
  {
    hide Run, RunAttempts, DistinctKeys, LastFiring;
    CooldownsFollowAttempts(cs, evs);
    var run := RunAttempts(cs, evs);
    if !DistinctKeys(TryAll(NoCooldowns, run).log) {
      var i, j := RepeatedInLog(run);
      var l := FindLast(run, i, j);
      FiresAgainIff(run, l, j);
      assert RepeatsAfter(run, i, l, j);
    }
    forall i, l, j | RepeatsAfter(run, i, l, j) ensures !DistinctKeys(TryAll(NoCooldowns, run).log) {
      FiresAgainIff(run, l, j);
      TwoFiringsOneKey(run, i, j);
    }
  }

  lemma {:induction false} RepeatedInLog(run: seq<Attempt>) returns (i: nat, j: nat)
    requires !DistinctKeys(TryAll(NoCooldowns, run).log)
    ensures i < j < |run| && Fired(run, i) && Fired(run, j)
    ensures run[i].Key() == run[j].Key() && run[i].Time() == run[j].Time()
  {
    var idx, log := FiredAt(run), TryAll(NoCooldowns, run).log;
    LogIsFired(run);
    var a, b :| 0 <= a < b < |log| && KeyOf(log[a]) == KeyOf(log[b]);
    i, j := idx[a], idx[b];
  }

  /** With non-zero cooldowns and a clock that never steps back no two firings of a run share
      type, symbol and time. */
  lemma FiringsHaveDistinctKeys(cs: seq<Condition>, evs: seq<Event>)
    requires Clocked(cs, evs) && ClockNeverBack(evs)
    requires ConditionsCool(cs, 1)
    ensures DistinctKeys(Run(cs, evs).cool.log)
  {
    RunClockForward(cs, evs, 1);
    FiringKeysDistinctIff(cs, evs);
  }

  /** Condition k triggers on event p of the run. */
  ghost predicate TriggersOn(cs: seq<Condition>, evs: seq<Event>, p: nat, k: nat)
    requires Clocked(cs, evs) && p < |evs| && k < |cs|
  {
    && Clocked(cs, evs[..p]) && evs[p].message.Depth?
    && var u := evs[p].message.update;
    var st := AfterDepth(StateOf(Run(cs, evs[..p]), u.symbol), u);
    Judge(cs[k], st.agg.snap, InfoOf(st.trades)).triggered
  }

  lemma {:induction false} AttemptOf(cs: seq<Condition>, n: nat, k: nat, s: Symbol, agg: Aggregators.Snapshot, trades: TradeInfo, clock: seq<u64>)
      returns (m: nat)
    requires k < n <= |cs| == |clock| && Judge(cs[k], agg, trades).triggered
    ensures var xs := AttemptsUpTo(cs, n, s, agg, trades, clock);
      m < |xs| && KeyOf(xs[m].signal) == SignalKey(clock[k], cs[k].kind, s) && xs[m].cooldownUs == cs[k].cooldownUs
    decreases n
  {
    if k == n - 1 {
      m := |AttemptsUpTo(cs, n - 1, s, agg, trades, clock)|;
    } else {
      m := AttemptOf(cs, n - 1, k, s, agg, trades, clock);
    }
  }

  /** A trigger without cooldown fires whatever the clock says. */
  lemma {:induction false} ZeroFires(c: Cooldowns, xs: seq<Attempt>, m: nat) returns (x: nat)
    requires m < |xs| && xs[m].cooldownUs == 0
    ensures |c.log| <= x < |TryAll(c, xs).log| && TryAll(c, xs).log[x] == xs[m].signal
    decreases |xs|
  {
    var n := |xs| - 1;
    TryAllOnlyAppends(c, xs[..n]);
    if m == n {
      x := |TryAll(c, xs[..n]).log|;
    } else {
      x := ZeroFires(c, xs[..n], m);
    }
  }

  /** What one depth message does to the cooldowns. */
  lemma DepthStep(cs: seq<Condition>, e: State, ev: Event)
    requires |ev.clock| == |cs| && ev.message.Depth?
    ensures var u := ev.message.update;
      var st := AfterDepth(StateOf(e, u.symbol), u);
      && DepthAttempts(cs, st, u.symbol, ev.clock) == AttemptsUpTo(cs, |cs|, u.symbol, st.agg.snap, InfoOf(st.trades), ev.clock)
      && Process(cs, e, ev).cool == TryAll(e.cool, DepthAttempts(cs, st, u.symbol, ev.clock))
  {
    hide Judge, AttemptsUpTo, TryAll;
  }

  /** The place of that firing in the log of the run so far. */
  lemma {:induction false} ZeroIsLogged(cs: seq<Condition>, evs: seq<Event>, p: nat, k: nat) returns (x: nat)
    requires Clocked(cs, evs) && p < |evs| && k < |cs| && cs[k].cooldownUs == 0 && TriggersOn(cs, evs, p, k)
    ensures |LogAfter(cs, evs[..p])| <= x < |LogAfter(cs, evs[..p + 1])| <= |LogAfter(cs, evs)|
    ensures KeyOf(LogAfter(cs, evs)[x]) == SignalKey(evs[p].clock[k], cs[k].kind, evs[p].message.update.symbol)
  {
    hide AfterDepth, Judge, AttemptsUpTo, TryAll, DepthAttempts, Process;
    var e, u, clock := Run(cs, evs[..p]), evs[p].message.update, evs[p].clock;
    DepthStep(cs, e, evs[p]);
    var st := AfterDepth(StateOf(e, u.symbol), u);
    var m := AttemptOf(cs, |cs|, k, u.symbol, st.agg.snap, InfoOf(st.trades), clock);
    x := ZeroFires(e.cool, DepthAttempts(cs, st, u.symbol, clock), m);
    assert evs[..p + 1] == evs[..p] + [evs[p]];
    RunSnoc(cs, evs[..p], evs[p]);
    LogGrows(cs, evs, p + 1);
  }

  lemma NotDistinct(log: seq<Signal>, x: nat, y: nat)
    requires x < y < |log| && KeyOf(log[x]) == KeyOf(log[y])
    ensures !DistinctKeys(log)
  {
  }

  lemma LogIsLogAfter(cs: seq<Condition>, evs: seq<Event>)
    requires Clocked(cs, evs)
    ensures LogAfter(cs, evs) == Run(cs, evs).cool.log
  {
  }

  /** A condition without cooldown that triggers on two updates of one symbol read at the same time
      repeats its key, whatever else happens in the run. */
  lemma {:induction false} ZeroCooldownRepeatsKeys(cs: seq<Condition>, evs: seq<Event>, p: nat, q: nat, k: nat)
    requires Clocked(cs, evs) && p < q < |evs| && k < |cs| && cs[k].cooldownUs == 0
    requires TriggersOn(cs, evs, p, k) && TriggersOn(cs, evs, q, k)
    requires evs[p].message.update.symbol == evs[q].message.update.symbol && evs[p].clock[k] == evs[q].clock[k]
    ensures !DistinctKeys(Run(cs, evs).cool.log)
  {
    hide Run, TriggersOn, Judge, LogAfter;
    var x := ZeroIsLogged(cs, evs, p, k);
    var y := ZeroIsLogged(cs, evs, q, k);
    assert evs[..q][..p + 1] == evs[..p + 1];
    LogGrows(cs, evs[..q], p + 1);
    NotDistinct(LogAfter(cs, evs), x, y);
    assert LogAfter(cs, evs) == Run(cs, evs).cool.log by { LogIsLogAfter(cs, evs); }
  }
}

/** Runs of messages in which keys repeat. */
module RepeatedKeys {
  import opened Words
  import Levels
  import opened OrderBooks
  import opened Signals
  import opened Engine
  import opened CooldownLaws
  import opened FiringLog

  /** A message whose book has a spread above `threshold`. */
  function WideUpdate(threshold: real, s: Symbol): Update {
    Update(s, 0, 1, 1, [Levels.Level(1.0, 1.0)], [Levels.Level(1.0 + SpreadAbove(threshold), 1.0)])
  }

  function SpreadAbove(threshold: real): (spread: real)
    ensures spread > threshold && spread > 0.0
  {
    if threshold < 0.0 then 1.0 else threshold + 1.0
  }

  predicate Empty(b: Book) { b.bids == [] && b.asks == [] }

  predicate IsWide(threshold: real, s: Symbol, b: Book) {
    b.bids == WideUpdate(threshold, s).bids && b.asks == WideUpdate(threshold, s).asks
  }

  function WideEvent(threshold: real, s: Symbol, now: u64): Event {
    Event(Depth(WideUpdate(threshold, s)), [now])
  }

  function WideRun(threshold: real, s: Symbol, times: seq<u64>): (evs: seq<Event>)
    ensures |evs| == |times|
  {
    seq(|times|, i requires 0 <= i < |times| => WideEvent(threshold, s, times[i]))
  }

  /** The triggers of such a run. */
  function WideAttempts(threshold: real, cooldownUs: u64, s: Symbol, times: seq<u64>): (xs: seq<Attempt>)
    ensures |xs| == |times|
  {
    seq(|times|, i requires 0 <= i < |times| =>
      Attempt(Signal(SpreadWide, s, SpreadAbove(threshold), threshold, times[i]), cooldownUs))
  }

  lemma OneLevel(desc: bool, side: seq<Levels.Level>, l: Levels.Level)
    requires l.qty != 0.0 && (side == [] || side == [l])
    ensures Levels.ApplyDeltas(desc, side, [l]) == [l]
  {
    assert [l][..0] == [];
    assert Levels.ApplyDeltas(desc, side, [l][..0]) == side;
  }

  lemma WideBook(threshold: real, s: Symbol, b: Book)
    requires Empty(b) || IsWide(threshold, s, b)
    ensures IsWide(threshold, s, Apply(b, WideUpdate(threshold, s)))
  {
    var u := WideUpdate(threshold, s);
    OneLevel(true, b.bids, u.bids[0]);
    OneLevel(false, b.asks, u.asks[0]);
  }

  /** One condition on the spread triggers on a wide book. */
  lemma WideTriggers(threshold: real, cooldownUs: u64, s: Symbol, st: SymState, now: u64)
    requires IsWide(threshold, s, st.book) && st.agg.snap.spread == st.book.Spread() && st.agg.snap.samples > 0
    ensures var cs := [Condition(SpreadWide, threshold, cooldownUs)];
      DepthAttempts(cs, st, s, [now]) == WideAttempts(threshold, cooldownUs, s, [now])
  {
    var cs, agg, trades := [Condition(SpreadWide, threshold, cooldownUs)], st.agg.snap, InfoOf(st.trades);
    assert Judge(cs[0], agg, trades).triggered;
    assert AttemptsUpTo(cs, 0, s, agg, trades, [now]) == [];
    assert DepthAttempts(cs, st, s, [now]) == AttemptsUpTo(cs, 1, s, agg, trades, [now]);
  }

  lemma WideStep(threshold: real, cooldownUs: u64, s: Symbol, e: State, now: u64)
    requires Empty(StateOf(e, s).book) || IsWide(threshold, s, StateOf(e, s).book)
    ensures var cs, ev := [Condition(SpreadWide, threshold, cooldownUs)], WideEvent(threshold, s, now);
      && DepthAttempts(cs, AfterDepth(StateOf(e, s), ev.message.update), s, ev.clock)
           == WideAttempts(threshold, cooldownUs, s, [now])
      && IsWide(threshold, s, StateOf(Process(cs, e, ev), s).book)
  {
    hide Apply, IsWide, TryAll, DepthAttempts;
    var u := WideUpdate(threshold, s);
    WideBook(threshold, s, StateOf(e, s).book);
    WideTriggers(threshold, cooldownUs, s, AfterDepth(StateOf(e, s), u), now);
  }

  /** It triggers on every message of a wide run. */
  lemma {:induction false} WideRunTriggers(threshold: real, cooldownUs: u64, s: Symbol, times: seq<u64>)
    ensures var cs, evs := [Condition(SpreadWide, threshold, cooldownUs)], WideRun(threshold, s, times);
      && Clocked(cs, evs) && RunAttempts(cs, evs) == WideAttempts(threshold, cooldownUs, s, times)
      && var b := StateOf(Run(cs, evs), s).book;
         if times == [] then Empty(b) else IsWide(threshold, s, b)
    decreases |times|
  {
    hide DepthAttempts, AfterDepth, IsWide, Process;
    var cs, evs := [Condition(SpreadWide, threshold, cooldownUs)], WideRun(threshold, s, times);
    if times == [] {
      assert evs == [] && WideAttempts(threshold, cooldownUs, s, times) == [];
    } else {
      var n := |times| - 1;
      WideRunTriggers(threshold, cooldownUs, s, times[..n]);
      assert evs[..n] == WideRun(threshold, s, times[..n]);
      WideStep(threshold, cooldownUs, s, Run(cs, evs[..n]), times[n]);
      WideSnoc(threshold, cooldownUs, s, times);
    }
  }

  lemma WideSnoc(threshold: real, cooldownUs: u64, s: Symbol, times: seq<u64>)
    requires times != []
    ensures var n := |times| - 1;
      WideAttempts(threshold, cooldownUs, s, times)
        == WideAttempts(threshold, cooldownUs, s, times[..n]) + WideAttempts(threshold, cooldownUs, s, [times[n]])
  {
  }

  lemma TryTwo(a: Attempt, b: Attempt)
    ensures TryAll(NoCooldowns, [a, b]) == Try(Try(NoCooldowns, a), b)
  {
    assert [a, b][..1] == [a] && [a][..0] == [];
    assert TryAll(NoCooldowns, [a]) == Try(NoCooldowns, a);
  }

  lemma TryThree(a: Attempt, b: Attempt, c: Attempt)
    ensures TryAll(NoCooldowns, [a, b, c]) == Try(Try(Try(NoCooldowns, a), b), c)
  {
    assert [a, b, c][..2] == [a, b];
    TryTwo(a, b);
  }

  /** Without a cooldown the clock need not even step back: two messages at one time repeat the key,
      for every threshold. */
  lemma TwoMessagesRepeatKey(threshold: real, s: Symbol, now: u64)
    ensures var cs, evs := [Condition(SpreadWide, threshold, 0)], WideRun(threshold, s, [now, now]);
      Clocked(cs, evs) && ClockNeverBack(evs) && !DistinctKeys(Run(cs, evs).cool.log)
  {
    hide Run, RunAttempts;
    var cs, evs := [Condition(SpreadWide, threshold, 0)], WideRun(threshold, s, [now, now]);
    WideRunTriggers(threshold, 0, s, [now, now]);
    WideClock(threshold, s, now);
    CooldownsFollowAttempts(cs, evs);
    var run := WideAttempts(threshold, 0, s, [now, now]);
    assert run == [run[0], run[1]];
    TryTwo(run[0], run[1]);
    NotDistinct(Run(cs, evs).cool.log, 0, 1);
  }

  lemma WideClock(threshold: real, s: Symbol, now: u64)
    ensures ClockNeverBack(WideRun(threshold, s, [now, now]))
  {
    var evs := WideRun(threshold, s, [now, now]);
    assert evs[..1][..0] == [];
    assert ClockNeverBack([]) && Latest([]) == 0;
    assert ClockNeverBack(evs[..1]) && Latest(evs[..1]) == now;
  }

  /** Back by at least the cooldown and forth again: all three fire. */
  lemma BackAndForth(a: Attempt, b: Attempt)
    requires a.Key() == b.Key() && a.cooldownUs == b.cooldownUs && b.Time() <= a.Time()
    requires a.cooldownUs <= a.Time() - b.Time() <= U64_SPAN - a.cooldownUs
    ensures TryAll(NoCooldowns, [a, b, a]).log == [a.signal, b.signal, a.signal]
  {
    TryThree(a, b, a);
    var one := Try(NoCooldowns, a);
    assert one.lastFired[a.Key()] == a.Time();
    if b.Time() < a.Time() { BackwardClockFires(one, b); }
    assert Try(one, b).lastFired[a.Key()] == b.Time();
    ForwardElapsed(a.Time(), b.Time());
  }

  /** With a cooldown the key repeats once the clock steps back by it and forth again. */
  lemma BackwardClockRepeatsKey(threshold: real, s: Symbol, now: u64, back: nat, cooldownUs: u64)
    requires back <= now && cooldownUs <= back && cooldownUs + back <= U64_SPAN
    ensures var cs, evs := [Condition(SpreadWide, threshold, cooldownUs)], WideRun(threshold, s, [now, now - back, now]);
      Clocked(cs, evs) && !DistinctKeys(Run(cs, evs).cool.log)
  {
    hide Run, RunAttempts;
    var times := [now, now - back, now];
    var cs, evs := [Condition(SpreadWide, threshold, cooldownUs)], WideRun(threshold, s, times);
    WideRunTriggers(threshold, cooldownUs, s, times);
    CooldownsFollowAttempts(cs, evs);
    var run := WideAttempts(threshold, cooldownUs, s, times);
    assert run == [run[0], run[1], run[0]];
    BackAndForth(run[0], run[1]);
    NotDistinct(Run(cs, evs).cool.log, 0, 2);
  }
}
