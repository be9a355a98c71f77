/** Every history of messages can be driven through the processing thread and observed between any
    two messages. */
module SnapshotRuns {
  import opened Signals
  import opened Engine
  import opened Snapshots
  import opened SnapshotMachine

  lemma {:induction false} RunsSnoc(cs: seq<Condition>, a: Machine, p: seq<Step>, b: Machine, step: Step)
    requires Runs(cs, a, p, b) && Enabled(cs, b, step)
    ensures Runs(cs, a, p + [step], Next(cs, b, step))
    decreases |p|
  {
    hide Enabled, Next;
    if p == [] {
      assert [step][1..] == [];
      assert p + [step] == [step];
    } else {
      RunsSnoc(cs, Next(cs, a, p[0]), p[1..], b, step);
      assert (p + [step])[1..] == p[1..] + [step];
    }
  }

  /** m is reached by these steps. */
  ghost predicate Reached(cs: seq<Condition>, p: seq<Step>, m: Machine) {
    Runs(cs, SnapshotMachine.Start, p, m)
  }

  lemma Advance(cs: seq<Condition>, p: seq<Step>, m: Machine, step: Step) returns (p': seq<Step>, m': Machine)
    requires Reached(cs, p, m) && Enabled(cs, m, step)
    ensures Reached(cs, p', m') && m' == Next(cs, m, step)
  {
    RunsSnoc(cs, SnapshotMachine.Start, p, m, step);
    p', m' := p + [step], Next(cs, m, step);
  }

  ghost predicate SameView(m: Machine, m': Machine) {
    m'.history == m.history && m'.taken == m.taken
  }

  lemma {:induction false} TryRest(cs: seq<Condition>, p: seq<Step>, m: Machine) returns (p': seq<Step>, m': Machine)
    requires Reached(cs, p, m) && m.phase.Firing? && m.phase.done <= |m.phase.attempts|
    ensures Reached(cs, p', m') && m'.phase == Finished(m.phase.ev) && SameView(m, m')
    decreases |m.phase.attempts| - m.phase.done
  {
    hide Reached, Try, Fires, PushFront;
    p', m' := Advance(cs, p, m, TryNext);
    if m.phase.done < |m.phase.attempts| { p', m' := TryRest(cs, p', m'); }
  }

  lemma {:induction false} ProcessOne(cs: seq<Condition>, p: seq<Step>, m: Machine, ev: Event) returns (p': seq<Step>, m': Machine)
    requires Reached(cs, p, m) && m.phase.Waiting? && |ev.clock| == |cs|
    ensures Reached(cs, p', m') && m'.phase.Waiting? && m'.history == m.history + [ev] && m'.taken == m.taken
  {
    hide Reached, AfterDepth, AfterTrade, DepthAttempts;
    p', m' := Advance(cs, p, m, Dequeue(ev));
    assert m'.phase == Counted(ev) && SameView(m, m');
    p', m' := Advance(cs, p', m', UpdateState);
    assert SameView(m, m');
    if m'.phase.Firing? { p', m' := TryRest(cs, p', m'); }
    assert m'.phase == Finished(ev) && SameView(m, m');
    p', m' := Advance(cs, p', m', Publish);
  }

  lemma {:induction false} ProcessMany(cs: seq<Condition>, p: seq<Step>, m: Machine, evs: seq<Event>) returns (p': seq<Step>, m': Machine)
    requires Reached(cs, p, m) && m.phase.Waiting? && Clocked(cs, evs)
    ensures Reached(cs, p', m') && m'.phase.Waiting? && m'.history == m.history + evs && m'.taken == m.taken
    decreases |evs|
  {
    hide Reached;
    if evs == [] {
      p', m' := p, m;
    } else {
      var n := |evs| - 1;
      p', m' := ProcessMany(cs, p, m, evs[..n]);
      p', m' := ProcessOne(cs, p', m', evs[n]);
      assert m.history + evs[..n] + [evs[n]] == m.history + evs;
    }
  }

  /** Processes more messages and takes a snapshot. */
  lemma {:induction false} ProcessAndTake(cs: seq<Condition>, p: seq<Step>, m: Machine, evs: seq<Event>) returns (p': seq<Step>, m': Machine)
    requires Reached(cs, p, m) && m.phase.Waiting? && Clocked(cs, m.history) && Clocked(cs, evs)
    ensures Reached(cs, p', m') && m'.phase.Waiting? && m'.history == m.history + evs && Clocked(cs, m'.history)
    ensures m'.taken == m.taken + [SnapshotOf(Run(cs, m'.history))]
  {
    hide Inv, SnapshotOf, Engine.Run;
    p', m' := ProcessMany(cs, p, m, evs);
    StartInv(cs);
    RunKeepsInv(cs, SnapshotMachine.Start, p', m');
    SnapshotIsCurrent(cs, m');
    p', m' := Advance(cs, p', m', Take);
  }

  lemma SnapshotIsCurrent(cs: seq<Condition>, m: Machine)
    requires Inv(cs, m)
    ensures Clocked(cs, m.history) && m.snapshot == SnapshotOf(Run(cs, m.history))
  {
  }
}

/** When the dashboard's list is the engine's, exactly. */
module DashboardLimits {
  import opened Words
  import opened Signals
  import opened Engine
  import opened Sharding
  import opened FiringLog
  import opened RepeatedKeys
  import opened Snapshots
  import M = SnapshotMachine
  import opened SnapshotRuns
  import opened Dashboard

  /** The list never shows a key twice. */
  ghost predicate Sane(v: View) {
    DistinctKeys(v.signals) && Keys(v.signals) <= v.seen
  }

  lemma {:induction false} NewOnesAreNew(recent: seq<Signal>, n: nat, seen: set<SignalKey>)
    requires n <= |recent|
    ensures var added := NewOnes(recent, n, seen);
      && |added| <= n && DistinctKeys(added)
      && forall i {:trigger added[i]} :: 0 <= i < |added| ==> KeyOf(added[i]) in Keys(recent[..n]) - seen
    decreases n
  {
    if n > 0 {
      NewOnesAreNew(recent, n - 1, seen);
      KeysSnoc(recent, n - 1);
    }
  }

  lemma {:induction false} TakeKeeps(s: seq<Signal>, n: nat)
    requires DistinctKeys(s)
    ensures DistinctKeys(Take(s, n)) && Keys(Take(s, n)) <= Keys(s)
  {
    forall k | k in Keys(Take(s, n)) ensures k in Keys(s) {
      var i :| 0 <= i < |Take(s, n)| && KeyOf(Take(s, n)[i]) == k;
      assert KeyOf(s[i]) == k;
    }
  }

  lemma {:induction false} KeysConcat(a: seq<Signal>, b: seq<Signal>)
    ensures Keys(a + b) <= Keys(a) + Keys(b)
  {
    forall k | k in Keys(a + b) ensures k in Keys(a) + Keys(b) {
      var i :| 0 <= i < |a + b| && KeyOf((a + b)[i]) == k;
      if i >= |a| { assert KeyOf(b[i - |a|]) == k; }
    }
  }

  lemma {:induction false} DistinctConcat(a: seq<Signal>, b: seq<Signal>, seen: set<SignalKey>)
    requires DistinctKeys(a) && DistinctKeys(b) && Keys(b) <= seen
    requires forall i {:trigger a[i]} :: 0 <= i < |a| ==> KeyOf(a[i]) !in seen
    ensures DistinctKeys(a + b)
  {
    forall i, j | 0 <= i < j < |a + b| ensures KeyOf((a + b)[i]) != KeyOf((a + b)[j]) {
      if i < |a| <= j { assert KeyOf(b[j - |a|]) in Keys(b); }
    }
  }

  lemma {:induction false} KeysWithin(a: seq<Signal>, ks: set<SignalKey>)
    requires forall i {:trigger a[i]} :: 0 <= i < |a| ==> KeyOf(a[i]) in ks
    ensures Keys(a) <= ks
  {
  }

  lemma {:induction false} MergeKeepsSane(v: View, recent: seq<Signal>)
    requires Sane(v)
    ensures Sane(Merge(v, recent))
  {
    hide NewOnes;
    var added := NewOnes(recent, |recent|, v.seen);
    NewOnesAreNew(recent, |recent|, v.seen);
    assert recent[..|recent|] == recent;
    DistinctConcat(added, v.signals, v.seen);
    KeysConcat(added, v.signals);
    KeysWithin(added, Keys(recent));
    TakeKeeps(added + v.signals, MAX_SIGNALS);
  }

  lemma {:induction false} DistinctAreAllNew(recent: seq<Signal>, n: nat, seen: set<SignalKey>)
    requires n <= |recent| && DistinctKeys(recent)
    requires forall i {:trigger recent[i]} :: 0 <= i < n ==> KeyOf(recent[i]) !in seen
    ensures NewOnes(recent, n, seen) == recent[..n]
    decreases n
  {
    if n > 0 {
      DistinctAreAllNew(recent, n - 1, seen);
      KeyInPrefix(recent, n - 1, n - 1);
      assert recent[..n] == recent[..n - 1] + [recent[n - 1]];
    }
  }

  /** The first snapshot is shown as it is if and only if its signals have distinct keys. */
  lemma {:induction false} FirstMergeIff(recent: seq<Signal>)
    requires |recent| <= MAX_SIGNALS
    ensures Merge(EmptyView, recent).signals == recent <==> DistinctKeys(recent)
  {
    assert Keys([]) == {};
    MergeKeepsSane(EmptyView, recent);
    if DistinctKeys(recent) {
      DistinctAreAllNew(recent, |recent|, {});
      assert recent[..|recent|] == recent && recent + [] == recent;
    }
  }

  /** Signals already seen, among them one of the newest d, leave fewer than d new ones. */
  lemma {:induction false} FewNewOnes(recent: seq<Signal>, n: nat, seen: set<SignalKey>, d: nat, p: nat)
    requires p < d && n <= |recent| && d <= |recent| && KeyOf(recent[p]) in seen
    requires forall k {:trigger recent[k]} :: d <= k < |recent| ==> KeyOf(recent[k]) in seen
    ensures |NewOnes(recent, n, seen)| <= if n <= p then n else if n <= d then n - 1 else d - 1
    decreases n
  {
    if n > 0 { FewNewOnes(recent, n - 1, seen, d, p); }
  }

  /** A list without repetitions is no list that has the same signal further back. */
  lemma {:induction false} ShiftedDiffers(s: seq<Signal>, t: seq<Signal>, n: nat, d: nat)
    requires DistinctKeys(s) && n < d < |t| && n < |s| && s[n] == t[d]
    ensures s != t
  {
    if |s| == |t| { assert KeyOf(s[n]) != KeyOf(s[d]); }
  }

  function Recent(log: seq<Signal>, n: nat): seq<Signal>
    requires n <= |log|
  {
    NewestFirst(log[..n], MAX_SIGNALS)
  }

  lemma {:induction false} FirstTwoMerges(log: seq<Signal>, a: nat, b: nat, i: nat)
    requires i < a <= b <= |log| && DistinctKeys(log[..b]) && a - i <= MAX_SIGNALS
    ensures var v := Merge(Merge(EmptyView, Recent(log, a)), Recent(log, b));
      Sane(v) && v.signals == Recent(log, b) && KeyOf(log[i]) in v.seen
  {
    var past := log[..b];
    assert past[..a] == log[..a] && past[..b] == past && past[..0] == [] && Keys([]) == {};
    MergeKeepsMirror(EmptyView, past, 0, a);
    var v := Merge(EmptyView, Recent(log, a));
    MergeKeepsMirror(v, past, a, b);
    NewestAt(log, a, a - 1 - i);
    assert KeyOf(v.signals[a - 1 - i]) in Keys(v.signals);
    MergeKeepsSane(EmptyView, Recent(log, a));
    MergeKeepsSane(v, Recent(log, b));
    SeenAfterFirst(Recent(log, a));
    SeenGrows(v, Recent(log, b));
  }

  lemma {:induction false} SeenAfterFirst(recent: seq<Signal>)
    requires |recent| <= MAX_SIGNALS
    ensures |Merge(EmptyView, recent).seen| <= MAX_SIGNALS
  {
    KeysAreFew(recent);
    assert {} + Keys(recent) == Keys(recent);
  }

  lemma {:induction false} SeenGrows(v: View, recent: seq<Signal>)
    requires |v.seen| <= MAX_SIGNALS && |recent| <= MAX_SIGNALS
    ensures v.seen <= Merge(v, recent).seen
  {
    hide NewOnes;
    KeysAreFew(recent);
    UnionIsFew(v.seen, Keys(recent));
  }

  lemma UnionIsFew(a: set<SignalKey>, b: set<SignalKey>)
    ensures |a + b| <= |a| + |b|
  {
    assert a + b == a + (b - a);
    assert |a + b| == |a| + |b - a|;
    assert b == (b - a) + (b * a);
  }

  /** A firing that repeats a key seen before is missing from the list of the next snapshot, or stands
      in the wrong place. */
  lemma {:induction false} RepeatBreaksMirror(log: seq<Signal>, a: nat, b: nat, c: nat, i: nat, j: nat)
    requires i < a <= b <= j < c <= |log| && DistinctKeys(log[..b])
    requires a - i <= MAX_SIGNALS && c - b < MAX_SIGNALS && KeyOf(log[i]) == KeyOf(log[j])
    ensures Merge(Merge(Merge(EmptyView, Recent(log, a)), Recent(log, b)), Recent(log, c)).signals != Recent(log, c)
  {
    hide NewOnes, Merge;
    var v := Merge(Merge(EmptyView, Recent(log, a)), Recent(log, b));
    FirstTwoMerges(log, a, b, i);
    MergeKeepsSane(v, Recent(log, c));
    ThirdMergeDiffers(v, log, b, c, j);
  }

  lemma {:induction false} ThirdMergeDiffers(v: View, log: seq<Signal>, b: nat, c: nat, j: nat)
    requires 0 < b <= j < c <= |log| && c - b < MAX_SIGNALS
    requires Sane(v) && v.signals == Recent(log, b) && KeyOf(log[j]) in v.seen
    requires Sane(Merge(v, Recent(log, c)))
    ensures Merge(v, Recent(log, c)).signals != Recent(log, c)
  {
    hide NewOnes, Sane, Keys;
    var recent, d := Recent(log, c), c - b;
    var added := NewOnes(recent, |recent|, v.seen);
    NewestAt(log, c, c - 1 - j);
    OlderAreSeen(v, log, b, c);
    FewNewOnes(recent, |recent|, v.seen, d, c - 1 - j);
    var merged := Take(added + v.signals, MAX_SIGNALS);
    assert Merge(v, recent).signals == merged by { if added == [] { assert added + v.signals == v.signals; } }
    if c > MAX_SIGNALS {
      NewestAt(log, b, 0);
      NewestAt(log, c, d);
      SaneIsDistinct(Merge(v, recent));
      ShiftedDiffers(merged, recent, |added|, d);
    }
  }

  lemma SaneIsDistinct(v: View)
    requires Sane(v)
    ensures DistinctKeys(v.signals)
  {
  }

  lemma {:induction false} OlderAreSeen(v: View, log: seq<Signal>, b: nat, c: nat)
    requires b <= c <= |log| && Sane(v) && v.signals == Recent(log, b)
    ensures forall k {:trigger Recent(log, c)[k]} :: c - b <= k < |Recent(log, c)| ==> KeyOf(Recent(log, c)[k]) in v.seen
  {
    forall k | c - b <= k < |Recent(log, c)| ensures KeyOf(Recent(log, c)[k]) in v.seen {
      NewestAt(log, c, k);
      NewestAt(log, b, k - (c - b));
      assert KeyOf(v.signals[k - (c - b)]) in Keys(v.signals);
    }
  }

  // ---------------------------------------------------------------- over runs of the engine

  /** However a monitor observes the engine while it processes these messages or some of them, the
      dashboard's list is the engine's list of recent signals after every snapshot. */
  ghost predicate AlwaysMirrored(cs: seq<Condition>, evs: seq<Event>) {
    forall p, m {:trigger M.Runs(cs, M.Start, p, m)} ::
      M.Runs(cs, M.Start, p, m) && m.history <= evs && m.taken != [] ==>
        ViewAfter(m.taken).signals == m.taken[|m.taken| - 1].recentSignals
  }

  lemma {:induction false} AttemptsAreFew(cs: seq<Condition>, n: nat, s: Symbol, agg: Aggregators.Snapshot, trades: TradeInfo, clock: seq<u64>)
    requires n <= |cs| == |clock|
    ensures |AttemptsUpTo(cs, n, s, agg, trades, clock)| <= n
    decreases n
  {
    if n > 0 { AttemptsAreFew(cs, n - 1, s, agg, trades, clock); }
  }

  lemma {:induction false} LogGrowsBy(c: Cooldowns, xs: seq<Attempt>)
    ensures |TryAll(c, xs).log| <= |c.log| + |xs|
    decreases |xs|
  {
    if xs != [] { LogGrowsBy(c, xs[..|xs| - 1]); }
  }

  /** One message fires at most one signal per condition. */
  lemma {:induction false} FewFirings(cs: seq<Condition>, evs: seq<Event>)
    requires Clocked(cs, evs) && evs != []
    ensures |LogAfter(cs, evs)| <= |LogAfter(cs, evs[..|evs| - 1])| + |cs|
  {
    var init, ev := evs[..|evs| - 1], evs[|evs| - 1];
    ClockedInit(cs, evs);
    if ev.message.Depth? {
      var u := ev.message.update;
      var st := AfterDepth(StateOf(Run(cs, init), u.symbol), u);
      AttemptsAreFew(cs, |cs|, u.symbol, st.agg.snap, InfoOf(st.trades), ev.clock);
      LogGrowsBy(Run(cs, init).cool, DepthAttempts(cs, st, u.symbol, ev.clock));
    }
  }

  /** The message during which a key was repeated for the first time. */
  lemma {:induction false} FirstRepeat(cs: seq<Condition>, evs: seq<Event>) returns (n: nat, i: nat, j: nat)
    requires Clocked(cs, evs) && !DistinctKeys(LogAfter(cs, evs))
    ensures n < |evs| && Clocked(cs, evs[..n]) && Clocked(cs, evs[..n + 1]) && DistinctKeys(LogAfter(cs, evs[..n]))
    ensures i < j < |LogAfter(cs, evs[..n + 1])| && j >= |LogAfter(cs, evs[..n])|
    ensures KeyOf(LogAfter(cs, evs[..n + 1])[i]) == KeyOf(LogAfter(cs, evs[..n + 1])[j])
    decreases |evs|
  {
    hide Run;
    NothingFired(cs);
    n := |evs| - 1;
    var init := evs[..n];
    ClockedInit(cs, evs);
    if DistinctKeys(LogAfter(cs, init)) {
      var log := LogAfter(cs, evs);
      i, j :| 0 <= i < j < |log| && KeyOf(log[i]) == KeyOf(log[j]);
      assert evs[..n + 1] == evs;
      LogStep(cs, evs);
    } else {
      n, i, j := FirstRepeat(cs, init);
      assert init[..n] == evs[..n] && init[..n + 1] == evs[..n + 1];
    }
  }

  lemma NothingFired(cs: seq<Condition>)
    ensures LogAfter(cs, []) == []
  {
  }

  /** The boundary after the message that fired the i-th signal. */
  lemma {:induction false} BoundaryAfter(cs: seq<Condition>, evs: seq<Event>, i: nat) returns (n: nat)
    requires Clocked(cs, evs) && i < |LogAfter(cs, evs)|
    ensures n <= |evs| && Clocked(cs, evs[..n]) && i < |LogAfter(cs, evs[..n])| <= i + |cs|
    decreases |evs|
  {
    hide Run, LogAfter;
    NothingFired(cs);
    var init := evs[..|evs| - 1];
    ClockedInit(cs, evs);
    if i < |LogAfter(cs, init)| {
      n := BoundaryAfter(cs, init, i);
      assert init[..n] == evs[..n];
    } else {
      n := |evs|;
      FewFirings(cs, evs);
      assert evs[..n] == evs;
    }
  }

  lemma ViewOfOne(x: EngineSnapshot)
    ensures ViewAfter([x]) == Merge(EmptyView, x.recentSignals)
  {
    assert [x][..0] == [];
  }

  lemma ViewOfThree(x: EngineSnapshot, y: EngineSnapshot, z: EngineSnapshot)
    ensures ViewAfter([x, y, z]) == Merge(Merge(Merge(EmptyView, x.recentSignals), y.recentSignals), z.recentSignals)
  {
    assert [x, y, z][..2] == [x, y] && [x, y][..1] == [x];
    ViewOfOne(x);
  }

  lemma {:induction false} NotMirrored(cs: seq<Condition>, evs: seq<Event>, p: seq<M.Step>, m: M.Machine)
    requires Reached(cs, p, m) && m.history <= evs && m.taken != []
    requires ViewAfter(m.taken).signals != m.taken[|m.taken| - 1].recentSignals
    ensures !AlwaysMirrored(cs, evs)
  {
  }

  lemma RecentOf(cs: seq<Condition>, evs: seq<Event>)
    requires Clocked(cs, evs)
    ensures SnapshotOf(Run(cs, evs)).recentSignals == NewestFirst(LogAfter(cs, evs), MAX_SIGNALS)
  {
  }

  /** Repeated within one message: already a single snapshot shows it. */
  lemma {:induction false} RepeatInOneMessage(cs: seq<Condition>, evs: seq<Event>, log: seq<Signal>, i: nat, j: nat)
    requires Clocked(cs, evs) && log == LogAfter(cs, evs)
    requires i < j < |log| < i + MAX_SIGNALS && KeyOf(log[i]) == KeyOf(log[j])
    ensures !AlwaysMirrored(cs, evs)
  {
    hide Run, LogAfter, Merge, AlwaysMirrored;
    var p, m := ProcessAndTake(cs, [], M.Start, evs);
    assert [] + evs == evs && m.taken == [SnapshotOf(Run(cs, evs))];
    RecentOf(cs, evs);
    ViewOfOne(m.taken[0]);
    var recent := NewestFirst(log, MAX_SIGNALS);
    FirstMergeIff(recent);
    NotDistinct(recent, |log| - 1 - j, |log| - 1 - i);
    NotMirrored(cs, evs, p, m);
  }

  lemma {:induction false} ThreeSnapshots(cs: seq<Condition>, evs: seq<Event>, q: nat, n: nat) returns (p: seq<M.Step>, m: M.Machine)
    requires Clocked(cs, evs) && q <= n <= |evs| && Clocked(cs, evs[..q]) && Clocked(cs, evs[..n])
    ensures Reached(cs, p, m) && m.history == evs
    ensures m.taken == [SnapshotOf(Run(cs, evs[..q])), SnapshotOf(Run(cs, evs[..n])), SnapshotOf(Run(cs, evs))]
  {
    hide Run, SnapshotOf, Reached;
    p, m := StartReached(cs);
    assert evs[..q] + evs[q..n] == evs[..n] && evs[..n] + evs[n..] == evs && [] + evs[..q] == evs[..q];
    p, m := ProcessAndTake(cs, p, m, evs[..q]);
    p, m := ProcessAndTake(cs, p, m, evs[q..n]);
    p, m := ProcessAndTake(cs, p, m, evs[n..]);
  }

  lemma StartReached(cs: seq<Condition>) returns (p: seq<M.Step>, m: M.Machine)
    ensures Reached(cs, p, m) && m == M.Start
  {
    p, m := [], M.Start;
  }

  /** Repeated by a later message: snapshots after the firing, before and after the repetition. */
  lemma {:induction false} RepeatAcrossMessages(cs: seq<Condition>, evs: seq<Event>, q: nat, n: nat, i: nat, j: nat)
    requires Clocked(cs, evs) && q <= n <= |evs| && Clocked(cs, evs[..q]) && Clocked(cs, evs[..n])
    requires LogAfter(cs, evs[..q]) <= LogAfter(cs, evs[..n]) <= LogAfter(cs, evs) && DistinctKeys(LogAfter(cs, evs[..n]))
    requires i < |LogAfter(cs, evs[..q])| <= i + MAX_SIGNALS
    requires |LogAfter(cs, evs[..n])| <= j < |LogAfter(cs, evs)| < |LogAfter(cs, evs[..n])| + MAX_SIGNALS
    requires KeyOf(LogAfter(cs, evs)[i]) == KeyOf(LogAfter(cs, evs)[j])
    ensures !AlwaysMirrored(cs, evs)
  {
    hide Run, LogAfter, Merge, AlwaysMirrored;
    var log, a, b := LogAfter(cs, evs), |LogAfter(cs, evs[..q])|, |LogAfter(cs, evs[..n])|;
    var p, m := ThreeSnapshots(cs, evs, q, n);
    ViewOfThree(m.taken[0], m.taken[1], m.taken[2]);
    RecentOf(cs, evs[..q]); RecentOf(cs, evs[..n]); RecentOf(cs, evs);
    assert log[..a] == LogAfter(cs, evs[..q]) && log[..b] == LogAfter(cs, evs[..n]) && log[..|log|] == log;
    RepeatBreaksMirror(log, a, b, |log|, i, j);
    NotMirrored(cs, evs, p, m);
  }

  lemma {:induction false} ShorterIsEnough(cs: seq<Condition>, evs: seq<Event>, n: nat)
    requires n <= |evs| && !AlwaysMirrored(cs, evs[..n])
    ensures !AlwaysMirrored(cs, evs)
  {
    var p, m :| M.Runs(cs, M.Start, p, m) && m.history <= evs[..n] && m.taken != []
                && ViewAfter(m.taken).signals != m.taken[|m.taken| - 1].recentSignals;
    assert m.history <= evs;
  }

  /** With fewer conditions than the list is long, a repeated key makes some monitor see the
      dashboard fall behind the engine. */
  lemma {:induction false} RepeatIsSeen(cs: seq<Condition>, evs: seq<Event>)
    requires Clocked(cs, evs) && |cs| < MAX_SIGNALS && !DistinctKeys(LogAfter(cs, evs))
    ensures !AlwaysMirrored(cs, evs)
  {
    hide Run, LogAfter, AlwaysMirrored, DistinctKeys;
    var n, i, j := FirstRepeat(cs, evs);
    var upTo := evs[..n + 1];
    assert upTo[..n] == evs[..n];
    LogStep(cs, upTo);
    FewFirings(cs, upTo);
    if i >= |LogAfter(cs, evs[..n])| {
      RepeatInOneMessage(cs, upTo, LogAfter(cs, upTo), i, j);
    } else {
      var q := BoundaryAfter(cs, evs[..n], i);
      assert evs[..n][..q] == upTo[..q];
      LogGrows(cs, evs[..n], q);
      RepeatAcrossMessages(cs, upTo, q, n, i, j);
    }
    ShorterIsEnough(cs, evs, n + 1);
  }

  lemma {:induction false} DistinctIsMirrored(cs: seq<Condition>, evs: seq<Event>)
    requires Clocked(cs, evs) && DistinctKeys(LogAfter(cs, evs))
    ensures AlwaysMirrored(cs, evs)
  {
    forall p, m | M.Runs(cs, M.Start, p, m) && m.history <= evs && m.taken != []
      ensures ViewAfter(m.taken).signals == m.taken[|m.taken| - 1].recentSignals
    {
      var n := |m.history|;
      assert evs[..n] == m.history;
      LogGrows(cs, evs, n);
      assert DistinctKeys(LogAfter(cs, m.history));
      DistinctLogIsMirrored(cs, p, m);
    }
  }

  /** Main theorem. Firings with distinct keys are always mirrored; and if a message has fewer
      conditions than the list has lines, the dashboard mirrors the engine for every monitor if and
      only if no trigger that may fire again repeats the key and time of a firing, which with a clock
      that never steps back means one without cooldown. */
  lemma {:induction false} MirroredIffNoRepeats(cs: seq<Condition>, evs: seq<Event>)
    requires Clocked(cs, evs)
    ensures DistinctKeys(Run(cs, evs).cool.log) ==> AlwaysMirrored(cs, evs)
    ensures |cs| < MAX_SIGNALS ==> (AlwaysMirrored(cs, evs) <==> DistinctKeys(Run(cs, evs).cool.log))
    ensures |cs| < MAX_SIGNALS ==>
      (AlwaysMirrored(cs, evs) <==> !exists i, l, j :: RepeatsAfter(RunAttempts(cs, evs), i, l, j))
    ensures |cs| < MAX_SIGNALS && ClockNeverBack(evs) ==>
      (AlwaysMirrored(cs, evs) <==> !exists i, j :: Repeats(RunAttempts(cs, evs), i, j))
  {
    hide AlwaysMirrored, DistinctKeys, ClockNeverBack, Repeats, RepeatsAfter;
    LogIsLogAfter(cs, evs);
    if DistinctKeys(LogAfter(cs, evs)) {
      DistinctIsMirrored(cs, evs);
    } else if |cs| < MAX_SIGNALS {
      RepeatIsSeen(cs, evs);
    }
    FiringKeysDistinctIffAnyClock(cs, evs);
    if ClockNeverBack(evs) { FiringKeysDistinctIff(cs, evs); }
  }

  /** One condition without cooldown and two messages in the same microsecond, whatever the threshold,
      or one with a cooldown and a clock that steps back by it: the dashboard falls behind. */
  lemma RunsThatFallBehind(threshold: real, s: Symbol, now: u64, back: nat, cooldownUs: u64)
    requires back <= now && cooldownUs <= back && cooldownUs + back <= U64_SPAN
    ensures !AlwaysMirrored([Condition(SpreadWide, threshold, 0)], WideRun(threshold, s, [now, now]))
    ensures !AlwaysMirrored([Condition(SpreadWide, threshold, cooldownUs)], WideRun(threshold, s, [now, now - back, now]))
  {
    hide AlwaysMirrored, DistinctKeys, WideRun, Run, RunAttempts;
    TwoMessagesRepeatKey(threshold, s, now);
    MirroredIffNoRepeats([Condition(SpreadWide, threshold, 0)], WideRun(threshold, s, [now, now]));
    BackwardClockRepeatsKey(threshold, s, now, back, cooldownUs);
    MirroredIffNoRepeats([Condition(SpreadWide, threshold, cooldownUs)], WideRun(threshold, s, [now, now - back, now]));
  }
}

/** Why the number of conditions matters: with as many conditions as the list has lines one message can
    push a repetition out, or into the one place where it does not show. */
module LongMessages {
  import opened Words
  import opened OrderBooks
  import opened Signals
  import opened Engine
  import opened FiringLog
  import opened RepeatedKeys
  import opened Snapshots
  import M = SnapshotMachine
  import opened Dashboard
  import opened DashboardLimits

  function Many(threshold: real, n: nat): (cs: seq<Condition>)
    ensures |cs| == n && forall i {:trigger cs[i]} :: 0 <= i < n ==> cs[i] == Condition(SpreadWide, threshold, 0)
  {
    seq(n, i => Condition(SpreadWide, threshold, 0))
  }

  /** n readings, one microsecond apart. */
  function Readings(first: nat, n: nat): (r: seq<u64>)
    requires first + n <= U64_SPAN
    ensures |r| == n && forall i {:trigger r[i]} :: 0 <= i < n ==> r[i] == first + i
  {
    seq(n, i requires 0 <= i < n => first + i)
  }

  function LongEvent(threshold: real, s: Symbol, clock: seq<u64>): Event {
    Event(Depth(WideUpdate(threshold, s)), clock)
  }

  /** Two messages; the second starts at the reading the first ended with. */
  function LongRun(threshold: real, s: Symbol, n: nat): (evs: seq<Event>)
    requires 0 < n && 2 * n <= U64_SPAN
    ensures |evs| == 2
  {
    [LongEvent(threshold, s, Readings(0, n)), LongEvent(threshold, s, Readings(n - 1, n))]
  }

  function Firings(threshold: real, s: Symbol, clock: seq<u64>): (log: seq<Signal>)
    ensures |log| == |clock|
    ensures forall i {:trigger log[i]} :: 0 <= i < |log| ==> log[i] == Signal(SpreadWide, s, SpreadAbove(threshold), threshold, clock[i])
  {
    seq(|clock|, i requires 0 <= i < |clock| => Signal(SpreadWide, s, SpreadAbove(threshold), threshold, clock[i]))
  }

  /** The first n conditions trigger one after the other. */
  lemma {:induction false} AllTrigger(threshold: real, s: Symbol, n: nat, agg: Aggregators.Snapshot, trades: TradeInfo, clock: seq<u64>)
    requires n <= |clock| && agg.spread == SpreadAbove(threshold)
    ensures AttemptsUpTo(Many(threshold, |clock|), n, s, agg, trades, clock) == WideAttempts(threshold, 0, s, clock)[..n]
    decreases n
  {
    if n > 0 { AllTrigger(threshold, s, n - 1, agg, trades, clock); }
  }

  /** Triggers without cooldown all fire. */
  lemma {:induction false} AllFire(c: Cooldowns, xs: seq<Attempt>)
    requires forall i {:trigger xs[i]} :: 0 <= i < |xs| ==> xs[i].cooldownUs == 0
    ensures TryAll(c, xs).log == c.log + seq(|xs|, i requires 0 <= i < |xs| => xs[i].signal)
    decreases |xs|
  {
    if xs != [] {
      var n := |xs| - 1;
      AllFire(c, xs[..n]);
      assert c.log + seq(n, i requires 0 <= i < n => xs[..n][i].signal) + [xs[n].signal]
          == c.log + seq(n + 1, i requires 0 <= i < n + 1 => xs[i].signal);
    }
  }

  lemma WideSpread(threshold: real, s: Symbol, st: SymState)
    requires Empty(st.book) || IsWide(threshold, s, st.book)
    ensures var st' := AfterDepth(st, WideUpdate(threshold, s));
      IsWide(threshold, s, st'.book) && st'.agg.snap.spread == SpreadAbove(threshold) && st'.agg.snap.samples > 0
  {
    WideBook(threshold, s, st.book);
  }

  /** A wide message makes every condition fire once. */
  lemma LongStep(threshold: real, s: Symbol, e: State, clock: seq<u64>)
    requires Empty(StateOf(e, s).book) || IsWide(threshold, s, StateOf(e, s).book)
    ensures var e' := Process(Many(threshold, |clock|), e, LongEvent(threshold, s, clock));
      IsWide(threshold, s, StateOf(e', s).book) && e'.cool.log == e.cool.log + Firings(threshold, s, clock)
  {
    hide AfterDepth, AttemptsUpTo, TryAll, IsWide;
    WideSpread(threshold, s, StateOf(e, s));
    var cs, st := Many(threshold, |clock|), AfterDepth(StateOf(e, s), WideUpdate(threshold, s));
    AllTrigger(threshold, s, |clock|, st.agg.snap, InfoOf(st.trades), clock);
    var xs := WideAttempts(threshold, 0, s, clock);
    assert xs[..|clock|] == xs && DepthAttempts(cs, st, s, clock) == xs;
    AllFire(e.cool, xs);
    assert seq(|xs|, i requires 0 <= i < |xs| => xs[i].signal) == Firings(threshold, s, clock);
  }

  /** The log of the run: all firings of the one message, then all of the other. */
  lemma LongLog(threshold: real, s: Symbol, n: nat)
    requires 0 < n && 2 * n <= U64_SPAN
    ensures var cs, evs := Many(threshold, n), LongRun(threshold, s, n);
      && Clocked(cs, evs) && ClockNeverBack(evs)
      && LogAfter(cs, evs[..1]) == Firings(threshold, s, Readings(0, n))
      && LogAfter(cs, evs) == Firings(threshold, s, Readings(0, n)) + Firings(threshold, s, Readings(n - 1, n))
  {
    hide Process;
    var cs, evs := Many(threshold, n), LongRun(threshold, s, n);
    assert evs[..1][..0] == [] && evs[..2] == evs && evs[..1] == [evs[0]];
    assert ClockNeverBack([]) && Latest([]) == 0;
    assert ClockNeverBack(evs[..1]) && Latest(evs[..1]) == n - 1;
    assert Run(cs, []) == Engine.Start;
    assert Run(cs, evs[..1]) == Process(cs, Engine.Start, evs[0]);
    LongStep(threshold, s, Engine.Start, Readings(0, n));
    LongStep(threshold, s, Run(cs, evs[..1]), Readings(n - 1, n));
  }

  // ---------------------------------------------------------------- the list

  lemma {:induction false} NoneNew(recent: seq<Signal>, n: nat, seen: set<SignalKey>)
    requires n <= |recent| && Keys(recent) <= seen
    ensures NewOnes(recent, n, seen) == []
    decreases n
  {
    if n > 0 {
      NoneNew(recent, n - 1, seen);
      assert KeyOf(recent[n - 1]) in Keys(recent);
    }
  }

  /** The later list replaces the earlier one: it shares no key with it except that its last signal may
      be the first of the earlier. */
  ghost predicate Follows(first: seq<Signal>, then_: seq<Signal>) {
    && |first| == |then_| == MAX_SIGNALS && DistinctKeys(first) && DistinctKeys(then_)
    && (forall i {:trigger then_[i]} :: 0 <= i < MAX_SIGNALS - 1 ==> KeyOf(then_[i]) !in Keys(first))
    && (then_[MAX_SIGNALS - 1] == first[0] || KeyOf(then_[MAX_SIGNALS - 1]) !in Keys(first))
  }

  /** What the list is when the newest snapshot received was empty, the first list or the second. */
  ghost predicate Shows(v: View, shown: seq<Signal>, first: seq<Signal>, then_: seq<Signal>) {
    && v.signals == shown
    && (shown == [] ==> v == EmptyView)
    && (shown == first ==> v.seen == Keys(first))
    && (shown == then_ ==> Keys(then_) <= v.seen)
  }

  lemma {:induction false} FirstList(list: seq<Signal>)
    requires DistinctKeys(list) && 0 < |list| <= MAX_SIGNALS
    ensures Merge(EmptyView, list) == View(list, Keys(list))
  {
    FirstMergeIff(list);
    KeysAreFew(list);
    assert Keys([]) == {} && {} + Keys(list) == Keys(list);
  }

  /** What counts as new, in front of the first list and cut to the limit, is the second list. */
  lemma {:induction false} NewInFront(first: seq<Signal>, then_: seq<Signal>)
    requires Follows(first, then_)
    ensures var added := NewOnes(then_, MAX_SIGNALS, Keys(first));
      added != [] && Take(added + first, MAX_SIGNALS) == then_
  {
    hide NewOnes, Keys, DistinctKeys;
    var k := MAX_SIGNALS - 1;
    DistinctAreAllNew(then_, k, Keys(first));
    if KeyOf(then_[k]) in Keys(first) {
      SkipOrAppend(then_, k, Keys(first), false);
    } else {
      DistinctAreAllNew(then_, k + 1, Keys(first));
    }
  }

  lemma {:induction false} SecondList(v: View, first: seq<Signal>, then_: seq<Signal>)
    requires Follows(first, then_) && v == View(first, Keys(first))
    ensures Merge(v, then_) == View(then_, Keys(first) + Keys(then_))
  {
    hide NewOnes, Keys, DistinctKeys, Take;
    NewInFront(first, then_);
    KeysAreFew(first);
    KeysAreFew(then_);
    UnionIsFew(Keys(first), Keys(then_));
  }

  lemma {:induction false} NothingNew(v: View, list: seq<Signal>)
    requires Keys(list) <= v.seen
    ensures Merge(v, list) == v
  {
    NoneNew(list, |list|, v.seen);
  }

  lemma {:induction false} FollowsDiffers(first: seq<Signal>, then_: seq<Signal>)
    requires Follows(first, then_)
    ensures first != then_
  {
    assert KeyOf(first[0]) in Keys(first) && KeyOf(then_[0]) !in Keys(first);
  }

  /** Each snapshot shows nothing, the first list or the second, and none shows less than one before. */
  ghost predicate Stages(snaps: seq<EngineSnapshot>, at: seq<nat>, first: seq<Signal>, then_: seq<Signal>) {
    && |snaps| == |at|
    && (forall i {:trigger at[i]} :: 0 <= i < |at| ==>
          snaps[i].recentSignals == if at[i] == 0 then [] else if at[i] == 1 then first else then_)
    && (forall i, j {:trigger at[i], at[j]} :: 0 <= i < j < |at| ==> at[i] <= at[j])
  }

  lemma {:induction false} ShownAsReceived(snaps: seq<EngineSnapshot>, at: seq<nat>, first: seq<Signal>, then_: seq<Signal>)
    requires Stages(snaps, at, first, then_) && Follows(first, then_) && snaps != []
    ensures Shows(ViewAfter(snaps), snaps[|snaps| - 1].recentSignals, first, then_)
    decreases |snaps|
  {
    hide Merge, NewOnes;
    var n := |snaps| - 1;
    var v, recent := ViewAfter(snaps[..n]), snaps[n].recentSignals;
    FollowsDiffers(first, then_);
    if n > 0 {
      assert Stages(snaps[..n], at[..n], first, then_);
      ShownAsReceived(snaps[..n], at[..n], first, then_);
      assert snaps[..n][n - 1] == snaps[n - 1] && at[n - 1] <= at[n];
    }
    if v.signals == recent {
      NothingNew(v, recent);
    } else if v.signals == [] {
      FirstList(recent);
    } else {
      SecondList(v, first, then_);
    }
  }

  // ---------------------------------------------------------------- over runs

  lemma {:induction false} ListsFollow(threshold: real, s: Symbol, n: nat, first: seq<Signal>, then_: seq<Signal>)
    requires MAX_SIGNALS <= n && 2 * n <= U64_SPAN
    requires var a, b := Firings(threshold, s, Readings(0, n)), Firings(threshold, s, Readings(n - 1, n));
      first == NewestFirst(a, MAX_SIGNALS) && then_ == NewestFirst(a + b, MAX_SIGNALS)
    ensures Follows(first, then_)
  {
    forall i | 0 <= i < MAX_SIGNALS
      ensures first[i].timeUs == n - 1 - i && then_[i].timeUs == 2 * n - 2 - i
    {
    }
    forall i | 0 <= i < MAX_SIGNALS && then_[i].timeUs >= n ensures KeyOf(then_[i]) !in Keys(first) {
    }
  }

  lemma {:induction false} TakenInStages(cs: seq<Condition>, evs: seq<Event>, p: seq<M.Step>, m: M.Machine)
    requires Clocked(cs, evs) && |evs| == 2 && M.Runs(cs, M.Start, p, m) && m.history <= evs
    ensures Stages(m.taken, m.takenAt, NewestFirst(LogAfter(cs, evs[..1]), MAX_SIGNALS), NewestFirst(LogAfter(cs, evs), MAX_SIGNALS))
  {
    hide Run;
    M.StartInv(cs);
    M.RunKeepsInv(cs, M.Start, p, m);
    NothingFired(cs);
    forall i | 0 <= i < |m.takenAt|
      ensures m.taken[i].recentSignals == NewestFirst(LogAfter(cs, evs[..m.takenAt[i]]), MAX_SIGNALS)
    {
      assert m.history[..m.takenAt[i]] == evs[..m.takenAt[i]];
      RecentOf(cs, evs[..m.takenAt[i]]);
    }
    assert evs[..0] == [] && evs[..2] == evs;
  }

  /** With at least as many conditions as the list has lines two messages, with a clock that never
      steps back, repeat a key, and yet every monitor sees the dashboard agree with the engine. */
  lemma {:induction false} LongMessageHidesRepeat(threshold: real, s: Symbol, n: nat)
    requires MAX_SIGNALS <= n && 2 * n <= U64_SPAN
    ensures var cs, evs := Many(threshold, n), LongRun(threshold, s, n);
      Clocked(cs, evs) && ClockNeverBack(evs) && !DistinctKeys(Run(cs, evs).cool.log) && AlwaysMirrored(cs, evs)
  {
    hide Run, LogAfter, Shows, Stages, Follows, LongRun, ClockNeverBack;
    var cs, evs := Many(threshold, n), LongRun(threshold, s, n);
    LongLog(threshold, s, n);
    LogIsLogAfter(cs, evs);
    NotDistinct(LogAfter(cs, evs), n - 1, n);
    var first, then_ := NewestFirst(LogAfter(cs, evs[..1]), MAX_SIGNALS), NewestFirst(LogAfter(cs, evs), MAX_SIGNALS);
    ListsFollow(threshold, s, n, first, then_);
    forall p, m | M.Runs(cs, M.Start, p, m) && m.history <= evs && m.taken != []
      ensures ViewAfter(m.taken).signals == m.taken[|m.taken| - 1].recentSignals
    {
      TakenInStages(cs, evs, p, m);
      ShownAsReceived(m.taken, m.takenAt, first, then_);
      ShowsIt(ViewAfter(m.taken), m.taken[|m.taken| - 1].recentSignals, first, then_);
    }
  }

  lemma ShowsIt(v: View, shown: seq<Signal>, first: seq<Signal>, then_: seq<Signal>)
    requires Shows(v, shown, first, then_)
    ensures v.signals == shown
  {
  }

  /** The bound on the number of conditions is exact: it is below the number of lines if and only if, for
      all conditions of that number and all runs, being mirrored for every monitor and having distinct
      keys are the same. */
  lemma ConditionBoundIsExact(n: nat)
    requires 2 * n <= U64_SPAN
    ensures n < MAX_SIGNALS <==>
      forall cs, evs {:trigger Clocked(cs, evs)} :: |cs| == n && Clocked(cs, evs) ==>
        (AlwaysMirrored(cs, evs) <==> DistinctKeys(Run(cs, evs).cool.log))
  {
    hide AlwaysMirrored, DistinctKeys, Run, Clocked, LongRun;
    if n < MAX_SIGNALS {
      forall cs, evs | |cs| == n && Clocked(cs, evs)
        ensures AlwaysMirrored(cs, evs) <==> DistinctKeys(Run(cs, evs).cool.log)
      {
        MirroredIffNoRepeats(cs, evs);
      }
    } else {
      LongMessageHidesRepeat(0.0, [], n);
    }
  }
}
