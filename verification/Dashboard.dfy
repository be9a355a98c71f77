/** The dashboard's signal list (dashboard/src/components/SignalLogPanel.jsx): the updater that
    merges each received snapshot into the list, called once per snapshot. */
module Dashboard {
  import opened Signals
  import opened Engine
  import opened FiringLog
  import opened Snapshots
  import M = SnapshotMachine

  const MAX_SIGNALS: nat := 50

  /** The list shown and the set of keys seen. */
  datatype View = View(signals: seq<Signal>, seen: set<SignalKey>)

  const EmptyView: View := View([], {})

  function Keys(s: seq<Signal>): set<SignalKey> {
    set i | 0 <= i < |s| :: KeyOf(s[i])
  }

  /** The signals among the first n whose key occurs neither in `seen` nor before them. */
  function NewOnes(recent: seq<Signal>, n: nat, seen: set<SignalKey>): seq<Signal>
    requires n <= |recent|
  {
    if n == 0 then []
    else
      var key := KeyOf(recent[n - 1]);
      NewOnes(recent, n - 1, seen)
      + (if key !in seen + Keys(recent[..n - 1]) then [recent[n - 1]] else [])
  }

  function Take(s: seq<Signal>, n: nat): seq<Signal> {
    if |s| < n then s else s[..n]
  }

  /** One merge: prepend the new signals, cut to the limit, and trim the seen set when it has
      grown beyond twice the limit. */
  function Merge(v: View, recent: seq<Signal>): View {
    var added := NewOnes(recent, |recent|, v.seen);
    if added == [] then v
    else
      var merged := Take(added + v.signals, MAX_SIGNALS);
      var seen := v.seen + Keys(recent);
      View(merged, if |seen| > MAX_SIGNALS * 2 then Keys(merged) else seen)
  }

  class SignalLog {
    var signals: seq<Signal>
    var seen: set<SignalKey>

    function State(): View
      reads this
    {
      View(signals, seen)
    }

    constructor ()
      ensures State() == EmptyView
    {
      signals, seen := [], {};
    }

    method Update(recent: seq<Signal>)
      modifies this
      ensures State() == Merge(old(State()), recent)
    {
      hide NewOnes, Keys;
      NoneOfNothing(recent, seen);
      if recent == [] { return; }
      var added: seq<Signal> := [];
      var i := 0;
      while i < |recent|
        invariant 0 <= i <= |recent| && signals == old(signals)
        invariant added == NewOnes(recent, i, old(seen))
        invariant seen == old(seen) + Keys(recent[..i])
        invariant added == [] ==> seen == old(seen)
      {
        var key := KeyOf(recent[i]);
        KeysSnoc(recent, i);
        SkipOrAppend(recent, i, old(seen), key !in seen);
        if key !in seen {
          seen := seen + {key};
          added := added + [recent[i]];
        }
        i := i + 1;
      }
      assert recent[..i] == recent;
      if added == [] { return; }
      var merged := added + signals;
      if |merged| >= MAX_SIGNALS {
        merged := merged[..MAX_SIGNALS];
      }
      if |seen| > MAX_SIGNALS * 2 {
        seen := Keys(merged);
      }
      signals := merged;
    }
  }

  lemma {:induction false} KeysSnoc(s: seq<Signal>, n: nat)
    requires n < |s|
    ensures Keys(s[..n + 1]) == Keys(s[..n]) + {KeyOf(s[n])}
  {
    forall k ensures k in Keys(s[..n + 1]) <==> k in Keys(s[..n]) + {KeyOf(s[n])} {
      if k in Keys(s[..n + 1]) {
        var i :| 0 <= i < n + 1 && KeyOf(s[..n + 1][i]) == k;
        if i < n { assert s[..n][i] == s[i]; }
      }
      if k in Keys(s[..n]) {
        var i :| 0 <= i < n && KeyOf(s[..n][i]) == k;
        assert s[..n + 1][i] == s[i];
      }
      assert s[..n + 1][n] == s[n];
    }
  }

  lemma {:induction false} KeysAreFew(s: seq<Signal>)
    ensures |Keys(s)| <= |s|
  {
    if s == [] {
      assert Keys(s) == {};
    } else {
      var n := |s| - 1;
      KeysAreFew(s[..n]);
      KeysSnoc(s, n);
      assert s[..n + 1] == s;
    }
  }

  /** What links the list to the engine's firing log of length n. */
  ghost predicate Mirrors(v: View, log: seq<Signal>, n: nat)
    requires n <= |log|
  {
    && v.signals == NewestFirst(log[..n], MAX_SIGNALS)
    && Keys(v.signals) <= v.seen <= Keys(log[..n])
    && |v.seen| <= 2 * MAX_SIGNALS
  }

  lemma {:induction false} KeyInPrefix(log: seq<Signal>, n: nat, i: nat)
    requires n <= |log| && i < |log| && DistinctKeys(log)
    ensures KeyOf(log[i]) in Keys(log[..n]) <==> i < n
  {
    if i < n { assert log[..n][i] == log[i]; }
    if KeyOf(log[i]) in Keys(log[..n]) {
      var j :| 0 <= j < n && KeyOf(log[..n][j]) == KeyOf(log[i]);
      assert log[..n][j] == log[j];
    }
  }

  /** A signal fired before the last merge is already seen if it is still among the recent ones. */
  lemma {:induction false} OldIsSeen(v: View, log: seq<Signal>, n: nat, i: nat)
    requires i < n <= |log| && Mirrors(v, log, n) && n - i <= MAX_SIGNALS
    ensures KeyOf(log[i]) in v.seen
  {
    assert v.signals[n - 1 - i] == log[..n][i] == log[i];
    assert KeyOf(v.signals[n - 1 - i]) in Keys(v.signals);
  }

  /** A signal fired since the last merge is in no way known yet. */
  lemma {:induction false} LateIsUnseen(v: View, log: seq<Signal>, n: nat, i: nat)
    requires n <= i < |log| && DistinctKeys(log) && Mirrors(v, log, n)
    ensures KeyOf(log[i]) !in v.seen
  {
    KeyInPrefix(log, n, i);
  }

  lemma NewestAt(log: seq<Signal>, m: nat, j: nat)
    requires m <= |log| && j < m && j < MAX_SIGNALS
    ensures NewestFirst(log[..m], MAX_SIGNALS)[j] == log[m - 1 - j]
  {
  }

  lemma SkipOrAppend(recent: seq<Signal>, j: nat, seen: set<SignalKey>, unseen: bool)
    requires j < |recent| && (unseen <==> KeyOf(recent[j]) !in seen + Keys(recent[..j]))
    ensures NewOnes(recent, j + 1, seen) == NewOnes(recent, j, seen) + (if unseen then [recent[j]] else [])
    ensures recent[..j + 1] == recent[..j] + [recent[j]]
  {
  }

  lemma TakeNext(s: seq<Signal>, j: nat, k: nat)
    requires j < |s|
    ensures s[..if j + 1 < k then j + 1 else if k < |s| then k else |s|]
         == s[..if j < k then j else if k < |s| then k else |s|] + (if j < k then [s[j]] else [])
  {
  }

  lemma NoneOfNothing(recent: seq<Signal>, seen: set<SignalKey>)
    ensures NewOnes(recent, 0, seen) == [] && Keys(recent[..0]) == {}
  {
  }

  /** Of the recent signals exactly those fired since the last merge are new. */
  lemma {:induction false} NewOnesAreTheLatest(v: View, log: seq<Signal>, n: nat, m: nat, j: nat)
    requires n <= m <= |log| && DistinctKeys(log) && Mirrors(v, log, n)
    requires j <= m && j <= MAX_SIGNALS
    ensures var recent := NewestFirst(log[..m], MAX_SIGNALS);
      NewOnes(recent, j, v.seen) == recent[..if j < m - n then j else m - n]
    decreases j
  {
    hide NewOnes, Mirrors, DistinctKeys, Keys;
    var recent := NewestFirst(log[..m], MAX_SIGNALS);
    if j == 0 {
      NoneOfNothing(recent, v.seen);
    } else {
      var i := m - j;
      NewOnesAreTheLatest(v, log, n, m, j - 1);
      TakeNext(recent, j - 1, m - n);
      NewestAt(log, m, j - 1);
      if i >= n {
        LateIsUnseen(v, log, n, i);
        EarlierAreOther(log, m, j - 1);
        SkipOrAppend(recent, j - 1, v.seen, true);
      } else {
        OldIsSeen(v, log, n, i);
        SkipOrAppend(recent, j - 1, v.seen, false);
      }
    }
  }

  lemma {:induction false} EarlierAreOther(log: seq<Signal>, m: nat, j: nat)
    requires m <= |log| && DistinctKeys(log) && j < m && j < MAX_SIGNALS
    ensures KeyOf(NewestFirst(log[..m], MAX_SIGNALS)[j]) !in Keys(NewestFirst(log[..m], MAX_SIGNALS)[..j])
  {
    var recent := NewestFirst(log[..m], MAX_SIGNALS);
    NewestAt(log, m, j);
    forall i | 0 <= i < j ensures KeyOf(recent[..j][i]) != KeyOf(recent[j]) {
      NewestAt(log, m, i);
    }
  }

  lemma {:induction false} RecentKeysAreLogged(log: seq<Signal>, m: nat)
    requires m <= |log|
    ensures Keys(NewestFirst(log[..m], MAX_SIGNALS)) <= Keys(log[..m])
  {
  }

  lemma {:induction false} PrefixKeys(log: seq<Signal>, n: nat, m: nat)
    requires n <= m <= |log|
    ensures Keys(log[..n]) <= Keys(log[..m])
  {
    forall k | k in Keys(log[..n]) ensures k in Keys(log[..m]) {
      var i :| 0 <= i < n && KeyOf(log[..n][i]) == k;
      assert log[..m][i] == log[..n][i];
    }
  }

  /** The new signals in front of the old list, cut to the limit, are the newest of the longer log. */
  lemma {:induction false} PrependLatest(log: seq<Signal>, n: nat, m: nat)
    requires n <= m <= |log|
    ensures var recent, latest := NewestFirst(log[..m], MAX_SIGNALS), if MAX_SIGNALS < m - n then MAX_SIGNALS else m - n;
      Take(recent[..latest] + NewestFirst(log[..n], MAX_SIGNALS), MAX_SIGNALS) == recent
  {
  }

  /** A merge takes the list from one firing log to any later one. */
  lemma {:induction false} MergeKeepsMirror(v: View, log: seq<Signal>, n: nat, m: nat)
    requires n <= m <= |log| && DistinctKeys(log) && Mirrors(v, log, n)
    ensures Mirrors(Merge(v, NewestFirst(log[..m], MAX_SIGNALS)), log, m)
  {
    var recent := NewestFirst(log[..m], MAX_SIGNALS);
    NewOnesAreTheLatest(v, log, n, m, |recent|);
    var added := NewOnes(recent, |recent|, v.seen);
    assert added == recent[..if MAX_SIGNALS < m - n then MAX_SIGNALS else m - n];
    if added == [] {
      assert log[..n] == log[..m];
    } else {
      PrependLatest(log, n, m);
      KeysAreFew(recent);
      RecentKeysAreLogged(log, m);
      PrefixKeys(log, n, m);
      MergedSeen(v, log, n, m);
    }
  }

  lemma {:induction false} MergedSeen(v: View, log: seq<Signal>, n: nat, m: nat)
    requires n <= m <= |log| && Keys(log[..n]) <= Keys(log[..m]) && v.seen <= Keys(log[..n])
    requires Keys(NewestFirst(log[..m], MAX_SIGNALS)) <= Keys(log[..m])
    ensures v.seen + Keys(NewestFirst(log[..m], MAX_SIGNALS)) <= Keys(log[..m])
  {
  }

  /** The dashboard after receiving these snapshots, in order; any snapshot may have been skipped. */
  function ViewAfter(snaps: seq<EngineSnapshot>): View {
    if snaps == [] then EmptyView else Merge(ViewAfter(snaps[..|snaps| - 1]), snaps[|snaps| - 1].recentSignals)
  }

  /** The snapshots show a growing log. */
  ghost predicate Growing(snaps: seq<EngineSnapshot>, log: seq<Signal>, at: seq<nat>) {
    && |snaps| == |at|
    && (forall i {:trigger at[i]} :: 0 <= i < |at| ==>
          at[i] <= |log| && snaps[i].recentSignals == NewestFirst(log[..at[i]], MAX_RECENT_SIGNALS))
    && (forall i, j {:trigger at[i], at[j]} :: 0 <= i < j < |at| ==> at[i] <= at[j])
  }

  function Newest(at: seq<nat>): nat { if at == [] then 0 else at[|at| - 1] }

  lemma {:induction false} ViewMirrors(snaps: seq<EngineSnapshot>, log: seq<Signal>, at: seq<nat>)
    requires DistinctKeys(log) && Growing(snaps, log, at)
    ensures Newest(at) <= |log| && Mirrors(ViewAfter(snaps), log, Newest(at))
    decreases |snaps|
  {
    if snaps == [] {
      assert Keys([]) == {};
    } else {
      var n := |snaps| - 1;
      assert Growing(snaps[..n], log, at[..n]);
      ViewMirrors(snaps[..n], log, at[..n]);
      assert Newest(at[..n]) <= at[n];
      MergeKeepsMirror(ViewAfter(snaps[..n]), log, Newest(at[..n]), at[n]);
    }
  }

  /** The length of the firing log when the k-th snapshot was published. */
  ghost function LogLength(cs: seq<Condition>, m: M.Machine, k: nat): nat
    requires Clocked(cs, m.history) && M.TakenInv(cs, m) && k < |m.taken|
  {
    |Run(cs, m.history[..m.takenAt[k]]).cool.log|
  }

  lemma {:induction false} TakenLog(cs: seq<Condition>, m: M.Machine, k: nat)
    requires Clocked(cs, m.history) && M.TakenInv(cs, m) && k < |m.taken|
    ensures var log, n := Run(cs, m.history).cool.log, LogLength(cs, m, k);
      n <= |log| && m.taken[k].recentSignals == NewestFirst(log[..n], MAX_RECENT_SIGNALS)
  {
    var own := Run(cs, m.history[..m.takenAt[k]]).cool.log;
    LogGrows(cs, m.history, m.takenAt[k]);
    assert Run(cs, m.history).cool.log[..|own|] == own;
  }

  lemma {:induction false} LogLengthGrows(cs: seq<Condition>, m: M.Machine, i: nat, j: nat)
    requires Clocked(cs, m.history) && M.TakenInv(cs, m) && i <= j < |m.taken|
    ensures LogLength(cs, m, i) <= LogLength(cs, m, j)
  {
    var a, b := m.takenAt[i], m.takenAt[j];
    assert a <= b;
    assert m.history[..b][..a] == m.history[..a];
    LogGrows(cs, m.history[..b], a);
  }

  /** The snapshots of a run show its growing firing log. */
  lemma {:induction false} TakenLogsGrow(cs: seq<Condition>, m: M.Machine) returns (at: seq<nat>)
    requires Clocked(cs, m.history) && M.TakenInv(cs, m)
    ensures Growing(m.taken, Run(cs, m.history).cool.log, at)
  {
    at := seq(|m.taken|, k requires 0 <= k < |m.taken| => LogLength(cs, m, k));
    forall i | 0 <= i < |at|
      ensures at[i] <= |Run(cs, m.history).cool.log|
      ensures m.taken[i].recentSignals == NewestFirst(Run(cs, m.history).cool.log[..at[i]], MAX_RECENT_SIGNALS)
    {
      TakenLog(cs, m, i);
    }
    forall i, j | 0 <= i < j < |at| ensures at[i] <= at[j] {
      LogLengthGrows(cs, m, i, j);
    }
  }

  lemma {:induction false} NewestAreDistinct(log: seq<Signal>, n: nat)
    requires n <= |log| && DistinctKeys(log)
    ensures DistinctKeys(NewestFirst(log[..n], MAX_SIGNALS))
  {
    var r := NewestFirst(log[..n], MAX_SIGNALS);
    forall i, j | 0 <= i < j < |r| ensures KeyOf(r[i]) != KeyOf(r[j]) {
      NewestAt(log, n, i);
      NewestAt(log, n, j);
    }
  }

  /** Whatever snapshots a monitor takes of a running engine whose firings have distinct keys: after
      each one the dashboard's list is the engine's list of recent signals, it holds no key twice,
      and the seen set has at most 100 keys. */
  lemma {:induction false} DistinctLogIsMirrored(cs: seq<Condition>, steps: seq<M.Step>, m: M.Machine)
    requires M.Runs(cs, M.Start, steps, m) && m.taken != []
    requires DistinctKeys(LogAfter(cs, m.history))
    ensures var v := ViewAfter(m.taken);
      && v.signals == m.taken[|m.taken| - 1].recentSignals
      && DistinctKeys(v.signals) && |v.seen| <= 100
  {
    M.StartInv(cs);
    M.RunKeepsInv(cs, M.Start, steps, m);
    var log := Run(cs, m.history).cool.log;
    var at := TakenLogsGrow(cs, m);
    ViewMirrors(m.taken, log, at);
    NewestAreDistinct(log, at[|at| - 1]);
  }

  /** Main theorem. Non-zero cooldowns and a clock that never steps back are enough for that. */
  lemma {:induction false} DashboardMirrorsEngine(cs: seq<Condition>, steps: seq<M.Step>, m: M.Machine)
    requires M.Runs(cs, M.Start, steps, m) && m.taken != []
    requires ClockNeverBack(m.history) && ConditionsCool(cs, 1)
    ensures var v := ViewAfter(m.taken);
      && v.signals == m.taken[|m.taken| - 1].recentSignals
      && DistinctKeys(v.signals) && |v.seen| <= 100
  {
    M.StartInv(cs);
    M.RunKeepsInv(cs, M.Start, steps, m);
    FiringsHaveDistinctKeys(cs, m.history);
    LogIsLogAfter(cs, m.history);
    DistinctLogIsMirrored(cs, steps, m);
  }
}
