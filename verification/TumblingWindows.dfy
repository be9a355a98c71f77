/** The fixed windows behind the volume average (src/engine/trade_aggregator.cpp): how a trade
    history is cut into consecutive runs. */
module TumblingWindows {
  import opened Masks
  import opened Words
  import opened Windows
  import opened TradeAggregators

  function Volume(ts: seq<Trade>): real {
    if ts == [] then 0.0 else Volume(ts[..|ts| - 1]) + ts[|ts| - 1].qty
  }

  // ---------------------------------------------------------------- conservation, any history

  /** Every window volume archived during a history, oldest first. */
  function Archived(ts: seq<Trade>, window: nat, n: nat): seq<real>
    requires window >= 1
  {
    if ts == [] then []
    else
      var st, t := Run(ts[..|ts| - 1], window, n), ts[|ts| - 1];
      Archived(ts[..|ts| - 1], window, n) + (if Closes(StartOf(st, t.timeMs), t.timeMs, window) then [st.current] else [])
  }

  /** Whatever the times, the deque holds the last `n` archived volumes, the average is theirs,
      and no traded volume is lost or counted twice. */
  lemma {:induction false} VolumeIsConserved(ts: seq<Trade>, window: nat, n: nat)
    requires window >= 1
    ensures var st, all := Run(ts, window, n), Archived(ts, window, n);
      && Sum(all) + st.current == Volume(ts)
      && st.completed == LastN(all, n) && st.snap.windows == |all|
      && st.snap.volumeSma == (if st.completed == [] then 0.0 else Mean(st.completed))
    decreases |ts|
  {
    if ts != [] {
      var init, t := ts[..|ts| - 1], ts[|ts| - 1];
      VolumeIsConserved(init, window, n);
      var st, all := Run(init, window, n), Archived(init, window, n);
      if Closes(StartOf(st, t.timeMs), t.timeMs, window) {
        PushIsLastN(all, st.current, n);
        assert (all + [st.current])[..|all|] == all;
      } else {
        assert Archived(ts, window, n) == all;
      }
    }
  }

  // ---------------------------------------------------------------- the partition into runs

  /** The first run reaches `window` ms from the first trade; every later run is one bucket of
      the time axis. */
  predicate StartsRun(rs: seq<seq<Trade>>, t: Trade, window: nat)
    requires window >= 1 && rs != [] && rs[|rs| - 1] != []
  {
    var first := rs[|rs| - 1][0].timeMs;
    if |rs| == 1 then t.timeMs >= first + window else t.timeMs / window != first / window
  }

  function Extend(rs: seq<seq<Trade>>, t: Trade): seq<seq<Trade>>
    requires rs != []
  {
    rs[..|rs| - 1] + [rs[|rs| - 1] + [t]]
  }

  ghost predicate NonEmptyRuns(rs: seq<seq<Trade>>) {
    forall i {:trigger rs[i]} :: 0 <= i < |rs| ==> rs[i] != []
  }

  /** The history cut into runs, by the times of the trades alone. */
  function Runs(ts: seq<Trade>, window: nat): (rs: seq<seq<Trade>>)
    requires window >= 1
    ensures NonEmptyRuns(rs) && (rs == [] <==> ts == [])
  {
    if ts == [] then []
    else
      var rs, t := Runs(ts[..|ts| - 1], window), ts[|ts| - 1];
      if rs == [] || StartsRun(rs, t, window) then rs + [[t]] else Extend(rs, t)
  }

  function Flatten(rs: seq<seq<Trade>>): seq<Trade> {
    if rs == [] then [] else Flatten(rs[..|rs| - 1]) + rs[|rs| - 1]
  }

  function Volumes(rs: seq<seq<Trade>>): seq<real> {
    if rs == [] then [] else Volumes(rs[..|rs| - 1]) + [Volume(rs[|rs| - 1])]
  }

  /** Positive, chronological times that leave room for one window below 2^64. */
  ghost predicate Timely(ts: seq<Trade>, window: nat) {
    Chronological(ts) && forall i {:trigger ts[i]} :: 0 <= i < |ts| ==> 0 < ts[i].timeMs && ts[i].timeMs + window < U64_SPAN
  }

  lemma {:induction false} RunsFlatten(ts: seq<Trade>, window: nat)
    requires window >= 1
    ensures Flatten(Runs(ts, window)) == ts
    decreases |ts|
  {
    if ts != [] {
      var init, t := ts[..|ts| - 1], ts[|ts| - 1];
      RunsFlatten(init, window);
      var rs: seq<seq<Trade>> := Runs(init, window);
      assert ts == init + [t];
      if rs == [] || StartsRun(rs, t, window) {
        assert (rs + [[t]])[..|rs|] == rs;
      } else {
        assert Extend(rs, t)[..|rs| - 1] == rs[..|rs| - 1];
        assert Flatten(Extend(rs, t)) == Flatten(rs) + [t];
      }
    }
  }

  /** What every run keeps: it spans less than a window; after the first one it stays inside one
      bucket, and later runs lie in later buckets. */
  ghost predicate RunIsTight(rs: seq<seq<Trade>>, window: nat, i: nat)
    requires window >= 1 && i < |rs| && rs[i] != []
  {
    forall a {:trigger rs[i][a]} :: 0 <= a < |rs[i]| ==>
      && rs[i][0].timeMs <= rs[i][a].timeMs < rs[i][0].timeMs + window
      && (i >= 1 ==> rs[i][a].timeMs / window == rs[i][0].timeMs / window)
  }

  ghost predicate Tight(rs: seq<seq<Trade>>, window: nat)
    requires window >= 1 && NonEmptyRuns(rs)
  {
    && (forall i {:trigger rs[i]} :: 0 <= i < |rs| ==> RunIsTight(rs, window, i))
    && (forall i, j {:trigger rs[i], rs[j]} :: 1 <= i < j < |rs| ==> rs[i][0].timeMs / window < rs[j][0].timeMs / window)
  }

  lemma {:induction false} SameBucketSpan(a: nat, b: nat, window: nat)
    requires window >= 1 && a <= b
    ensures a / window <= b / window
    ensures a / window == b / window ==> b < a + window
    ensures a / window != b / window <==> b >= (a - a % window) + window
  {
    var d := b / window - a / window;
    assert a == window * (a / window) + a % window && b == window * (b / window) + b % window;
    assert window * d == window * (b / window) - window * (a / window);
    Multiple(window, d);
  }

  lemma {:induction false} RunsAreTight(ts: seq<Trade>, window: nat)
    requires window >= 1 && Chronological(ts)
    ensures Tight(Runs(ts, window), window)
    ensures ts != [] ==> var rs := Runs(ts, window); rs[|rs| - 1][0].timeMs <= ts[|ts| - 1].timeMs
    decreases |ts|
  {
    hide RunIsTight;
    if ts == [] {
      OneRunIsTight([], window);
    } else {
      var init, t := ts[..|ts| - 1], ts[|ts| - 1];
      ChronologicalInit(ts);
      RunsAreTight(init, window);
      var rs: seq<seq<Trade>> := Runs(init, window);
      if init == [] {
        assert Runs(ts, window) == [[t]];
        OneRunIsTight([[t]], window);
      } else {
        assert init[|init| - 1].timeMs <= t.timeMs;
        AddKeepsTight(rs, t, window);
      }
    }
  }

  lemma OneRunIsTight(rs: seq<seq<Trade>>, window: nat)
    requires window >= 1 && NonEmptyRuns(rs) && |rs| <= 1 && forall i {:trigger rs[i]} :: 0 <= i < |rs| ==> |rs[i]| == 1
    ensures Tight(rs, window)
  {
  }

  lemma {:induction false} AddKeepsTight(rs: seq<seq<Trade>>, t: Trade, window: nat)
    requires window >= 1 && rs != [] && NonEmptyRuns(rs) && Tight(rs, window) && rs[|rs| - 1][0].timeMs <= t.timeMs
    ensures var rs' := if StartsRun(rs, t, window) then rs + [[t]] else Extend(rs, t);
      NonEmptyRuns(rs') && Tight(rs', window)
  {
    var last := |rs| - 1;
    var first := rs[last][0].timeMs;
    SameBucketSpan(first, t.timeMs, window);
    if StartsRun(rs, t, window) {
      var rs' := rs + [[t]];
      forall i | 0 <= i < |rs'| ensures RunIsTight(rs', window, i) {
        if i < |rs| { assert RunIsTight(rs, window, i); assert rs'[i] == rs[i]; }
      }
      forall i, j | 1 <= i < j < |rs'| ensures rs'[i][0].timeMs / window < rs'[j][0].timeMs / window {
        if i < last { assert rs[i][0].timeMs / window < rs[last][0].timeMs / window; }
      }
    } else {
      var rs' := Extend(rs, t);
      assert rs'[last][0] == rs[last][0];
      forall i | 0 <= i < |rs'| ensures RunIsTight(rs', window, i) {
        assert RunIsTight(rs, window, i);
        if i < last { assert rs'[i] == rs[i]; }
      }
      forall i, j | 1 <= i < j < |rs'| ensures rs'[i][0].timeMs / window < rs'[j][0].timeMs / window {
        assert rs[i][0].timeMs / window < rs[j][0].timeMs / window;
      }
    }
  }

  /** Two trades that came after the first archived window are in the same run exactly if they
      are in the same bucket of the time axis. */
  lemma SameRunIffSameBucket(ts: seq<Trade>, window: nat, i: nat, a: nat, j: nat, b: nat)
    requires window >= 1 && Chronological(ts)
    requires 1 <= i < |Runs(ts, window)| && 1 <= j < |Runs(ts, window)|
    requires a < |Runs(ts, window)[i]| && b < |Runs(ts, window)[j]|
    ensures i == j <==> Runs(ts, window)[i][a].timeMs / window == Runs(ts, window)[j][b].timeMs / window
  {
    var rs: seq<seq<Trade>> := Runs(ts, window);
    RunsAreTight(ts, window);
    assert RunIsTight(rs, window, i) && RunIsTight(rs, window, j);
    assert rs[i][a].timeMs / window == rs[i][0].timeMs / window;
    assert rs[j][b].timeMs / window == rs[j][0].timeMs / window;
  }

  /** The state knows the runs: `windowStart` is the start of the open one. */
  ghost predicate Agrees(st: TradeState, rs: seq<seq<Trade>>, archived: seq<real>, window: nat)
    requires window >= 1 && NonEmptyRuns(rs)
  {
    if rs == [] then st.windowStart == 0 && st.current == 0.0 && archived == []
    else
      var last := rs[|rs| - 1];
      && st.windowStart > 0 && st.current == Volume(last) && archived == Volumes(rs[..|rs| - 1])
      && st.windowStart == (if |rs| == 1 then last[0].timeMs else BucketStart(last[0].timeMs, window))
  }

  lemma {:induction false} TimelyInit(ts: seq<Trade>, window: nat)
    requires ts != [] && Timely(ts, window)
    ensures Timely(ts[..|ts| - 1], window)
  {
    ChronologicalInit(ts);
    var init := ts[..|ts| - 1];
    assert forall i {:trigger init[i]} :: 0 <= i < |init| ==> init[i] == ts[i];
  }

  /** What one trade does to the open window. */
  lemma StepFacts(st: TradeState, t: Trade, window: nat, n: nat)
    requires window >= 1
    ensures var st', closes := Step(st, t, window, n), Closes(StartOf(st, t.timeMs), t.timeMs, window);
      && st'.current == (if closes then 0.0 else st.current) + t.qty
      && st'.windowStart == (if closes then BucketStart(t.timeMs, window) else StartOf(st, t.timeMs))
  {
    hide Recompute, Expire, Closes, Push;
  }

  /** Window arithmetic: `start` is where the open run began, or the start of its bucket. */
  lemma CloseArithmetic(first: nat, start: u64, now: u64, window: nat)
    requires window >= 1 && start <= first <= now && now + window < U64_SPAN
    ensures Closes(start, now, window) <==> now >= start + window
    ensures start == first - first % window ==> (now >= start + window <==> now / window != first / window)
    ensures start > 0 && now >= start + window ==> now - now % window > 0
  {
    SameBucketSpan(first, now, window);
    if now >= start + window { LaterBucket(now, window); }
  }

  lemma LaterBucket(now: nat, window: nat)
    requires 1 <= window <= now
    ensures now - now % window > 0
  {
    assert now == window * (now / window) + now % window;
  }

  /** The code closes the open window exactly when the trade starts a new run. */
  lemma ClosesIffStartsRun(st: TradeState, rs: seq<seq<Trade>>, archived: seq<real>, t: Trade, window: nat)
    requires window >= 1 && rs != [] && NonEmptyRuns(rs) && Agrees(st, rs, archived, window)
    requires 0 < t.timeMs && t.timeMs + window < U64_SPAN && rs[|rs| - 1][0].timeMs <= t.timeMs
    ensures Closes(st.windowStart, t.timeMs, window) <==> StartsRun(rs, t, window)
    ensures Closes(st.windowStart, t.timeMs, window) ==> BucketStart(t.timeMs, window) > 0
  {
    hide Volume, Volumes, Closes;
    var first := rs[|rs| - 1][0].timeMs;
    CloseArithmetic(first, st.windowStart, t.timeMs, window);
  }

  lemma {:induction false} StartAgrees(st: TradeState, rs: seq<seq<Trade>>, archived: seq<real>, t: Trade, window: nat, n: nat)
    requires window >= 1 && rs != [] && NonEmptyRuns(rs) && Agrees(st, rs, archived, window)
    requires Closes(st.windowStart, t.timeMs, window) && BucketStart(t.timeMs, window) > 0
    ensures Agrees(Step(st, t, window, n), rs + [[t]], archived + [st.current], window)
  {
    hide Step, Closes, BucketStart;
    StepFacts(st, t, window, n);
    assert (rs + [[t]])[..|rs|] == rs;
    assert [t][..0] == [];
    assert StartOf(st, t.timeMs) == st.windowStart;
    assert Volume([t]) == t.qty;
    assert Step(st, t, window, n).current == t.qty;
    assert archived + [st.current] == Volumes(rs);
  }

  lemma {:induction false} ExtendAgrees(st: TradeState, rs: seq<seq<Trade>>, archived: seq<real>, t: Trade, window: nat, n: nat)
    requires window >= 1 && rs != [] && NonEmptyRuns(rs) && Agrees(st, rs, archived, window)
    requires !Closes(st.windowStart, t.timeMs, window)
    ensures Agrees(Step(st, t, window, n), Extend(rs, t), archived, window)
  {
    hide Step, Closes, BucketStart;
    StepFacts(st, t, window, n);
    var last := rs[|rs| - 1];
    assert Extend(rs, t)[..|rs| - 1] == rs[..|rs| - 1];
    assert (last + [t])[..|last|] == last;
  }

  lemma {:induction false} StepAgrees(st: TradeState, rs: seq<seq<Trade>>, archived: seq<real>, t: Trade, window: nat, n: nat)
    requires window >= 1 && rs != [] && NonEmptyRuns(rs) && Agrees(st, rs, archived, window)
    requires 0 < t.timeMs && t.timeMs + window < U64_SPAN && rs[|rs| - 1][0].timeMs <= t.timeMs
    ensures Closes(st.windowStart, t.timeMs, window) <==> StartsRun(rs, t, window)
    ensures StartsRun(rs, t, window) ==>
      Agrees(Step(st, t, window, n), rs + [[t]], archived + [st.current], window)
    ensures !StartsRun(rs, t, window) ==> Agrees(Step(st, t, window, n), Extend(rs, t), archived, window)
  {
    hide Agrees, Step, Closes, StartsRun;
    ClosesIffStartsRun(st, rs, archived, t, window);
    if StartsRun(rs, t, window) {
      StartAgrees(st, rs, archived, t, window, n);
    } else {
      ExtendAgrees(st, rs, archived, t, window, n);
    }
  }

  lemma {:induction false} FirstAgrees(st: TradeState, t: Trade, window: nat, n: nat)
    requires window >= 1 && st.windowStart == 0 && st.current == 0.0
    requires 0 < t.timeMs && t.timeMs + window < U64_SPAN
    ensures !Closes(StartOf(st, t.timeMs), t.timeMs, window)
    ensures Agrees(Step(st, t, window, n), [[t]], [], window)
  {
    assert [[t]][..0] == [];
    assert [t][..0] == [];
  }

  lemma {:induction false} StateAgrees(ts: seq<Trade>, window: nat, n: nat)
    requires window >= 1 && Timely(ts, window)
    ensures Agrees(Run(ts, window, n), Runs(ts, window), Archived(ts, window, n), window)
    decreases |ts|
  {
    if ts != [] {
      var init, t := ts[..|ts| - 1], ts[|ts| - 1];
      TimelyInit(ts, window);
      StateAgrees(init, window, n);
      var st, rs, archived := Run(init, window, n), Runs(init, window), Archived(init, window, n);
      assert Run(ts, window, n) == Step(st, t, window, n);
      if rs == [] {
        FirstAgrees(st, t, window, n);
        assert rs + [[t]] == [[t]];
        assert archived + [] == [];
      } else {
        RunsAreTight(init, window);
        assert init[|init| - 1].timeMs <= t.timeMs;
        StepAgrees(st, rs, archived, t, window, n);
      }
    }
  }

  /** Tumbling windows: a timely history splits into consecutive runs, each spanning less than
      the window; the deque holds the sums of the last `n` finished runs, the open accumulator is
      the sum of the last run, and one window is counted per finished run. */
  lemma TumblingWindowsPartition(ts: seq<Trade>, window: nat, n: nat)
    requires window >= 1 && ts != [] && Timely(ts, window)
    ensures var st, rs := Run(ts, window, n), Runs(ts, window);
      && Flatten(rs) == ts && Tight(rs, window)
      && st.completed == LastN(Volumes(rs[..|rs| - 1]), n) && st.current == Volume(rs[|rs| - 1])
      && st.snap.windows == |rs| - 1
      && Sum(Volumes(rs[..|rs| - 1])) + st.current == Volume(ts)
  {
    var rs: seq<seq<Trade>> := Runs(ts, window);
    RunsFlatten(ts, window);
    RunsAreTight(ts, window);
    StateAgrees(ts, window, n);
    VolumeIsConserved(ts, window, n);
    VolumesLength(rs[..|rs| - 1]);
  }

  lemma {:induction false} VolumesLength(rs: seq<seq<Trade>>)
    ensures |Volumes(rs)| == |rs|
  {
    if rs != [] { VolumesLength(rs[..|rs| - 1]); }
  }
}
