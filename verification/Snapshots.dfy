/** What the engine publishes for its monitors (src/engine/processing_thread.cpp). */
module Snapshots {
  import Levels
  import Aggregators
  import opened Signals
  import opened Engine

  const MAX_RECENT_SIGNALS: nat := 50

  datatype SymbolSnapshot = SymbolSnapshot(
    bids: seq<Levels.Level>, asks: seq<Levels.Level>, aggregation: Aggregators.Snapshot,
    bestBid: real, bestAsk: real, spread: real, mid: real, updateCount: nat)

  datatype EngineSnapshot = EngineSnapshot(
    symbols: map<Symbol, SymbolSnapshot>, recentSignals: seq<Signal>,
    processed: nat, tradesProcessed: nat, signalsFired: nat)

  /** The newest n entries of a log, newest first. */
  function NewestFirst<T>(log: seq<T>, n: nat): (r: seq<T>)
    ensures |r| == if |log| < n then |log| else n
    ensures forall i {:trigger r[i]} :: 0 <= i < |r| ==> r[i] == log[|log| - 1 - i]
  {
    seq(if |log| < n then |log| else n, i requires 0 <= i < |log| => log[|log| - 1 - i])
  }

  /** The signal callback: `push_front`, then `pop_back` beyond the limit. */
  function PushFront(recent: seq<Signal>, sig: Signal): seq<Signal> {
    if |recent| + 1 > MAX_RECENT_SIGNALS then ([sig] + recent)[..|recent|] else [sig] + recent
  }

  /** The bounded list always holds the newest signals of the whole firing log. */
  lemma PushFrontIsNewest(log: seq<Signal>, sig: Signal)
    ensures PushFront(NewestFirst(log, MAX_RECENT_SIGNALS), sig) == NewestFirst(log + [sig], MAX_RECENT_SIGNALS)
  {
  }

  function SymbolSnapshotOf(st: SymState): SymbolSnapshot {
    SymbolSnapshot(st.book.bids, st.book.asks, st.agg.snap, st.book.BestBid(), st.book.BestAsk(),
                   st.book.Spread(), st.book.Mid(), st.book.updates)
  }

  /** The snapshot that belongs to an engine state. */
  function SnapshotOf(e: State): EngineSnapshot {
    EngineSnapshot(map s | s in e.states :: SymbolSnapshotOf(e.states[s]),
                   NewestFirst(e.cool.log, MAX_RECENT_SIGNALS), e.processed, e.tradesProcessed, |e.cool.log|)
  }
}

/** The processing thread and a monitor thread interleaved. The processing thread changes the
    counters, the states and the recent signals step by step; only its last step, under the
    mutex, replaces the snapshot that `take_snapshot` copies under the same mutex. */
module SnapshotMachine {
  import opened Signals
  import opened Engine
  import opened Sharding
  import opened Snapshots
  import opened Published

  datatype Phase =
    | Waiting
    | Counted(ev: Event)                               // processed_ incremented
    | Firing(ev: Event, attempts: seq<Attempt>, done: nat)  // state updated, triggers being tried
    | Finished(ev: Event)                              // about to publish

  datatype Machine = Machine(
    states: map<Symbol, SymState>, cool: Cooldowns, processed: nat, tradesProcessed: nat,
    signalsFired: nat, recent: seq<Signal>,
    snapshot: EngineSnapshot,
    phase: Phase,
    history: seq<Event>,           // messages completely processed
    taken: seq<EngineSnapshot>,    // what the monitor has seen
    takenAt: seq<nat>)             // and after how many published messages

  datatype Step = Dequeue(ev: Event) | UpdateState | TryNext | Publish | Take

  ghost predicate Enabled(cs: seq<Condition>, m: Machine, step: Step) {
    match step
    case Dequeue(ev) => m.phase.Waiting? && |ev.clock| == |cs|
    case UpdateState => m.phase.Counted? && |m.phase.ev.clock| == |cs|
    case TryNext => m.phase.Firing?
    case Publish => m.phase.Finished?
    case Take => true
  }

  function LiveState(m: Machine, s: Symbol): SymState {
    if s in m.states then m.states[s] else FreshState
  }

  /** One attempt: the callback counts the signal and puts it in front of the recent ones. */
  function AfterTry(m: Machine, a: Attempt): Machine {
    if Fires(m.cool, a)
    then m.(cool := Try(m.cool, a), signalsFired := m.signalsFired + 1, recent := PushFront(m.recent, a.signal))
    else m.(cool := Try(m.cool, a))
  }

  ghost function Next(cs: seq<Condition>, m: Machine, step: Step): Machine
    requires Enabled(cs, m, step)
  {
    match step
    case Dequeue(ev) => m.(processed := m.processed + 1, phase := Counted(ev))
    case UpdateState =>
      var ev := m.phase.ev;
      (match ev.message
       case Depth(u) =>
         var st := AfterDepth(LiveState(m, u.symbol), u);
         m.(states := m.states[u.symbol := st], phase := Firing(ev, DepthAttempts(cs, st, u.symbol, ev.clock), 0))
       case TradeMessage(t) =>
         m.(states := m.states[t.symbol := AfterTrade(LiveState(m, t.symbol), t)],
            tradesProcessed := m.tradesProcessed + 1, phase := Finished(ev)))
    case TryNext =>
      if m.phase.done < |m.phase.attempts| then
        AfterTry(m, m.phase.attempts[m.phase.done]).(phase := m.phase.(done := m.phase.done + 1))
      else m.(phase := Finished(m.phase.ev))
    case Publish =>
      m.(snapshot := EngineSnapshot(map s | s in m.states :: SymbolSnapshotOf(m.states[s]),
                                    m.recent, m.processed, m.tradesProcessed, m.signalsFired),
         phase := Waiting, history := m.history + [m.phase.ev])
    case Take => m.(taken := m.taken + [m.snapshot], takenAt := m.takenAt + [|m.history|])
  }

  const Start: Machine := Machine(map[], NoCooldowns, 0, 0, 0, [], EngineSnapshot(map[], [], 0, 0, 0), Waiting, [], [], [])

  ghost predicate Runs(cs: seq<Condition>, m: Machine, steps: seq<Step>, m': Machine)
    decreases |steps|
  {
    if steps == [] then m == m'
    else Enabled(cs, m, steps[0]) && Runs(cs, Next(cs, m, steps[0]), steps[1..], m')
  }

  /** The live words of the machine as an engine state. */
  function Live(m: Machine): State {
    State(m.states, m.cool, m.processed, m.tradesProcessed)
  }

  /** What the live words are while the message after `history` is being processed. */
  ghost predicate PhaseInv(cs: seq<Condition>, m: Machine)
    requires Clocked(cs, m.history)
  {
    var e := Run(cs, m.history);
    match m.phase
    case Waiting => Live(m) == e
    case Counted(ev) => |ev.clock| == |cs| && Live(m) == e.(processed := e.processed + 1)
    case Firing(ev, attempts, done) =>
      && |ev.clock| == |cs| && ev.message.Depth? && done <= |attempts|
      && TryAll(e.cool, attempts) == Process(cs, e, ev).cool
      && Live(m) == Process(cs, e, ev).(cool := TryAll(e.cool, attempts[..done]))
    case Finished(ev) => |ev.clock| == |cs| && Live(m) == Process(cs, e, ev)
  }

  ghost predicate TakenInv(cs: seq<Condition>, m: Machine)
    requires Clocked(cs, m.history)
  {
    && |m.taken| == |m.takenAt|
    && (forall i {:trigger m.takenAt[i]} :: 0 <= i < |m.takenAt| ==>
          && m.takenAt[i] <= |m.history| && Clocked(cs, m.history[..m.takenAt[i]])
          && m.taken[i] == SnapshotOf(Run(cs, m.history[..m.takenAt[i]])))
    && (forall i, j {:trigger m.takenAt[i], m.takenAt[j]} :: 0 <= i < j < |m.takenAt| ==> m.takenAt[i] <= m.takenAt[j])
  }

  ghost predicate Inv(cs: seq<Condition>, m: Machine) {
    && Clocked(cs, m.history) && PhaseInv(cs, m) && TakenInv(cs, m)
    && m.recent == NewestFirst(m.cool.log, MAX_RECENT_SIGNALS) && m.signalsFired == |m.cool.log|
    && m.snapshot == SnapshotOf(Run(cs, m.history))
  }

  lemma {:induction false} StartInv(cs: seq<Condition>)
    ensures Inv(cs, Start)
  {
    assert SnapshotOf(Engine.Start).symbols == map[];
  }

  lemma {:induction false} TryNextKeepsInv(cs: seq<Condition>, m: Machine)
    requires Inv(cs, m) && m.phase.Firing?
    ensures Inv(cs, Next(cs, m, TryNext))
  {
    var Firing(ev, attempts, done) := m.phase;
    var e := Run(cs, m.history);
    if done < |attempts| {
      assert attempts[..done + 1][..done] == attempts[..done];
      assert TryAll(e.cool, attempts[..done + 1]) == Try(m.cool, attempts[done]);
      if Fires(m.cool, attempts[done]) {
        PushFrontIsNewest(m.cool.log, attempts[done].signal);
      }
    } else {
      assert attempts[..done] == attempts;
    }
  }

  lemma {:induction false} PublishKeepsInv(cs: seq<Condition>, m: Machine)
    requires Inv(cs, m) && m.phase.Finished?
    ensures Inv(cs, Next(cs, m, Publish))
  {
    var m' := Next(cs, m, Publish);
    RunSnoc(cs, m.history, m.phase.ev);
    forall i | 0 <= i < |m.takenAt| ensures m'.history[..m.takenAt[i]] == m.history[..m.takenAt[i]] {
    }
  }

  lemma {:induction false} UpdateKeepsInv(cs: seq<Condition>, m: Machine)
    requires Inv(cs, m) && Enabled(cs, m, UpdateState)
    ensures Inv(cs, Next(cs, m, UpdateState))
  {
    hide AfterDepth, AfterTrade, DepthAttempts, SnapshotOf, TryAll, TakenInv;
    var ev := m.phase.ev;
    if ev.message.Depth? {
      var attempts := Next(cs, m, UpdateState).phase.attempts;
      TryNone(m.cool, attempts);
    }
    assert TakenInv(cs, Next(cs, m, UpdateState)) by { SameTaken(cs, m, Next(cs, m, UpdateState)); }
  }

  lemma TryNone(c: Cooldowns, xs: seq<Attempt>)
    ensures TryAll(c, xs[..0]) == c
  {
  }

  lemma SameTaken(cs: seq<Condition>, m: Machine, m': Machine)
    requires Clocked(cs, m.history) && TakenInv(cs, m)
    requires m'.history == m.history && m'.taken == m.taken && m'.takenAt == m.takenAt
    ensures TakenInv(cs, m')
  {
    hide Engine.Run, SnapshotOf;
  }

  lemma {:induction false} DequeueKeepsInv(cs: seq<Condition>, m: Machine, ev: Event)
    requires Inv(cs, m) && Enabled(cs, m, Dequeue(ev))
    ensures Inv(cs, Next(cs, m, Dequeue(ev)))
  {
    hide Process, SnapshotOf;
  }

  lemma {:induction false} TakeKeepsInv(cs: seq<Condition>, m: Machine)
    requires Inv(cs, m)
    ensures Inv(cs, Next(cs, m, Take))
  {
    hide Process, SnapshotOf, PhaseInv;
    assert m.history[..|m.history|] == m.history;
    assert PhaseInv(cs, Next(cs, m, Take)) by { SamePhase(cs, m, Next(cs, m, Take)); }
  }

  lemma SamePhase(cs: seq<Condition>, m: Machine, m': Machine)
    requires Clocked(cs, m.history) && PhaseInv(cs, m)
    requires m'.history == m.history && m'.phase == m.phase && Live(m') == Live(m)
    ensures PhaseInv(cs, m')
  {
    hide Process, Engine.Run, TryAll;
  }

  lemma {:induction false} StepKeepsInv(cs: seq<Condition>, m: Machine, step: Step)
    requires Inv(cs, m) && Enabled(cs, m, step)
    ensures Inv(cs, Next(cs, m, step))
  {
    hide Inv, Next;
    match step
    case Dequeue(ev) => DequeueKeepsInv(cs, m, ev);
    case UpdateState => UpdateKeepsInv(cs, m);
    case TryNext => TryNextKeepsInv(cs, m);
    case Publish => PublishKeepsInv(cs, m);
    case Take => TakeKeepsInv(cs, m);
  }

  lemma {:induction false} RunKeepsInv(cs: seq<Condition>, m: Machine, steps: seq<Step>, m': Machine)
    requires Inv(cs, m) && Runs(cs, m, steps, m')
    ensures Inv(cs, m')
    decreases |steps|
  {
    if steps != [] {
      StepKeepsInv(cs, m, steps[0]);
      RunKeepsInv(cs, Next(cs, m, steps[0]), steps[1..], m');
    }
  }

  /** Every snapshot a monitor takes, however it is interleaved, is that of one message boundary:
      levels, best prices, statistics, counters and recent signals are all what the same prefix of
      the messages says, and later snapshots belong to no shorter prefix. */
  lemma {:induction false} SnapshotsAreBoundaries(cs: seq<Condition>, steps: seq<Step>, m: Machine, i: nat)
    requires Runs(cs, Start, steps, m) && i < |m.taken|
    ensures |m.taken| == |m.takenAt| && m.takenAt[i] <= |m.history| && Clocked(cs, m.history[..m.takenAt[i]])
    ensures m.taken[i] == SnapshotOf(Run(cs, m.history[..m.takenAt[i]]))
    ensures forall j :: i < j < |m.taken| ==> m.takenAt[i] <= m.takenAt[j]
    ensures m.taken[i].recentSignals == NewestFirst(Run(cs, m.history[..m.takenAt[i]]).cool.log, MAX_RECENT_SIGNALS)
    ensures IsEngineSnapshot(m.taken[i], cs, m.history[..m.takenAt[i]])
  {
    hide IsEngineSnapshot, Engine.Run;
    StartInv(cs);
    RunKeepsInv(cs, Start, steps, m);
    SnapshotMeans(cs, m.history[..m.takenAt[i]]);
  }
}
