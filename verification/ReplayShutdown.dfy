/** What happens after `running` has been cleared: both worker threads stop after a bounded
    number of their own steps, and how many records a stale drain can leave behind. */
module ReplayShutdown {
  import opened Wrappers
  import opened Masks
  import Q = SpscMachine
  import opened ReplayProtocol

  // ---------------------------------------------------------------- termination

  /** Upper bound on the steps the replay thread still takes once running is false. */
  function ReplayRank<T>(s: State<T>): nat {
    match s.rpc
    case RDone => 0
    case RTop | RCheck | RFull(_) | REof => 1
    case RPauseRunning | RCount => 2
    case RPause => 3
    case RPush(_) =>
      (match s.q.prod case PWritten(_, _) => 3 case PReady(_, _) => 4 case PTail(_, _) => 5 case PIdle => 6)
    case RRead => 7
  }

  function PopRank<T>(s: State<T>): nat {
    match s.q.cons case CTaken(_, _) => 1 case CReady(_) => 2 case CHead(_) => 3 case CIdle => 4
  }

  /** The same for the processing thread; every record not yet popped may cost eight steps. */
  ghost function ProcRank<T>(s: State<T>): nat
    requires Inv(s)
  {
    8 * (|s.file| - Q.H(s.q)) +
    match s.cpc
    case CDone => 0
    case DPop => PopRank(s)
    case DWork(_) => 5
    case CTop => 5
    case CPop => 5 + PopRank(s)
    case CWork(_) => 6
  }

  ghost function WorkerSteps<T>(steps: seq<Step<T>>): nat {
    if steps == [] then 0
    else (if IsReplayStep(steps[0]) || IsProcStep(steps[0]) then 1 else 0) + WorkerSteps(steps[1..])
  }

  lemma ReplayRankFalls<T>(s: State<T>, step: Step<T>)
    requires Inv(s) && Enabled(s, step) && IsReplayStep(step) && !s.running
    ensures var s' := ReplayNext(s, step);
      ReplayRank(s') < ReplayRank(s) && s'.cpc == s.cpc && s'.q.cons == s.q.cons
      && s'.q.headStores == s.q.headStores && s'.file == s.file && !s'.running
  {
  }

  /** How far one consumer step gets. */
  lemma ConsumerProgress<T>(q: Q.State<T>, op: Q.Step<T>)
    requires Q.Inv(q) && Q.Enabled(q, op)
    requires op.PopStart? || op.PopLoadTail? || op.PopRead? || op.PopCommit?
    ensures var q' := Q.Next(q, op);
      && q'.prod == q.prod && |q'.headStores| > 0
      && Q.H(q') == Q.H(q) + (if op.PopCommit? then 1 else 0)
      && (op.PopStart? ==> q.cons.CIdle? && q'.cons.CHead?)
      && (op.PopLoadTail? ==> q.cons.CHead? && (q'.cons.CIdle? || q'.cons.CReady?))
      && (op.PopRead? ==> q.cons.CReady? && q'.cons.CTaken?)
      && (op.PopCommit? ==> q.cons.CTaken? && q'.cons.CIdle?)
  {
    Q.ConsumerFrame(q, op);
  }

  lemma PopRankFalls<T>(s: State<T>, op: Q.Step<T>)
    requires Inv(s) && Enabled(s, CQueue(op)) && Inv(PopNext(s, op))
    ensures ProcRank(PopNext(s, op)) < ProcRank(s)
    ensures PopNext(s, op).q.prod == s.q.prod
  {
    hide MainInv, ReplayInv, ProcInv, Q.Inv, Q.Next;
    ConsumerProgress(s.q, op);
  }

  lemma QueueStepFalls<T>(s: State<T>, op: Q.Step<T>)
    requires Inv(s) && Enabled(s, CQueue(op)) && !s.running && Inv(Next(s, CQueue(op)))
    ensures ProcRank(Next(s, CQueue(op))) < ProcRank(s)
    ensures ReplayRank(Next(s, CQueue(op))) == ReplayRank(s) && !Next(s, CQueue(op)).running
  {
    hide Inv, ProcRank;
    PopRankFalls(s, op);
  }

  lemma ProcRankFalls<T>(s: State<T>, step: Step<T>)
    requires Inv(s) && Enabled(s, step) && IsProcStep(step) && !s.running && Inv(Next(s, step))
    ensures ProcRank(Next(s, step)) < ProcRank(s)
    ensures ReplayRank(Next(s, step)) == ReplayRank(s) && !Next(s, step).running
  {
    match step
    case CQueue(op) => QueueStepFalls(s, op);
    case CLoadRunning =>
    case CProcess =>
  }

  lemma WorkerStepFalls<T>(s: State<T>, step: Step<T>)
    requires Inv(s) && !s.running && Enabled(s, step)
    ensures Inv(Next(s, step)) && !Next(s, step).running
    ensures ReplayRank(Next(s, step)) + ProcRank(Next(s, step)) + WorkerSteps([step]) <= ReplayRank(s) + ProcRank(s)
  {
    StepKeepsInv(s, step);
    assert [step][1..] == [];
    if IsReplayStep(step) {
      ReplayRankFalls(s, step);
    } else if IsProcStep(step) {
      ProcRankFalls(s, step);
    } else {
      MainFrame(s, step);
    }
  }

  /** Once running is false no run contains more than the rank's number of worker steps: neither
      a full queue, a pause nor a backlog can keep the threads from finishing. */
  lemma {:induction false} WorkersStop<T>(s: State<T>, steps: seq<Step<T>>, s': State<T>)
    requires Inv(s) && !s.running && Runs(s, steps, s')
    ensures Inv(s') && !s'.running
    ensures WorkerSteps(steps) + ReplayRank(s') + ProcRank(s') <= ReplayRank(s) + ProcRank(s)
    decreases |steps|
  {
    if steps != [] {
      WorkerStepFalls(s, steps[0]);
      WorkersStop(Next(s, steps[0]), steps[1..], s');
      assert WorkerSteps(steps) == WorkerSteps([steps[0]]) + WorkerSteps(steps[1..]) by { assert [steps[0]][1..] == []; }
    }
  }

  /** A worker that has not finished always has a step it can take, so main's joins return. */
  lemma ReplayIsNeverBlocked<T>(s: State<T>) returns (step: Step<T>)
    requires Inv(s) && !s.rpc.RDone?
    ensures IsReplayStep(step) && Enabled(s, step)
  {
    step := match s.rpc
      case RPause => RLoadPaused
      case RRead => RReadNext
      case REof => RStoreFinished
      case RCount => RIncrement
      case RPush(item) =>
        (match s.q.prod
         case PIdle => RQueue(Q.PushStart(item))
         case PTail(_, _) => RQueue(Q.PushLoadHead(Q.H(s.q)))
         case PReady(_, _) => RQueue(Q.PushWrite)
         case PWritten(_, _) => RQueue(Q.PushCommit))
      case _ => RLoadRunning;
  }

  lemma ProcIsNeverBlocked<T>(s: State<T>, leftover: T) returns (step: Step<T>)
    requires Inv(s) && !s.cpc.CDone?
    ensures IsProcStep(step) && Enabled(s, step)
  {
    var tail := Q.T(s.q);
    if s.cpc.CTop? {
      step := CLoadRunning;
    } else if s.cpc.CWork? || s.cpc.DWork? {
      step := CProcess;
    } else {
      step := CQueue(match s.q.cons
                     case CIdle => Q.PopStart
                     case CHead(_) => Q.PopLoadTail(tail)
                     case CReady(_) => Q.PopRead(leftover)
                     case CTaken(_, _) => Q.PopCommit);
    }
  }

  // ---------------------------------------------------------------- pause

  /** Records a replay thread that has passed its test of `paused` may still read. */
  function Allowance<T>(s: State<T>): nat {
    if s.rpc.RRead? || (s.rpc.RCheck? && s.running) then 1 else 0
  }

  lemma PausedStep<T>(s: State<T>, step: Step<T>)
    requires Enabled(s, step) && s.paused && step != SetPaused(false) && !step.MUnpause?
    ensures var s' := Next(s, step);
      s'.paused && s.pos <= s'.pos && s'.pos + Allowance(s') <= s.pos + Allowance(s)
  {
    hide Q.Next, Q.Enabled, PushNext, PopNext;
    match step
    case RQueue(op) => PushReadsNothing(s, op);
    case CQueue(op) => PopReadsNothing(s, op);
    case _ =>
      if !IsReplayStep(step) { OthersReadNothing(s, step); }
  }

  lemma OthersReadNothing<T>(s: State<T>, step: Step<T>)
    requires Enabled(s, step) && !IsReplayStep(step) && !step.CQueue?
    ensures var s' := Next(s, step);
      && s'.pos == s.pos && s'.rpc == s.rpc && (s'.running ==> s.running)
      && (step != SetPaused(false) && !step.MUnpause? && s.paused ==> s'.paused)
  {
    hide Q.Next, Q.Enabled, ReplayNext, PushNext, PopNext;
  }

  lemma PushReadsNothing<T>(s: State<T>, op: Q.Step<T>)
    requires Enabled(s, RQueue(op))
    ensures var s' := PushNext(s, op);
      s' == s.(q := s'.q, rpc := s'.rpc) && (s'.rpc.RPush? || s'.rpc.RCount? || s'.rpc.RFull?)
  {
    hide Q.Next, Q.Enabled;
  }

  lemma PopReadsNothing<T>(s: State<T>, op: Q.Step<T>)
    requires Enabled(s, CQueue(op))
    ensures var s' := PopNext(s, op);
      s' == s.(q := s'.q, cpc := s'.cpc, drainTail := s'.drainTail, drainView := s'.drainView)
  {
    hide Q.Next, Q.Enabled;
  }

  /** While a replay is paused it reads at most one more record, and none once the thread has come to its
      test of `paused`: whatever the other threads do. */
  lemma {:induction false} PausedReplayStops<T>(s: State<T>, steps: seq<Step<T>>, s': State<T>)
    requires Runs(s, steps, s') && s.paused
    requires forall i {:trigger steps[i]} :: 0 <= i < |steps| ==> steps[i] != SetPaused(false) && !steps[i].MUnpause?
    ensures s'.paused && s.pos <= s'.pos && s'.pos + Allowance(s') <= s.pos + Allowance(s)
    decreases |steps|
  {
    hide Allowance, Enabled, Next;
    if steps != [] {
      PausedStep(s, steps[0]);
      PausedReplayStops(Next(s, steps[0]), steps[1..], s');
    }
  }

  // ---------------------------------------------------------------- stale drains

  lemma {:induction false} RunsSnoc<T>(a: State<T>, p: seq<Step<T>>, b: State<T>, step: Step<T>)
    requires Runs(a, p, b) && Enabled(b, step)
    ensures Runs(a, p + [step], Next(b, step))
    decreases |p|
  {
    if p == [] {
      assert [step][1..] == [];
      assert p + [step] == [step];
    } else {
      RunsSnoc(Next(a, p[0]), p[1..], b, step);
      assert (p + [step])[1..] == p[1..] + [step];
    }
  }

  /** Extends a run by one step. */
  lemma Take<T>(a: State<T>, p: seq<Step<T>>, b: State<T>, step: Step<T>) returns (p': seq<Step<T>>, b': State<T>)
    requires Runs(a, p, b) && Inv(b) && Enabled(b, step)
    ensures Runs(a, p', b') && Inv(b') && b' == Next(b, step)
  {
    p', b' := p + [step], Next(b, step);
    RunsSnoc(a, p, b, step);
    StepKeepsInv(b, step);
  }

  /** The replay thread has pushed n records; the processing thread has not run yet. */
  ghost predicate Ahead<T>(s: State<T>, n: nat) {
    && Inv(s) && s.running && !s.paused && !s.finished && s.rpc.RTop? && s.cpc.CTop? && s.mpc.MTop?
    && Q.T(s.q) == n && Q.H(s.q) == 0 && s.q.seenHead == 0 && s.q.seenTail == 0 && s.q.cons.CIdle?
  }

  /** The replay thread takes the next record off the file. */
  lemma ReadAhead<T>(a: State<T>, p: seq<Step<T>>, b: State<T>, n: nat) returns (p': seq<Step<T>>, b': State<T>)
    requires Runs(a, p, b) && Inv(b) && b.running && !b.paused && b.rpc.RTop? && Q.T(b.q) == n < |b.file|
    ensures Runs(a, p', b') && Inv(b') && b' == b.(rpc := RPush(b.file[n]), pos := n + 1)
  {
    TopIsEven(b);
    p', b' := Take(a, p, b, RLoadRunning);
    assert b' == b.(rpc := RPause);
    p', b' := Take(a, p', b', RLoadPaused);
    assert b' == b.(rpc := RCheck);
    p', b' := Take(a, p', b', RLoadRunning);
    assert b' == b.(rpc := RRead);
    p', b' := Take(a, p', b', RReadNext);
  }

  lemma TopIsEven<T>(b: State<T>)
    requires Inv(b) && b.rpc.RTop?
    ensures b.pos == Q.T(b.q) == b.replayed && b.q.prod.PIdle?
  {
  }

  lemma SeeRoom<T>(b: State<T>, item: T, slot: nat, view: nat)
    requires Inv(b) && b.rpc.RPush? && b.q.prod == Q.PTail(item, slot) && b.q.seenHead <= view <= Q.H(b.q)
    requires Q.T(b.q) + 1 < view + |b.q.buffer|
    ensures Enabled(b, RQueue(Q.PushLoadHead(view)))
    ensures Next(b, RQueue(Q.PushLoadHead(view))) == b.(q := b.q.(seenHead := view, prod := Q.PReady(item, slot)))
  {
    Q.FullTest(b.q, view);
  }

  /** It finds room, with any view of the head that shows room. */
  lemma WriteAhead<T>(a: State<T>, p: seq<Step<T>>, b: State<T>, view: nat) returns (p': seq<Step<T>>, b': State<T>)
    requires Runs(a, p, b) && Inv(b) && b.rpc.RPush? && b.q.prod.PIdle? && b.q.seenHead <= view <= Q.H(b.q)
    requires Q.T(b.q) + 1 < view + |b.q.buffer|
    ensures Runs(a, p', b') && Inv(b') && b'.q.prod.PReady?
    ensures b' == b.(q := b.q.(prod := b'.q.prod, seenHead := view))
  {
    p', b' := Take(a, p, b, RQueue(Q.PushStart(b.rpc.item)));
    SeeRoom(b', b.rpc.item, b'.q.prod.slot, view);
    p', b' := Take(a, p', b', RQueue(Q.PushLoadHead(view)));
  }

  /** Writes, commits and counts. */
  lemma CommitAhead<T>(a: State<T>, p: seq<Step<T>>, b: State<T>) returns (p': seq<Step<T>>, b': State<T>)
    requires Runs(a, p, b) && Inv(b) && b.rpc.RPush? && b.q.prod.PReady?
    ensures Runs(a, p', b') && Inv(b') && b'.rpc.RTop? && Q.T(b'.q) == Q.T(b.q) + 1 && |b'.q.buffer| == |b.q.buffer|
    ensures b' == b.(q := b'.q, rpc := RTop, replayed := b.replayed + 1)
    ensures b'.q.cons == b.q.cons && b'.q.headStores == b.q.headStores && b'.q.seenTail == b.q.seenTail && b'.q.seenHead == b.q.seenHead
  {
    hide Inv, Enabled, Next;
    WriteItem(b);
    p', b' := Take(a, p, b, RQueue(Q.PushWrite));
    CommitPush(b');
    p', b' := Take(a, p', b', RQueue(Q.PushCommit));
    CountPush(b');
    p', b' := Take(a, p', b', RIncrement);
  }

  lemma WriteItem<T>(b: State<T>)
    requires Inv(b) && b.rpc.RPush? && b.q.prod.PReady?
    ensures var item, slot := b.q.prod.item, b.q.prod.slot;
      && slot < |b.q.buffer| && Enabled(b, RQueue(Q.PushWrite))
      && Next(b, RQueue(Q.PushWrite)) == b.(q := b.q.(buffer := b.q.buffer[slot := item], prod := Q.PWritten(item, slot)))
  {
    SlotInRange(b);
  }

  lemma CommitPush<T>(b: State<T>)
    requires Inv(b) && b.rpc.RPush? && b.q.prod.PWritten?
    ensures Enabled(b, RQueue(Q.PushCommit)) && Q.WellFormed(b.q)
    ensures Next(b, RQueue(Q.PushCommit)) == b.(rpc := RCount,
      q := b.q.(tailStores := b.q.tailStores + [Q.Advance(b.q.prod.slot, |b.q.buffer|)],
                pushed := b.q.pushed + [b.q.prod.item], prod := Q.PIdle))
  {
  }

  lemma CountPush<T>(b: State<T>)
    requires Inv(b) && b.rpc.RCount?
    ensures Enabled(b, RIncrement) && Next(b, RIncrement) == b.(replayed := b.replayed + 1, rpc := RTop)
  {
  }

  lemma SlotInRange<T>(b: State<T>)
    requires Inv(b) && b.q.prod.PReady?
    ensures b.q.prod.slot < |b.q.buffer|
  {
  }

  lemma PushOne<T>(a: State<T>, p: seq<Step<T>>, b: State<T>, n: nat, view: nat) returns (p': seq<Step<T>>, b': State<T>)
    requires Runs(a, p, b) && Inv(b) && b.running && !b.paused && b.rpc.RTop? && Q.T(b.q) == n < |b.file|
    requires b.q.seenHead <= view <= Q.H(b.q) && n + 1 < view + |b.q.buffer|
    ensures Runs(a, p', b') && Inv(b') && b'.rpc.RTop? && Q.T(b'.q) == n + 1 && |b'.q.buffer| == |b.q.buffer|
    ensures b' == b.(q := b'.q, replayed := b'.replayed, pos := b'.pos)
    ensures b'.q.cons == b.q.cons && b'.q.headStores == b.q.headStores && b'.q.seenTail == b.q.seenTail && b'.q.seenHead == view
  {
    hide Inv, Q.Next, Next;
    TopIsEven(b);
    p', b' := ReadAhead(a, p, b, n);
    p', b' := WriteAhead(a, p', b', view);
    p', b' := CommitAhead(a, p', b');
  }

  lemma PushAhead<T>(a: State<T>, p: seq<Step<T>>, b: State<T>, n: nat) returns (p': seq<Step<T>>, b': State<T>)
    requires Runs(a, p, b) && Ahead(b, n) && n < |b.file| && n + 1 < |b.q.buffer|
    ensures Runs(a, p', b') && Ahead(b', n + 1) && b'.file == b.file && |b'.q.buffer| == |b.q.buffer|
  {
    hide Inv;
    p', b' := PushOne(a, p, b, n, 0);
  }

  lemma {:induction false} PushManyAhead<T>(buffer: seq<T>, file: seq<T>, n: nat) returns (p: seq<Step<T>>, b: State<T>)
    requires IsPow2(|buffer|) && n <= |file| && n < |buffer|
    ensures Runs(Init(buffer, file), p, b) && Ahead(b, n) && b.file == file && |b.q.buffer| == |buffer|
  {
    if n == 0 {
      p, b := [], Init(buffer, file);
      InitInv(buffer, file);
    } else {
      p, b := PushManyAhead(buffer, file, n - 1);
      p, b := PushAhead(Init(buffer, file), p, b, n - 1);
    }
  }

  /** The replay thread has read record n and its push was refused by a full queue. */
  lemma RefusedAhead<T>(a: State<T>, p: seq<Step<T>>, b: State<T>, n: nat) returns (p': seq<Step<T>>, b': State<T>)
    requires Runs(a, p, b) && Ahead(b, n) && n < |b.file| && n + 1 == |b.q.buffer|
    ensures Runs(a, p', b') && Inv(b') && b' == b.(rpc := RFull(b.file[n]), pos := n + 1)
  {
    p', b' := ReadAhead(a, p, b, n);
    p', b' := Take(a, p', b', RQueue(Q.PushStart(b'.rpc.item)));
    SeeFull(b', b'.rpc.item, b'.q.prod.slot);
    p', b' := Take(a, p', b', RQueue(Q.PushLoadHead(0)));
  }

  lemma SeeFull<T>(b: State<T>, item: T, slot: nat)
    requires Inv(b) && b.rpc.RPush? && b.q.prod == Q.PTail(item, slot) && b.q.seenHead == 0
    requires Q.T(b.q) + 1 == |b.q.buffer|
    ensures Enabled(b, RQueue(Q.PushLoadHead(0)))
    ensures Next(b, RQueue(Q.PushLoadHead(0))) == b.(q := b.q.(prod := Q.PIdle), rpc := RFull(b.rpc.item))
  {
    Q.FullTest(b.q, 0);
  }

  /** running is cleared; the replay thread notices and returns, the processing thread turns to its drain loop. */
  lemma StopWorkers<T>(a: State<T>, p: seq<Step<T>>, b: State<T>) returns (p': seq<Step<T>>, b': State<T>)
    requires Runs(a, p, b) && Inv(b) && (b.rpc.RTop? || b.rpc.RFull?) && b.cpc.CTop?
    ensures Runs(a, p', b') && Inv(b') && b' == b.(running := false, rpc := RDone, cpc := DPop)
  {
    p', b' := Take(a, p, b, Signal);
    assert b' == b.(running := false);
    p', b' := Take(a, p', b', RLoadRunning);
    assert b' == b.(running := false, rpc := RDone);
    p', b' := Take(a, p', b', CLoadRunning);
  }

  lemma SeeStaleEmpty<T>(b: State<T>)
    requires Inv(b) && b.cpc.DPop? && b.q.cons.CHead? && Q.H(b.q) == 0 && b.q.seenTail == 0
    ensures Enabled(b, CQueue(Q.PopLoadTail(0)))
    ensures Next(b, CQueue(Q.PopLoadTail(0)))
         == b.(q := b.q.(cons := Q.CIdle), cpc := CDone, drainTail := Q.T(b.q), drainView := 0)
  {
    Q.EmptyTest(b.q, 0);
  }

  /** A drain whose only load is as old as the queue itself. */
  lemma DrainStale<T>(a: State<T>, p: seq<Step<T>>, b: State<T>) returns (p': seq<Step<T>>, b': State<T>)
    requires Runs(a, p, b) && Inv(b) && b.cpc.DPop? && b.q.cons.CIdle? && Q.H(b.q) == 0 && b.q.seenTail == 0
    ensures Runs(a, p', b') && Inv(b') && b' == b.(cpc := CDone, drainTail := Q.T(b.q), drainView := 0)
  {
    p', b' := Take(a, p, b, CQueue(Q.PopStart));
    assert b' == b.(q := b.q.(cons := b'.q.cons)) && b'.q.cons.CHead?;
    SeeStaleEmpty(b');
    p', b' := Take(a, p', b', CQueue(Q.PopLoadTail(0)));
  }

  /** main joins two workers that have finished. */
  lemma JoinBoth<T>(a: State<T>, p: seq<Step<T>>, b: State<T>) returns (p': seq<Step<T>>, b': State<T>)
    requires Runs(a, p, b) && Inv(b) && b.rpc.RDone? && b.cpc.CDone? && b.mpc.MTop? && !b.running
    ensures Runs(a, p', b') && b' == b.(paused := false, mpc := MEnd)
  {
    p', b' := Take(a, p, b, MLoadRunning);
    assert b' == b.(mpc := MStopReplay);
    p', b' := Take(a, p', b', MUnpause);
    assert b' == b.(paused := false, mpc := MJoinReplay);
    p', b' := Take(a, p', b', MJoin);
    assert b' == b.(paused := false, mpc := MJoinProc);
    p', b' := Take(a, p', b', MJoin);
  }

  lemma EndStale<T>(a: State<T>, p: seq<Step<T>>, b: State<T>) returns (p': seq<Step<T>>, b': State<T>)
    requires Runs(a, p, b) && Inv(b) && (b.rpc.RTop? || b.rpc.RFull?) && b.cpc.CTop? && b.mpc.MTop?
    requires Q.H(b.q) == 0 && b.q.seenTail == 0 && b.q.cons.CIdle? && b.processed == []
    ensures Runs(a, p', b') && b'.mpc.MEnd? && b'.pos == b.pos && b'.processed == []
  {
    hide Inv;
    p', b' := StopWorkers(a, p, b);
    p', b' := DrainStale(a, p', b');
    p', b' := JoinBoth(a, p', b');
  }

  lemma NothingProcessed<T>(b: State<T>)
    requires Inv(b) && b.cpc.CTop? && Q.H(b.q) == 0
    ensures b.processed == []
  {
  }

  /** The bound of EarlyStopLoss is attained: with a stale drain a stop can lose any number of
      records up to the capacity, all slots of a full queue and the one refused by it. */
  lemma StaleDrainCanLoseMany<T>(buffer: seq<T>, file: seq<T>, n: nat)
    requires IsPow2(|buffer|) && n <= |file| && n <= |buffer|
    ensures exists p, s :: Runs(Init(buffer, file), p, s) && s.mpc.MEnd? && s.pos == n && s.processed == []
  {
    var a := Init(buffer, file);
    if n < |buffer| {
      var p, b := PushManyAhead(buffer, file, n);
      NothingProcessed(b);
      var p1, b1 := EndStale(a, p, b);
    } else {
      var p, b := PushManyAhead(buffer, file, n - 1);
      NothingProcessed(b);
      p, b := RefusedAhead(a, p, b, n - 1);
      var p1, b1 := EndStale(a, p, b);
    }
  }

  // ---------------------------------------------------------------- complete replays

  /** The processing thread pops the oldest record and processes it. */
  lemma PopOne<T>(a: State<T>, p: seq<Step<T>>, b: State<T>, leftover: T) returns (p': seq<Step<T>>, b': State<T>)
    requires Runs(a, p, b) && Inv(b) && b.running && b.cpc.CTop? && b.q.cons.CIdle? && Q.H(b.q) < Q.T(b.q)
    ensures Runs(a, p', b') && Inv(b') && b'.cpc.CTop? && b'.q.cons.CIdle? && Q.H(b'.q) == Q.H(b.q) + 1
    ensures b' == b.(q := b'.q, processed := b'.processed)
    ensures b'.q.prod == b.q.prod && b'.q.tailStores == b.q.tailStores && b'.q.seenHead == b.q.seenHead
    ensures |b'.q.buffer| == |b.q.buffer|
  {
    p', b' := Take(a, p, b, CLoadRunning);
    assert b' == b.(cpc := CPop);
    p', b' := PopItem(a, p', b', leftover);
    p', b' := Take(a, p', b', CProcess);
  }

  lemma PopItem<T>(a: State<T>, p: seq<Step<T>>, b: State<T>, leftover: T) returns (p': seq<Step<T>>, b': State<T>)
    requires Runs(a, p, b) && Inv(b) && b.cpc.CPop? && b.q.cons.CIdle? && Q.H(b.q) < Q.T(b.q)
    ensures Runs(a, p', b') && Inv(b') && b'.cpc.CWork? && b'.q.cons.CIdle? && Q.H(b'.q) == Q.H(b.q) + 1
    ensures b' == b.(q := b'.q, cpc := b'.cpc)
    ensures b'.q.prod == b.q.prod && b'.q.tailStores == b.q.tailStores && b'.q.seenHead == b.q.seenHead
    ensures |b'.q.buffer| == |b.q.buffer|
  {
    hide Inv, Enabled, Next;
    StartPop(b);
    p', b' := Take(a, p, b, CQueue(Q.PopStart));
    SeeItem(b');
    p', b' := Take(a, p', b', CQueue(Q.PopLoadTail(Q.T(b.q))));
    ReadItem(b', leftover);
    p', b' := Take(a, p', b', CQueue(Q.PopRead(leftover)));
    CommitPop(b');
    p', b' := Take(a, p', b', CQueue(Q.PopCommit));
  }

  lemma StartPop<T>(b: State<T>)
    requires Inv(b) && (b.cpc.CPop? || b.cpc.DPop?) && b.q.cons.CIdle?
    ensures Enabled(b, CQueue(Q.PopStart)) && Next(b, CQueue(Q.PopStart)) == b.(q := b.q.(cons := Q.CHead(Q.Head(b.q))))
  {
  }

  lemma ReadItem<T>(b: State<T>, leftover: T)
    requires Inv(b) && (b.cpc.CPop? || b.cpc.DPop?) && b.q.cons.CReady?
    ensures var slot := b.q.cons.slot;
      && slot < |b.q.buffer| && Enabled(b, CQueue(Q.PopRead(leftover)))
      && Next(b, CQueue(Q.PopRead(leftover)))
           == b.(q := b.q.(buffer := b.q.buffer[slot := leftover], cons := Q.CTaken(b.q.buffer[slot], slot)))
  {
    HeadInRange(b);
  }

  lemma CommitPop<T>(b: State<T>)
    requires Inv(b) && b.cpc.CPop? && b.q.cons.CTaken?
    ensures Enabled(b, CQueue(Q.PopCommit)) && Q.WellFormed(b.q)
    ensures Next(b, CQueue(Q.PopCommit)) == b.(cpc := CWork(b.q.cons.item),
      q := b.q.(headStores := b.q.headStores + [Q.Advance(b.q.cons.slot, |b.q.buffer|)],
                popped := b.q.popped + [b.q.cons.item], cons := Q.CIdle))
  {
  }

  lemma SeeItem<T>(b: State<T>)
    requires Inv(b) && (b.cpc.CPop? || b.cpc.DPop?) && b.q.cons.CHead? && Q.H(b.q) < Q.T(b.q)
    ensures Enabled(b, CQueue(Q.PopLoadTail(Q.T(b.q))))
    ensures Next(b, CQueue(Q.PopLoadTail(Q.T(b.q)))) == b.(q := b.q.(seenTail := Q.T(b.q), cons := Q.CReady(b.q.cons.slot)))
  {
    Q.EmptyTest(b.q, Q.T(b.q));
  }

  lemma HeadInRange<T>(b: State<T>)
    requires Inv(b) && b.q.cons.CReady?
    ensures b.q.cons.slot < |b.q.buffer|
  {
  }

  /** n records have gone all the way; nothing is in flight. */
  ghost predicate InStep<T>(s: State<T>, n: nat) {
    && Inv(s) && s.running && !s.paused && !s.finished && s.rpc.RTop? && s.cpc.CTop? && s.mpc.MTop?
    && Q.T(s.q) == n && Q.H(s.q) == n && s.q.cons.CIdle?
  }

  lemma {:induction false} ReplayInStep<T>(buffer: seq<T>, file: seq<T>, n: nat) returns (p: seq<Step<T>>, b: State<T>)
    requires IsPow2(|buffer|) && |buffer| >= 2 && n <= |file|
    ensures Runs(Init(buffer, file), p, b) && InStep(b, n) && b.file == file && |b.q.buffer| == |buffer|
  {
    hide Inv;
    if n == 0 {
      p, b := [], Init(buffer, file);
      InitInv(buffer, file);
    } else {
      p, b := ReplayInStep(buffer, file, n - 1);
      HeadSeen(b);
      p, b := PushOne(Init(buffer, file), p, b, n - 1, n - 1);
      p, b := PopOne(Init(buffer, file), p, b, file[n - 1]);
    }
  }

  lemma HeadSeen<T>(b: State<T>)
    requires Inv(b)
    ensures b.q.seenHead <= Q.H(b.q) && b.mainHead <= Q.H(b.q) && b.mainTail <= Q.T(b.q)
  {
  }

  /** The replay thread reads past the last record and stores finished. */
  lemma ReadEnd<T>(a: State<T>, p: seq<Step<T>>, b: State<T>) returns (p': seq<Step<T>>, b': State<T>)
    requires Runs(a, p, b) && InStep(b, |b.file|)
    ensures Runs(a, p', b') && Inv(b') && b' == b.(finished := true, rpc := RDone)
  {
    TopIsEven(b);
    p', b' := Take(a, p, b, RLoadRunning);
    assert b' == b.(rpc := RPause);
    p', b' := Take(a, p', b', RLoadPaused);
    assert b' == b.(rpc := RCheck);
    p', b' := Take(a, p', b', RLoadRunning);
    assert b' == b.(rpc := RRead);
    p', b' := Take(a, p', b', RReadNext);
    assert b' == b.(rpc := REof);
    p', b' := Take(a, p', b', RStoreFinished);
  }

  /** main wakes, sees finished and an empty queue, and clears running. */
  lemma SeeComplete<T>(a: State<T>, p: seq<Step<T>>, b: State<T>) returns (p': seq<Step<T>>, b': State<T>)
    requires Runs(a, p, b) && Inv(b) && b.running && b.finished && b.mpc.MTop? && Q.H(b.q) == Q.T(b.q)
    ensures Runs(a, p', b') && Inv(b') && b'.complete && !b'.running && b'.mpc.MTop?
    ensures b' == b.(running := false, complete := true, mainHead := b'.mainHead, mainTail := b'.mainTail)
  {
    hide Inv, Enabled, Next;
    p', b' := SeeFinished(a, p, b);
    p', b' := LoadBoth(a, p', b');
    Complete(b');
    p', b' := Take(a, p', b', MCompare);
    p', b' := Take(a, p', b', MClearRunning);
  }

  lemma SeeFinished<T>(a: State<T>, p: seq<Step<T>>, b: State<T>) returns (p': seq<Step<T>>, b': State<T>)
    requires Runs(a, p, b) && Inv(b) && b.running && b.finished && b.mpc.MTop?
    ensures Runs(a, p', b') && Inv(b')
    ensures b' == b.(mpc := MEmpty(None, None), mainHead := b'.mainHead, mainTail := b'.mainTail)
  {
    p', b' := Take(a, p, b, MLoadRunning);
    assert b' == b.(mpc := MAwake);
    p', b' := Take(a, p', b', MLoadRunning);
    assert b' == b.(mpc := MPoll);
    p', b' := Take(a, p', b', MLoadFinished);
  }

  /** Equal indices: the branch is taken, and running can be cleared. */
  lemma Complete<T>(b: State<T>)
    requires Inv(b) && Enabled(b, MCompare) && b.mpc == MEmpty(Some(Q.H(b.q)), Some(Q.T(b.q))) && Q.H(b.q) == Q.T(b.q)
    ensures Next(b, MCompare) == b.(mpc := MComplete, complete := true) && Enabled(Next(b, MCompare), MClearRunning)
    ensures Next(Next(b, MCompare), MClearRunning) == b.(mpc := MTop, complete := true, running := false)
  {
    EmptyIsSound(b);
  }

  lemma LoadBoth<T>(a: State<T>, p: seq<Step<T>>, b: State<T>) returns (p': seq<Step<T>>, b': State<T>)
    requires Runs(a, p, b) && Inv(b) && b.mpc == MEmpty(None, None)
    ensures Runs(a, p', b') && Inv(b') && Enabled(b', MCompare)
    ensures b' == b.(mpc := MEmpty(Some(Q.H(b.q)), Some(Q.T(b.q))), mainHead := Q.H(b.q), mainTail := Q.T(b.q))
  {
    HeadSeen(b);
    p', b' := Take(a, p, b, MLoadHead(Q.H(b.q)));
    assert b' == b.(mpc := MEmpty(Some(Q.H(b.q)), None), mainHead := Q.H(b.q));
    p', b' := Take(a, p', b', MLoadTail(Q.T(b.q)));
  }

  /** The processing thread finds running cleared and the queue empty. */
  lemma DrainNothing<T>(a: State<T>, p: seq<Step<T>>, b: State<T>) returns (p': seq<Step<T>>, b': State<T>)
    requires Runs(a, p, b) && Inv(b) && !b.running && b.cpc.CTop? && b.q.cons.CIdle? && Q.H(b.q) == Q.T(b.q)
    ensures Runs(a, p', b') && Inv(b') && b'.cpc.CDone?
    ensures b' == b.(q := b'.q, cpc := CDone, drainTail := Q.T(b.q), drainView := Q.T(b.q))
  {
    p', b' := Take(a, p, b, CLoadRunning);
    assert b' == b.(cpc := DPop);
    p', b' := Take(a, p', b', CQueue(Q.PopStart));
    assert b' == b.(cpc := DPop, q := b.q.(cons := b'.q.cons)) && b'.q.cons.CHead?;
    SeeNothing(b');
    p', b' := Take(a, p', b', CQueue(Q.PopLoadTail(Q.T(b.q))));
  }

  lemma SeeNothing<T>(b: State<T>)
    requires Inv(b) && b.cpc.DPop? && b.q.cons.CHead? && Q.H(b.q) == Q.T(b.q)
    ensures var v := Q.T(b.q);
      && Enabled(b, CQueue(Q.PopLoadTail(v)))
      && Next(b, CQueue(Q.PopLoadTail(v)))
           == b.(q := b.q.(seenTail := v, cons := Q.CIdle), cpc := CDone, drainTail := v, drainView := v)
  {
    Q.EmptyTest(b.q, Q.T(b.q));
  }

  /** Every file can be replayed to completion through every queue that holds at least one item. */
  lemma CompleteRunExists<T>(buffer: seq<T>, file: seq<T>)
    requires IsPow2(|buffer|) && |buffer| >= 2
    ensures exists p, s :: Runs(Init(buffer, file), p, s) && s.complete && s.mpc.MEnd? && s.processed == file
  {
    hide Inv;
    var a := Init(buffer, file);
    var p, b := ReplayInStep(buffer, file, |file|);
    p, b := ReadEnd(a, p, b);
    p, b := SeeComplete(a, p, b);
    p, b := DrainNothing(a, p, b);
    p, b := JoinBoth(a, p, b);
    ReplayCompleteMeansEverything(buffer, file, p, b, [], b);
  }
}
