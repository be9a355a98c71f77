/** The replay, processing and main threads of replay mode, run against the same queue
    (src/replay/replay_engine.cpp, src/engine/processing_thread.cpp, src/main.cpp).

    A step is one atomic operation of one thread. The flags `running`, `paused` and `finished`
    are taken to be sequentially consistent, so a thread that reads `finished == true` has also
    seen everything the replay thread had seen when it stored it; the queue indices keep their
    stale monotone views. Signals and pause commands may arrive between any two steps. */
module ReplayProtocol {
  import opened Wrappers
  import opened Masks
  import Q = SpscMachine

  datatype ReplayPc<T> =
    | RTop             // outer `while (running)`
    | RPause           // inner `while (paused && ...)`
    | RPauseRunning    // ... `&& running`
    | RCheck           // `if (!running) break`
    | RRead            // `read_next`
    | REof             // about to store finished
    | RPush(item: T)   // inside `try_push`
    | RFull(item: T)   // push refused: `if (!running) return`
    | RCount           // pushed, counter not yet incremented
    | RDone

  datatype ProcPc<T> =
    | CTop
    | CPop             // inside `try_pop` of the main loop
    | CWork(item: T)
    | DPop             // inside `try_pop` of the drain loop
    | DWork(item: T)
    | CDone

  datatype MainPc =
    | MTop
    | MAwake           // after the sleep, before the second test of running
    | MPoll            // about to load finished
    | MEmpty(head: Option<nat>, tail: Option<nat>)  // loads of `empty()` done so far
    | MComplete        // "Replay complete", about to clear running
    | MStopReplay      // `replay_engine->stop()`
    | MJoinReplay
    | MJoinProc
    | MEnd

  datatype State<T> = State(
    q: Q.State<T>,
    file: seq<T>,         // the records `read_next` can deliver
    pos: nat,             // records read
    replayed: nat,        // replayed_
    running: bool, paused: bool, finished: bool,
    rpc: ReplayPc<T>, cpc: ProcPc<T>, mpc: MainPc,
    processed: seq<T>,
    mainHead: nat, mainTail: nat,  // positions of the indices main is known to have seen
    complete: bool,       // main has taken the "Replay complete" branch
    drainTail: nat,       // completed pushes when the drain loop saw an empty queue
    drainView: nat)       // and how many of them the load it saw that by returned

  datatype Step<T> =
    | RLoadRunning | RLoadPaused | RReadNext | RStoreFinished | RQueue(op: Q.Step<T>) | RIncrement
    | CLoadRunning | CQueue(op: Q.Step<T>) | CProcess
    | MLoadRunning | MLoadFinished | MLoadHead(view: nat) | MLoadTail(view: nat) | MCompare
    | MClearRunning | MUnpause | MJoin
    | Signal | SetPaused(on: bool)

  ghost predicate IsPush<T>(op: Q.Step<T>) {
    op.PushStart? || op.PushLoadHead? || op.PushWrite? || op.PushCommit?
  }

  ghost predicate Enabled<T>(s: State<T>, step: Step<T>) {
    && |s.q.headStores| > 0 && |s.q.tailStores| > 0
    && match step
       case RLoadRunning => s.rpc.RTop? || s.rpc.RPauseRunning? || s.rpc.RCheck? || s.rpc.RFull?
       case RLoadPaused => s.rpc.RPause?
       case RReadNext => s.rpc.RRead?
       case RStoreFinished => s.rpc.REof?
       case RQueue(op) => s.rpc.RPush? && IsPush(op) && Q.Enabled(s.q, op)
                          && (op.PushStart? ==> op.item == s.rpc.item)
       case RIncrement => s.rpc.RCount?
       case CLoadRunning => s.cpc.CTop?
       case CQueue(op) => (s.cpc.CPop? || s.cpc.DPop?) && !IsPush(op) && Q.Enabled(s.q, op)
       case CProcess => s.cpc.CWork? || s.cpc.DWork?
       case MLoadRunning => s.mpc.MTop? || s.mpc.MAwake?
       case MLoadFinished => s.mpc.MPoll?
       case MLoadHead(v) => s.mpc.MEmpty? && s.mpc.head.None? && s.mainHead <= v < |s.q.headStores|
       case MLoadTail(v) => s.mpc.MEmpty? && s.mpc.tail.None? && s.mainTail <= v < |s.q.tailStores|
       case MCompare => s.mpc.MEmpty? && s.mpc.head.Some? && s.mpc.tail.Some?
                        && s.mpc.head.value < |s.q.headStores| && s.mpc.tail.value < |s.q.tailStores|
       case MClearRunning => s.mpc.MComplete?
       case MUnpause => s.mpc.MStopReplay?
       case MJoin => (s.mpc.MJoinReplay? && s.rpc.RDone?) || (s.mpc.MJoinProc? && s.cpc.CDone?)
       case Signal => true
       case SetPaused(_) => true
  }

  ghost predicate IsReplayStep<T>(step: Step<T>) {
    step.RLoadRunning? || step.RLoadPaused? || step.RReadNext? || step.RStoreFinished? || step.RQueue? || step.RIncrement?
  }

  ghost predicate IsProcStep<T>(step: Step<T>) {
    step.CLoadRunning? || step.CQueue? || step.CProcess?
  }

  /** One queue operation of the replay thread: pushed, refused, or still inside `try_push`. */
  ghost function PushNext<T>(s: State<T>, op: Q.Step<T>): State<T>
    requires Enabled(s, RQueue(op))
  {
    var q' := Q.Next(s.q, op);
    s.(q := q',
       rpc := if op.PushCommit? then RCount
              else if op.PushLoadHead? && q'.prod.PIdle? then RFull(s.rpc.item)
              else s.rpc)
  }

  /** One queue operation of the processing thread: popped, empty, or still inside `try_pop`. */
  ghost function PopNext<T>(s: State<T>, op: Q.Step<T>): State<T>
    requires Enabled(s, CQueue(op))
  {
    var q' := Q.Next(s.q, op);
    if op.PopCommit? then
      s.(q := q', cpc := if s.cpc.CPop? then CWork(s.q.cons.item) else DWork(s.q.cons.item))
    else if op.PopLoadTail? && q'.cons.CIdle? then
      if s.cpc.CPop? then s.(q := q', cpc := CTop)
      else s.(q := q', cpc := CDone, drainTail := Q.T(s.q), drainView := op.view)
    else s.(q := q')
  }

  ghost function ReplayNext<T>(s: State<T>, step: Step<T>): State<T>
    requires Enabled(s, step) && IsReplayStep(step)
  {
    match step
    case RLoadRunning =>
      s.(rpc := match s.rpc
                case RTop => if s.running then RPause else RDone
                case RPauseRunning => if s.running then RPause else RCheck
                case RCheck => if s.running then RRead else RDone
                case RFull(item) => if s.running then RPush(item) else RDone
                case _ => s.rpc)
    case RLoadPaused => s.(rpc := if s.paused then RPauseRunning else RCheck)
    case RReadNext =>
      if s.pos < |s.file| then s.(pos := s.pos + 1, rpc := RPush(s.file[s.pos])) else s.(rpc := REof)
    case RStoreFinished => s.(finished := true, rpc := RDone)
    case RQueue(op) => PushNext(s, op)
    case RIncrement => s.(replayed := s.replayed + 1, rpc := RTop)
  }

  ghost function ProcNext<T>(s: State<T>, step: Step<T>): State<T>
    requires Enabled(s, step) && IsProcStep(step)
  {
    match step
    case CLoadRunning => s.(cpc := if s.running then CPop else DPop)
    case CQueue(op) => PopNext(s, op)
    case CProcess =>
      s.(processed := s.processed + [s.cpc.item], cpc := if s.cpc.CWork? then CTop else DPop)
  }

  function Max(a: nat, b: nat): nat { if a < b then b else a }

  ghost function MainNext<T>(s: State<T>, step: Step<T>): State<T>
    requires Enabled(s, step) && !IsReplayStep(step) && !IsProcStep(step)
  {
    match step
    case MLoadRunning =>
      s.(mpc := if !s.running then MStopReplay else if s.mpc.MTop? then MAwake else MPoll)
    case MLoadFinished =>
      // the replay thread stored finished last, so its views are what the load hands over
      if s.finished then
        s.(mpc := MEmpty(None, None),
           mainHead := Max(s.mainHead, s.q.seenHead), mainTail := Max(s.mainTail, Q.T(s.q)))
      else s.(mpc := MTop)
    case MLoadHead(v) => s.(mpc := s.mpc.(head := Some(v)), mainHead := v)
    case MLoadTail(v) => s.(mpc := s.mpc.(tail := Some(v)), mainTail := v)
    case MCompare =>
      if s.q.headStores[s.mpc.head.value] == s.q.tailStores[s.mpc.tail.value]
      then s.(mpc := MComplete, complete := true) else s.(mpc := MTop)
    case MClearRunning => s.(running := false, mpc := MTop)
    case MUnpause => s.(paused := false, mpc := MJoinReplay)
    case MJoin => s.(mpc := if s.mpc.MJoinReplay? then MJoinProc else MEnd)
    case Signal => s.(running := false)
    case SetPaused(on) => s.(paused := on)
  }

  ghost function Next<T>(s: State<T>, step: Step<T>): State<T>
    requires Enabled(s, step)
  {
    if IsReplayStep(step) then ReplayNext(s, step)
    else if IsProcStep(step) then ProcNext(s, step)
    else MainNext(s, step)
  }

  function Init<T>(buffer: seq<T>, file: seq<T>): State<T> {
    State(Q.Init(buffer), file, 0, 0, true, false, false, RTop, CTop, MTop, [], 0, 0, false, 0, 0)
  }

  ghost predicate Runs<T>(s: State<T>, steps: seq<Step<T>>, s': State<T>)
    decreases |steps|
  {
    if steps == [] then s == s'
    else Enabled(s, steps[0]) && Runs(Next(s, steps[0]), steps[1..], s')
  }

  // ---------------------------------------------------------------- the invariant

  ghost predicate ReplayInv<T>(s: State<T>)
    requires Q.Inv(s.q)
  {
    var t := Q.T(s.q);
    && t <= |s.file| && s.q.pushed == s.file[..t] && s.pos <= |s.file|
    && (!s.rpc.RPush? ==> s.q.prod.PIdle?)
    && (s.finished ==> s.rpc.RDone? && t == |s.file|)
    && match s.rpc
       case REof => s.pos == t == s.replayed == |s.file|
       case RPush(item) =>
         && s.pos == t + 1 && s.replayed == t && item == s.file[t]
         && (!s.q.prod.PIdle? ==> s.q.prod.item == item)
       case RFull(item) => s.pos == t + 1 && s.replayed == t && item == s.file[t]
       case RCount => s.pos == t == s.replayed + 1
       case RDone => t <= s.pos <= t + 1 && s.replayed == t && (!s.finished ==> !s.running)
       case _ => s.pos == t == s.replayed
  }

  /** Records still to be read by a replay thread that has passed its last test of running. */
  function Pending<T>(s: State<T>): nat {
    if s.rpc.RRead? then 1 else 0
  }

  ghost predicate ProcInv<T>(s: State<T>)
    requires Q.Inv(s.q)
  {
    && (!s.cpc.CPop? && !s.cpc.DPop? ==> s.q.cons.CIdle?)
    && (s.cpc.DPop? || s.cpc.DWork? || s.cpc.CDone? ==> !s.running)
    && s.q.popped == (if s.cpc.CWork? || s.cpc.DWork? then s.processed + [s.cpc.item] else s.processed)
    && (s.cpc.CDone? ==> Q.H(s.q) == s.drainView <= s.drainTail <= Q.T(s.q) && s.pos + Pending(s) <= s.drainTail + 1)
  }

  ghost predicate MainInv<T>(s: State<T>)
    requires Q.Inv(s.q)
  {
    && s.mainHead <= Q.H(s.q) && s.mainTail <= Q.T(s.q)
    && (s.mpc.MEmpty? ==>
          && s.finished && s.mainTail == Q.T(s.q) && s.q.seenHead <= s.mainHead
          && (s.mpc.head.Some? ==> s.q.seenHead <= s.mpc.head.value <= Q.H(s.q))
          && (s.mpc.tail.Some? ==> s.mpc.tail.value == Q.T(s.q)))
    && (s.mpc.MComplete? ==> s.complete)
    && (s.complete ==> s.finished && Q.H(s.q) == Q.T(s.q))
    && (s.mpc.MJoinProc? || s.mpc.MEnd? ==> s.rpc.RDone?)
    && (s.mpc.MEnd? ==> s.cpc.CDone?)
  }

  ghost predicate Inv<T>(s: State<T>) {
    Q.Inv(s.q) && ReplayInv(s) && ProcInv(s) && MainInv(s)
  }

  lemma InitInv<T>(buffer: seq<T>, file: seq<T>)
    requires IsPow2(|buffer|)
    ensures Inv(Init(buffer, file))
  {
    Q.InitInv(buffer);
  }

  /** The producer side of the invariant does not look at the consumer side. */
  lemma ReplayInvFrame<T>(s: State<T>, s': State<T>)
    requires Q.Inv(s.q) && ReplayInv(s) && Q.Inv(s'.q)
    requires s'.q.pushed == s.q.pushed && s'.q.prod == s.q.prod
    requires s'.file == s.file && s'.pos == s.pos && s'.replayed == s.replayed && s'.rpc == s.rpc
    requires s'.finished == s.finished && (s'.running ==> s.running)
    ensures ReplayInv(s')
  {
    assert Q.T(s'.q) == |s.q.pushed| == Q.T(s.q);
  }

  /** The main thread's part of the invariant survives progress of the head. */
  lemma MainInvFrame<T>(s: State<T>, s': State<T>)
    requires Q.Inv(s.q) && MainInv(s) && Q.Inv(s'.q)
    requires Q.T(s'.q) == Q.T(s.q) && Q.H(s.q) <= Q.H(s'.q) && s'.q.seenHead == s.q.seenHead
    requires s'.mpc == s.mpc && s'.mainHead == s.mainHead && s'.mainTail == s.mainTail
    requires s'.complete == s.complete && s'.finished == s.finished && s'.rpc == s.rpc
    requires s.cpc.CDone? ==> s'.cpc.CDone?
    ensures MainInv(s')
  {
  }

  /** A push step touches the producer's side of the queue and nothing else. */
  ghost predicate OnlyProduced<T>(s: State<T>, s': State<T>)
    requires Q.Inv(s.q) && Q.Inv(s'.q)
  {
    && s' == s.(q := s'.q, rpc := s'.rpc)
    && s'.q.cons == s.q.cons && s'.q.popped == s.q.popped
    && Q.H(s'.q) == Q.H(s.q) && Q.T(s.q) <= Q.T(s'.q)
    && s.rpc.RPush? && !s'.rpc.RRead?
  }

  lemma PushOnlyProduces<T>(s: State<T>, op: Q.Step<T>)
    requires Inv(s) && Enabled(s, RQueue(op)) && Q.Inv(PushNext(s, op).q)
    ensures OnlyProduced(s, PushNext(s, op))
  {
    Q.ProducerFrame(s.q, op);
  }

  lemma PushKeepsReplayInv<T>(s: State<T>, op: Q.Step<T>)
    requires Inv(s) && Enabled(s, RQueue(op))
    ensures Q.Inv(PushNext(s, op).q) && ReplayInv(PushNext(s, op))
  {
    Q.StepKeepsInv(s.q, op);
    Q.ProducerFrame(s.q, op);
    var s' := PushNext(s, op);
    if op.PushCommit? {
      assert s'.q.pushed == s.file[..Q.T(s'.q)];
    }
  }

  lemma OthersSurvivePush<T>(s: State<T>, s': State<T>)
    requires Inv(s) && Q.Inv(s'.q) && OnlyProduced(s, s')
    ensures ProcInv(s') && MainInv(s')
  {
    assert !s.finished;
  }

  lemma PushKeepsInv<T>(s: State<T>, op: Q.Step<T>)
    requires Inv(s) && Enabled(s, RQueue(op))
    ensures Inv(PushNext(s, op))
  {
    PushKeepsReplayInv(s, op);
    PushOnlyProduces(s, op);
    OthersSurvivePush(s, PushNext(s, op));
  }

  lemma ReplayKeepsInv<T>(s: State<T>, step: Step<T>)
    requires Inv(s) && Enabled(s, step) && IsReplayStep(step)
    ensures Inv(Next(s, step))
  {
    match step
    case RQueue(op) => PushKeepsInv(s, op);
    case RLoadRunning =>
    case RLoadPaused =>
    case RReadNext =>
    case RStoreFinished =>
    case RIncrement =>
  }

  lemma PopKeepsProcInv<T>(s: State<T>, op: Q.Step<T>)
    requires Inv(s) && Enabled(s, CQueue(op))
    ensures Q.Inv(PopNext(s, op).q) && ProcInv(PopNext(s, op))
  {
    if op.PopLoadTail? {
      TailLoadKeepsProcInv(s, op.view);
    } else {
      hide MainInv, ReplayInv, Q.Contents, Q.ProdInv, Q.Masked;
      Q.StepKeepsInv(s.q, op);
      Q.ConsumerFrame(s.q, op);
    }
  }

  lemma TailLoadKeepsProcInv<T>(s: State<T>, v: nat)
    requires Inv(s) && Enabled(s, CQueue(Q.PopLoadTail(v)))
    ensures Q.Inv(PopNext(s, Q.PopLoadTail(v)).q) && ProcInv(PopNext(s, Q.PopLoadTail(v)))
  {
    hide MainInv, Q.Contents, Q.ProdInv, Q.Masked;
    Q.StepKeepsInv(s.q, Q.PopLoadTail(v));
    Q.ConsumerFrame(s.q, Q.PopLoadTail(v));
  }

  /** A pop step touches the consumer's side of the queue and nothing else. */
  ghost predicate OnlyConsumed<T>(s: State<T>, s': State<T>)
    requires Q.Inv(s.q) && Q.Inv(s'.q)
  {
    && s' == s.(q := s'.q, cpc := s'.cpc, drainTail := s'.drainTail, drainView := s'.drainView) && !s.cpc.CDone?
    && s'.q.pushed == s.q.pushed && s'.q.prod == s.q.prod && s'.q.seenHead == s.q.seenHead
    && Q.T(s'.q) == Q.T(s.q) && Q.H(s.q) <= Q.H(s'.q)
  }

  lemma PopOnlyConsumes<T>(s: State<T>, op: Q.Step<T>)
    requires Inv(s) && Enabled(s, CQueue(op)) && Q.Inv(PopNext(s, op).q)
    ensures OnlyConsumed(s, PopNext(s, op))
  {
    Q.ConsumerFrame(s.q, op);
  }

  lemma OthersSurvive<T>(s: State<T>, s': State<T>)
    requires Inv(s) && Q.Inv(s'.q) && OnlyConsumed(s, s')
    ensures ReplayInv(s') && MainInv(s')
  {
    ReplayInvFrame(s, s');
    MainInvFrame(s, s');
  }

  lemma PopKeepsInv<T>(s: State<T>, op: Q.Step<T>)
    requires Inv(s) && Enabled(s, CQueue(op))
    ensures Inv(PopNext(s, op))
  {
    PopKeepsProcInv(s, op);
    PopOnlyConsumes(s, op);
    OthersSurvive(s, PopNext(s, op));
  }

  lemma ProcKeepsInv<T>(s: State<T>, step: Step<T>)
    requires Inv(s) && Enabled(s, step) && IsProcStep(step)
    ensures Inv(Next(s, step))
  {
    match step
    case CQueue(op) => PopKeepsInv(s, op);
    case CLoadRunning =>
    case CProcess =>
  }

  /** `empty()` read by main after it saw `finished`: whatever the order of the two loads and
      however stale the head, equal masked indices mean equal counters. */
  lemma EmptyIsSound<T>(s: State<T>)
    requires Inv(s) && Enabled(s, MCompare)
    ensures s.q.headStores[s.mpc.head.value] == s.q.tailStores[s.mpc.tail.value]
            <==> s.mpc.head.value == Q.T(s.q)
    ensures s.mpc.head.value == Q.T(s.q) ==> Q.H(s.q) == Q.T(s.q)
  {
    Q.SameSlot(s.mpc.head.value, Q.T(s.q), |s.q.buffer|);
  }

  lemma MainKeepsInv<T>(s: State<T>, step: Step<T>)
    requires Inv(s) && Enabled(s, step) && !IsReplayStep(step) && !IsProcStep(step)
    ensures Inv(Next(s, step))
  {
    hide Q.Inv, ReplayInv, ProcInv, MainInv;
    MainFrame(s, step);
    SameWorkers(s, Next(s, step));
    if step.MCompare? {
      CompareKeepsMainInv(s);
    } else {
      MainKeepsMainInv(s, step);
    }
  }

  lemma CompareKeepsMainInv<T>(s: State<T>)
    requires Inv(s) && Enabled(s, MCompare)
    ensures MainInv(Next(s, MCompare))
  {
    hide Q.Inv, ReplayInv, ProcInv;
    EmptyIsSound(s);
  }

  lemma MainKeepsMainInv<T>(s: State<T>, step: Step<T>)
    requires Inv(s) && Enabled(s, step) && !IsReplayStep(step) && !IsProcStep(step) && !step.MCompare?
    ensures MainInv(Next(s, step))
  {
    hide Q.Inv, ReplayInv, ProcInv;
    QueueCounters(s);
    if step.MJoin? { DoneIsDone(s); }
    if step.MLoadFinished? { FinishedIsDone(s); }
  }

  lemma DoneIsDone<T>(s: State<T>)
    requires Inv(s)
    ensures s.mpc.MJoinProc? || s.mpc.MEnd? ==> s.rpc.RDone?
  {
  }

  lemma FinishedIsDone<T>(s: State<T>)
    requires Inv(s)
    ensures s.finished ==> s.rpc.RDone?
  {
  }

  lemma QueueCounters<T>(s: State<T>)
    requires Q.Inv(s.q)
    ensures s.q.seenHead <= Q.H(s.q)
  {
  }

  /** The workers' part of the invariant reads nothing main writes but `running`, which is only cleared. */
  lemma SameWorkers<T>(s: State<T>, s': State<T>)
    requires Q.Inv(s.q) && ReplayInv(s) && ProcInv(s) && s'.q == s.q && (s'.running ==> s.running)
    requires s' == s.(mpc := s'.mpc, mainHead := s'.mainHead, mainTail := s'.mainTail, complete := s'.complete,
                      running := s'.running, paused := s'.paused)
    ensures ReplayInv(s') && ProcInv(s')
  {
    hide Q.Inv;
  }

  lemma StepKeepsInv<T>(s: State<T>, step: Step<T>)
    requires Inv(s) && Enabled(s, step)
    ensures Inv(Next(s, step))
  {
    if IsReplayStep(step) {
      ReplayKeepsInv(s, step);
    } else if IsProcStep(step) {
      ProcKeepsInv(s, step);
    } else {
      MainKeepsInv(s, step);
    }
  }

  lemma StepKeepsFile<T>(s: State<T>, step: Step<T>)
    requires Enabled(s, step)
    ensures Next(s, step).file == s.file && (s.complete ==> Next(s, step).complete)
  {
    if IsReplayStep(step) {
      ReplayFrame(s, step);
    } else if IsProcStep(step) {
      ProcFrame(s, step);
    } else {
      MainFrame(s, step);
    }
  }

  lemma ReplayFrame<T>(s: State<T>, step: Step<T>)
    requires Enabled(s, step) && IsReplayStep(step)
    ensures var s' := ReplayNext(s, step);
      s'.file == s.file && s'.complete == s.complete && s'.cpc == s.cpc && s'.mpc == s.mpc && s'.running == s.running
  {
  }

  lemma PopFrame<T>(s: State<T>, op: Q.Step<T>)
    requires Enabled(s, CQueue(op))
    ensures var s' := PopNext(s, op);
      s'.file == s.file && s'.complete == s.complete && s'.rpc == s.rpc && s'.mpc == s.mpc && s'.running == s.running
  {
  }

  lemma ProcFrame<T>(s: State<T>, step: Step<T>)
    requires Enabled(s, step) && IsProcStep(step)
    ensures var s' := ProcNext(s, step);
      s'.file == s.file && s'.complete == s.complete && s'.rpc == s.rpc && s'.mpc == s.mpc && s'.running == s.running
  {
    match step
    case CQueue(op) => PopFrame(s, op);
    case CLoadRunning =>
    case CProcess =>
  }

  lemma MainFrame<T>(s: State<T>, step: Step<T>)
    requires Enabled(s, step) && !IsReplayStep(step) && !IsProcStep(step)
    ensures var s' := MainNext(s, step);
      s'.file == s.file && (s.complete ==> s'.complete) && s'.rpc == s.rpc && s'.cpc == s.cpc && s'.q == s.q
      && (!s.running ==> !s'.running)
  {
  }

  lemma {:induction false} RunKeepsInv<T>(s: State<T>, steps: seq<Step<T>>, s': State<T>)
    requires Inv(s) && Runs(s, steps, s')
    ensures Inv(s') && s'.file == s.file && (s.complete ==> s'.complete)
    decreases |steps|
  {
    if steps != [] {
      StepKeepsInv(s, steps[0]);
      StepKeepsFile(s, steps[0]);
      RunKeepsInv(Next(s, steps[0]), steps[1..], s');
    }
  }

  // ---------------------------------------------------------------- main theorems

  /** At any moment of any run the processed records are a prefix of the file, in order and
      without repetition, and at most one record has been read but not pushed. */
  lemma ProcessedIsPrefix<T>(buffer: seq<T>, file: seq<T>, steps: seq<Step<T>>, s: State<T>)
    requires IsPow2(|buffer|) && Runs(Init(buffer, file), steps, s)
    ensures |s.processed| <= |file| && s.processed == file[..|s.processed|]
    ensures |s.q.pushed| <= s.pos <= |s.q.pushed| + 1 && s.q.pushed <= file
  {
    InitInv(buffer, file);
    RunKeepsInv(Init(buffer, file), steps, s);
    assert s.processed <= s.q.popped <= s.q.pushed <= file;
  }

  lemma StepKeepsCapacity<T>(s: State<T>, step: Step<T>)
    requires Enabled(s, step)
    ensures |Next(s, step).q.buffer| == |s.q.buffer|
  {
    hide Q.Next, Q.Enabled;
    if IsReplayStep(step) {
      if step.RQueue? { QueueStepKeepsCapacity(s.q, step.op); }
    } else if IsProcStep(step) {
      if step.CQueue? { QueueStepKeepsCapacity(s.q, step.op); }
    } else {
      MainFrame(s, step);
    }
  }

  lemma QueueStepKeepsCapacity<T>(q: Q.State<T>, op: Q.Step<T>)
    requires Q.Enabled(q, op)
    ensures |Q.Next(q, op).buffer| == |q.buffer|
  {
  }

  lemma {:induction false} RunKeepsCapacity<T>(s: State<T>, steps: seq<Step<T>>, s': State<T>)
    requires Runs(s, steps, s')
    ensures |s'.q.buffer| == |s.q.buffer|
    decreases |steps|
  {
    if steps != [] {
      StepKeepsCapacity(s, steps[0]);
      RunKeepsCapacity(Next(s, steps[0]), steps[1..], s');
    }
  }

  /** Pushes complete at the drain loop's last load of the tail that this load did not yet show. */
  function Unseen<T>(s: State<T>): int { s.drainTail - s.drainView }

  /** Records read that were not pushed by then: the one in the replay thread's hands, if any,
      whether it was pushed later or never. */
  function InHand<T>(s: State<T>): int { s.pos - s.drainTail }

  /** Early stop. When both threads have joined, the records read but never processed are the
      pushes the drain loop's last load did not show and the record that was in hand, never more
      than the capacity. So at most one record is lost if and only if that load missed nothing, or
      missed one push while no record was in hand. */
  lemma EarlyStopLoss<T>(buffer: seq<T>, file: seq<T>, steps: seq<Step<T>>, s: State<T>)
    requires IsPow2(|buffer|) && Runs(Init(buffer, file), steps, s)
    requires s.mpc.MEnd?
    ensures s.drainView == |s.processed| <= s.pos <= |file| && s.processed == file[..|s.processed|]
    ensures s.pos - |s.processed| == Unseen(s) + InHand(s) <= |buffer|
    ensures 0 <= Unseen(s) <= |buffer| - 1 && 0 <= InHand(s) <= 1
    ensures s.pos - |s.processed| <= 1 <==> Unseen(s) == 0 || (Unseen(s) == 1 && InHand(s) == 0)
    ensures s.replayed == |s.q.pushed|
  {
    InitInv(buffer, file);
    RunKeepsInv(Init(buffer, file), steps, s);
    RunKeepsCapacity(Init(buffer, file), steps, s);
    ProcessedIsPrefix(buffer, file, steps, s);
  }

  /** A run in which the load of the tail that ends the drain loop returns its current value. */
  ghost predicate RunsCurrent<T>(s: State<T>, steps: seq<Step<T>>, s': State<T>)
    decreases |steps|
  {
    if steps == [] then s == s'
    else
      && Enabled(s, steps[0]) && SeesCurrent(s, steps[0])
      && RunsCurrent(Next(s, steps[0]), steps[1..], s')
  }

  ghost predicate SeesCurrent<T>(s: State<T>, step: Step<T>)
    requires Enabled(s, step)
  {
    step.CQueue? && step.op.PopLoadTail? && PopNext(s, step.op).cpc.CDone? ==> step.op.view == Q.T(s.q)
  }

  /** The drain loop ended on a queue that was really empty. */
  ghost predicate DrainedDry<T>(s: State<T>) {
    s.cpc.CDone? ==> |s.q.headStores| > 0 && s.drainTail == Q.H(s.q)
  }

  lemma CurrentPopDrainsDry<T>(s: State<T>, op: Q.Step<T>)
    requires Inv(s) && Enabled(s, CQueue(op)) && SeesCurrent(s, CQueue(op))
    ensures DrainedDry(PopNext(s, op))
  {
    hide MainInv, ReplayInv, Q.Contents, Q.ProdInv;
    Q.ConsumerFrame(s.q, op);
  }

  lemma CurrentStepDrainsDry<T>(s: State<T>, step: Step<T>)
    requires Inv(s) && DrainedDry(s) && Enabled(s, step) && SeesCurrent(s, step)
    ensures DrainedDry(Next(s, step))
  {
    hide Inv, SeesCurrent;
    if IsReplayStep(step) {
      ReplayFrame(s, step);
      if step.RQueue? { PushKeepsHead(s, step.op); }
    } else if IsProcStep(step) {
      match step
      case CQueue(op) => CurrentPopDrainsDry(s, op);
      case CLoadRunning =>
      case CProcess =>
    } else {
      MainFrame(s, step);
    }
  }

  lemma PushKeepsHead<T>(s: State<T>, op: Q.Step<T>)
    requires Inv(s) && Enabled(s, RQueue(op))
    ensures PushNext(s, op).q.headStores == s.q.headStores
  {
    Q.ProducerFrame(s.q, op);
  }

  lemma {:induction false} CurrentRunDrainsDry<T>(s: State<T>, steps: seq<Step<T>>, s': State<T>)
    requires Inv(s) && DrainedDry(s) && RunsCurrent(s, steps, s')
    ensures Inv(s') && DrainedDry(s') && Runs(s, steps, s')
    decreases |steps|
  {
    if steps != [] {
      StepKeepsInv(s, steps[0]);
      CurrentStepDrainsDry(s, steps[0]);
      CurrentRunDrainsDry(Next(s, steps[0]), steps[1..], s');
    }
  }

  /** If the load of the tail that ends the drain loop is current, an early stop loses at most one
      record, however stale all other loads are. */
  lemma EarlyStopWithCurrentTail<T>(buffer: seq<T>, file: seq<T>, steps: seq<Step<T>>, s: State<T>)
    requires IsPow2(|buffer|) && RunsCurrent(Init(buffer, file), steps, s)
    requires s.mpc.MEnd?
    ensures |s.processed| <= s.pos <= |s.processed| + 1
    ensures |s.processed| <= |file| && s.processed == file[..|s.processed|]
  {
    InitInv(buffer, file);
    CurrentRunDrainsDry(Init(buffer, file), steps, s);
    EarlyStopLoss(buffer, file, steps, s);
  }

  /** Replay complete. From the moment main takes that branch, every readable record has been
      pushed and popped exactly once, and nothing that happens afterwards pushes another; once
      the threads have joined, exactly the file has been processed and counted. */
  lemma ReplayCompleteMeansEverything<T>(buffer: seq<T>, file: seq<T>, steps: seq<Step<T>>, s: State<T>,
                                         later: seq<Step<T>>, s': State<T>)
    requires IsPow2(|buffer|) && Runs(Init(buffer, file), steps, s) && s.complete
    requires Runs(s, later, s')
    ensures s.q.pushed == s.q.popped == file
    ensures s'.q.pushed == s'.q.popped == file && s'.replayed == s'.pos == |file|
    ensures s'.mpc.MEnd? || s'.cpc.CDone? ==> s'.processed == file
  {
    InitInv(buffer, file);
    RunKeepsInv(Init(buffer, file), steps, s);
    RunKeepsInv(s, later, s');
  }
}
