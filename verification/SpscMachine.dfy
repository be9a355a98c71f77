/** The lock-free ring buffer of src/core/spsc_queue.h as a machine whose steps are the single
    atomic operations of `try_push` and `try_pop`, interleaved in any order.

    `head_` and `tail_` are atomics: each carries the sequence of all values ever stored into it,
    and a load by the other thread may return any of them that is not older than the last one
    that thread has seen (a stale but monotone view). The stored values are the masked indices;
    the unbounded counters of the proof are positions in these sequences. */
module SpscMachine {
  import opened Words
  import opened Masks

  /** Where the producer is inside `try_push`. */
  datatype Prod<T> =
    | PIdle
    | PTail(item: T, slot: nat)     // own index loaded
    | PReady(item: T, slot: nat)    // other index loaded, queue seen not full
    | PWritten(item: T, slot: nat)  // slot written, index not yet stored

  /** Where the consumer is inside `try_pop`. */
  datatype Cons<T> =
    | CIdle
    | CHead(slot: nat)
    | CReady(slot: nat)
    | CTaken(item: T, slot: nat)

  datatype State<T> = State(
    buffer: seq<T>,
    headStores: seq<nat>,  // every value head_ has held, oldest first
    tailStores: seq<nat>,
    prod: Prod<T>,
    cons: Cons<T>,
    seenHead: nat,         // position in headStores of the producer's last view
    seenTail: nat,         // position in tailStores of the consumer's last view
    pushed: seq<T>,        // items of the pushes that have returned true
    popped: seq<T>)        // items of the pops that have succeeded

  datatype Step<T> =
    | PushStart(item: T)
    | PushLoadHead(view: nat)
    | PushWrite
    | PushCommit
    | PopStart
    | PopLoadTail(view: nat)
    | PopRead(leftover: T)  // moving out leaves an unspecified value in the slot
    | PopCommit

  ghost predicate WellFormed<T>(s: State<T>) {
    |s.headStores| > 0 && |s.tailStores| > 0 && IsPow2(|s.buffer|) && |s.buffer| > 0
  }

  function Head<T>(s: State<T>): nat
    requires |s.headStores| > 0
  {
    s.headStores[|s.headStores| - 1]
  }

  function Tail<T>(s: State<T>): nat
    requires |s.tailStores| > 0
  {
    s.tailStores[|s.tailStores| - 1]
  }

  /** Number of completed pops and pushes: the unbounded counters behind the masked indices. */
  function H<T>(s: State<T>): nat
    requires |s.headStores| > 0
  {
    |s.headStores| - 1
  }

  function T<T>(s: State<T>): nat
    requires |s.tailStores| > 0
  {
    |s.tailStores| - 1
  }

  function Advance(i: nat, cap: nat): nat
    requires cap > 0
  {
    And(i + 1, cap - 1)
  }

  ghost predicate Enabled<T>(s: State<T>, step: Step<T>) {
    WellFormed(s) &&
    match step
    case PushStart(_) => s.prod.PIdle?
    case PushLoadHead(v) => s.prod.PTail? && s.seenHead <= v < |s.headStores|
    case PushWrite => s.prod.PReady? && s.prod.slot < |s.buffer|
    case PushCommit => s.prod.PWritten?
    case PopStart => s.cons.CIdle?
    case PopLoadTail(v) => s.cons.CHead? && s.seenTail <= v < |s.tailStores|
    case PopRead(_) => s.cons.CReady? && s.cons.slot < |s.buffer|
    case PopCommit => s.cons.CTaken?
  }

  /** `try_push` returns false: the loaded head is the successor of the own tail. */
  ghost predicate SeesFull<T>(s: State<T>, v: nat)
    requires WellFormed(s) && s.prod.PTail? && v < |s.headStores|
  {
    Advance(s.prod.slot, |s.buffer|) == s.headStores[v]
  }

  /** `try_pop` returns nothing: the loaded tail is the own head. */
  ghost predicate SeesEmpty<T>(s: State<T>, v: nat)
    requires WellFormed(s) && s.cons.CHead? && v < |s.tailStores|
  {
    s.cons.slot == s.tailStores[v]
  }

  ghost function Next<T>(s: State<T>, step: Step<T>): State<T>
    requires Enabled(s, step)
  {
    match step
    case PushStart(x) => s.(prod := PTail(x, Tail(s)))
    case PushLoadHead(v) =>
      s.(seenHead := v,
         prod := if SeesFull(s, v) then PIdle else PReady(s.prod.item, s.prod.slot))
    case PushWrite =>
      s.(buffer := s.buffer[s.prod.slot := s.prod.item], prod := PWritten(s.prod.item, s.prod.slot))
    case PushCommit =>
      s.(tailStores := s.tailStores + [Advance(s.prod.slot, |s.buffer|)],
         pushed := s.pushed + [s.prod.item], prod := PIdle)
    case PopStart => s.(cons := CHead(Head(s)))
    case PopLoadTail(v) =>
      s.(seenTail := v,
         cons := if SeesEmpty(s, v) then CIdle else CReady(s.cons.slot))
    case PopRead(junk) =>
      s.(buffer := s.buffer[s.cons.slot := junk],
         cons := CTaken(s.buffer[s.cons.slot], s.cons.slot))
    case PopCommit =>
      s.(headStores := s.headStores + [Advance(s.cons.slot, |s.buffer|)],
         popped := s.popped + [s.cons.item], cons := CIdle)
  }

  function Init<T>(buffer: seq<T>): State<T> {
    State(buffer, [0], [0], PIdle, CIdle, 0, 0, [], [])
  }

  /** s' is reached from s by taking the given steps, each enabled when it is taken. */
  ghost predicate Runs<T>(s: State<T>, steps: seq<Step<T>>, s': State<T>)
    decreases |steps|
  {
    if steps == [] then s == s'
    else Enabled(s, steps[0]) && Runs(Next(s, steps[0]), steps[1..], s')
  }

  // ---------------------------------------------------------------- the invariant

  function Slot(i: nat, cap: nat): nat
    requires cap > 0
  {
    i % cap
  }

  /** Every value ever stored is the masked position it was stored at. */
  ghost predicate Masked(stores: seq<nat>, cap: nat)
    requires cap > 0
  {
    forall i {:trigger stores[i]} :: 0 <= i < |stores| ==> stores[i] == Slot(i, cap)
  }

  /** Oldest item still held in its slot: a consumer that has moved its item out owns the slot. */
  function Oldest<T>(s: State<T>): nat
    requires |s.headStores| > 0
  {
    if s.cons.CTaken? then H(s) + 1 else H(s)
  }

  ghost predicate Counters<T>(s: State<T>) {
    && WellFormed(s)
    && var cap := |s.buffer|;
    && Masked(s.headStores, cap) && Masked(s.tailStores, cap)
    && s.seenHead <= H(s) <= s.seenTail <= T(s)
    && T(s) < s.seenHead + cap
    && |s.pushed| == T(s) && s.popped == s.pushed[..H(s)]
  }

  ghost predicate Contents<T>(s: State<T>)
    requires Counters(s)
  {
    forall i {:trigger s.pushed[i]} :: Oldest(s) <= i < T(s) ==> s.buffer[Slot(i, |s.buffer|)] == s.pushed[i]
  }

  ghost predicate ProdInv<T>(s: State<T>)
    requires Counters(s)
  {
    var cap := |s.buffer|;
    match s.prod
    case PIdle => true
    case PTail(_, slot) => slot == Slot(T(s), cap)
    case PReady(_, slot) => slot == Slot(T(s), cap) && T(s) + 1 < s.seenHead + cap
    case PWritten(item, slot) => slot == Slot(T(s), cap) && T(s) + 1 < s.seenHead + cap && s.buffer[slot] == item
  }

  ghost predicate ConsInv<T>(s: State<T>)
    requires Counters(s)
  {
    var cap := |s.buffer|;
    match s.cons
    case CIdle => true
    case CHead(slot) => slot == Slot(H(s), cap)
    case CReady(slot) => slot == Slot(H(s), cap) && H(s) < s.seenTail
    case CTaken(item, slot) => slot == Slot(H(s), cap) && H(s) < s.seenTail && item == s.pushed[H(s)]
  }

  ghost predicate Inv<T>(s: State<T>) {
    Counters(s) && Contents(s) && ProdInv(s) && ConsInv(s)
  }

  lemma InitInv<T>(buffer: seq<T>)
    requires IsPow2(|buffer|)
    ensures Inv(Init(buffer))
  {
    MaskIsMod(0, |buffer|);
  }

  /** Comparing masked indices is exact: equal only for equal counters less than a lap apart. */
  lemma SameSlot(i: nat, j: nat, cap: nat)
    requires cap > 0 && i <= j < i + cap
    ensures Slot(i, cap) == Slot(j, cap) <==> i == j
  {
    if i < j { DistinctSlots(i, j, cap); }
  }

  /** What the "full" and "empty" tests decide, stale views included. */
  lemma FullTest<T>(s: State<T>, v: nat)
    requires Inv(s) && s.prod.PTail? && s.seenHead <= v < |s.headStores|
    ensures SeesFull(s, v) <==> T(s) - v == |s.buffer| - 1
  {
    hide And, IsPow2;
    FullIffOneLap(v, T(s), |s.buffer|);
  }

  lemma EmptyTest<T>(s: State<T>, v: nat)
    requires Inv(s) && s.cons.CHead? && s.seenTail <= v < |s.tailStores|
    ensures SeesEmpty(s, v) <==> v == H(s)
  {
    hide And, IsPow2;
    SameSlot(H(s), v, |s.buffer|);
  }

  lemma ProducerKeepsInv<T>(s: State<T>, step: Step<T>)
    requires Inv(s) && Enabled(s, step)
    requires step.PushStart? || step.PushLoadHead? || step.PushWrite? || step.PushCommit?
    ensures Inv(Next(s, step))
  {
    hide And, IsPow2;
    match step
    case PushStart(_) =>
    case PushLoadHead(v) => FullTest(s, v);
    case PushWrite => PushWriteKeepsInv(s);
    case PushCommit => PushCommitKeepsInv(s);
  }

  lemma PushWriteKeepsInv<T>(s: State<T>)
    requires Inv(s) && Enabled(s, PushWrite)
    ensures Inv(Next(s, PushWrite))
  {
    hide And, IsPow2, Masked, Slot;
    forall i | H(s) <= i < T(s) ensures Slot(i, |s.buffer|) != s.prod.slot {
      SameSlot(i, T(s), |s.buffer|);
    }
    SlotsInRange(|s.buffer|);
  }

  lemma SlotsInRange(cap: nat)
    requires cap > 0
    ensures forall i: nat :: Slot(i, cap) < cap
  {
  }

  lemma PushCommitKeepsInv<T>(s: State<T>)
    requires Inv(s) && Enabled(s, PushCommit)
    ensures Inv(Next(s, PushCommit))
  {
    hide And, IsPow2;
    var s' := Next(s, PushCommit);
    NextSlot(T(s), |s.buffer|);
    assert Masked(s'.tailStores, |s.buffer|);
    assert s'.pushed[..H(s)] == s.pushed[..H(s)];
  }

  lemma PopStartKeepsInv<T>(s: State<T>)
    requires Inv(s) && Enabled(s, PopStart)
    ensures Inv(Next(s, PopStart))
  {
    hide And, IsPow2, ProdInv, Contents;
    SameContents(s, Next(s, PopStart));
  }

  lemma PopLoadTailKeepsInv<T>(s: State<T>, v: nat)
    requires Inv(s) && Enabled(s, PopLoadTail(v))
    ensures Inv(Next(s, PopLoadTail(v)))
  {
    hide And, IsPow2, ProdInv, Contents, Masked;
    EmptyTest(s, v);
    SameContents(s, Next(s, PopLoadTail(v)));
  }

  /** What a step leaves alone is as valid as before. */
  lemma SameContents<T>(s: State<T>, s': State<T>)
    requires Counters(s) && Counters(s') && Contents(s) && ProdInv(s)
    requires s'.buffer == s.buffer && s'.pushed == s.pushed && s'.headStores == s.headStores
    requires s'.tailStores == s.tailStores && s'.prod == s.prod && s'.seenHead == s.seenHead && Oldest(s') == Oldest(s)
    ensures Contents(s') && ProdInv(s')
  {
    hide And, IsPow2, Masked, Slot;
  }

  /** Moving an item out disturbs no slot but its own. */
  lemma PopReadKeepsInv<T>(s: State<T>, leftover: T)
    requires Inv(s) && Enabled(s, PopRead(leftover))
    ensures Inv(Next(s, PopRead(leftover)))
  {
    hide And, IsPow2, Masked;
    var s', cap := Next(s, PopRead(leftover)), |s.buffer|;
    forall i | H(s) < i <= T(s) && i < H(s) + cap ensures Slot(i, cap) != s.cons.slot {
      SameSlot(H(s), i, cap);
    }
    assert s.buffer[s.cons.slot] == s.pushed[H(s)];
    assert Contents(s');
  }

  lemma PopCommitKeepsInv<T>(s: State<T>)
    requires Inv(s) && Enabled(s, PopCommit)
    ensures Inv(Next(s, PopCommit))
  {
    hide And, IsPow2;
    var s', cap := Next(s, PopCommit), |s.buffer|;
    NextSlot(H(s), cap);
    assert Masked(s'.headStores, cap);
    assert s'.popped == s'.pushed[..H(s')];
  }

  lemma ConsumerKeepsInv<T>(s: State<T>, step: Step<T>)
    requires Inv(s) && Enabled(s, step)
    requires step.PopStart? || step.PopLoadTail? || step.PopRead? || step.PopCommit?
    ensures Inv(Next(s, step))
  {
    hide Inv, Next;
    match step
    case PopStart => PopStartKeepsInv(s);
    case PopLoadTail(v) => PopLoadTailKeepsInv(s, v);
    case PopRead(leftover) => PopReadKeepsInv(s, leftover);
    case PopCommit => PopCommitKeepsInv(s);
  }

  /** A consumer step leaves the producer's words alone. */
  lemma ConsumerFrame<T>(s: State<T>, step: Step<T>)
    requires Inv(s) && Enabled(s, step)
    requires step.PopStart? || step.PopLoadTail? || step.PopRead? || step.PopCommit?
    ensures var s' := Next(s, step);
      && s'.prod == s.prod && s'.pushed == s.pushed && s'.tailStores == s.tailStores && s'.seenHead == s.seenHead
      && H(s') == (if step.PopCommit? then H(s) + 1 else H(s))
      && s'.popped == (if step.PopCommit? then s.popped + [s.cons.item] else s.popped)
      && (step.PopLoadTail? && s'.cons.CIdle? ==> step.view == H(s) <= T(s))
  {
    if step.PopLoadTail? { EmptyTest(s, step.view); }
  }

  /** A producer step leaves the consumer's words alone. */
  lemma ProducerFrame<T>(s: State<T>, step: Step<T>)
    requires Inv(s) && Enabled(s, step)
    requires step.PushStart? || step.PushLoadHead? || step.PushWrite? || step.PushCommit?
    ensures var s' := Next(s, step);
      && s'.cons == s.cons && s'.popped == s.popped && s'.headStores == s.headStores && s'.seenTail == s.seenTail
      && T(s') == (if step.PushCommit? then T(s) + 1 else T(s))
      && s'.pushed == (if step.PushCommit? then s.pushed + [s.prod.item] else s.pushed)
      && s.seenHead <= s'.seenHead
  {
  }

  lemma StepKeepsInv<T>(s: State<T>, step: Step<T>)
    requires Inv(s) && Enabled(s, step)
    ensures Inv(Next(s, step))
  {
    if step.PushStart? || step.PushLoadHead? || step.PushWrite? || step.PushCommit? {
      ProducerKeepsInv(s, step);
    } else {
      ConsumerKeepsInv(s, step);
    }
  }

  lemma {:induction false} RunKeepsInv<T>(s: State<T>, steps: seq<Step<T>>, s': State<T>)
    requires Inv(s) && Runs(s, steps, s')
    ensures Inv(s')
    decreases |steps|
  {
    if steps != [] {
      StepKeepsInv(s, steps[0]);
      RunKeepsInv(Next(s, steps[0]), steps[1..], s');
    }
  }

  // ---------------------------------------------------------------- refinement of a FIFO

  /** The abstract queue: pushed and not yet popped. */
  function Fifo<T>(s: State<T>): seq<T>
    requires |s.headStores| > 0 && |s.headStores| - 1 <= |s.pushed|
  {
    s.pushed[H(s)..]
  }

  /** Every step is an enqueue at the back, a dequeue at the front, or invisible. An enqueue
      finds room for one of Capacity - 1 items; a failed call changes no shared word and was
      justified by the view it loaded. */
  lemma StepRefinesFifo<T>(s: State<T>, step: Step<T>)
    requires Inv(s) && Enabled(s, step)
    ensures Inv(Next(s, step))
    ensures |Fifo(Next(s, step))| <= |s.buffer| - 1
    ensures step.PushCommit? ==>
      |Fifo(s)| < |s.buffer| - 1 && Fifo(Next(s, step)) == Fifo(s) + [s.prod.item]
    ensures step.PopCommit? ==>
      Fifo(s) == [s.cons.item] + Fifo(Next(s, step)) && Next(s, step).popped == s.popped + [s.cons.item]
    ensures !step.PushCommit? && !step.PopCommit? ==>
      Fifo(Next(s, step)) == Fifo(s) && Next(s, step).pushed == s.pushed && Next(s, step).popped == s.popped
    ensures step.PushLoadHead? && Next(s, step).prod.PIdle? ==>
      T(s) - step.view == |s.buffer| - 1 && Next(s, step) == s.(prod := PIdle, seenHead := step.view)
    ensures step.PushLoadHead? && step.view == H(s) ==>
      (Next(s, step).prod.PIdle? <==> |Fifo(s)| == |s.buffer| - 1)
    ensures step.PopLoadTail? && Next(s, step).cons.CIdle? ==>
      step.view == H(s) && Next(s, step) == s.(cons := CIdle, seenTail := step.view)
    ensures step.PopLoadTail? && step.view == T(s) ==>
      (Next(s, step).cons.CIdle? <==> Fifo(s) == [])
  {
    hide And, IsPow2, Contents, Masked, Slot, Advance;
    StepKeepsInv(s, step);
    match step
    case PushLoadHead(v) => FullTest(s, v);
    case PopLoadTail(v) => EmptyTest(s, v);
    case PopCommit => assert s.pushed[H(s)..] == [s.pushed[H(s)]] + s.pushed[H(s) + 1..];
    case _ =>
  }

  /** The slot a producer may write is never the slot a consumer may read; and the last item
      that lived in the written slot was released by a head store the producer has seen, the
      item in the read slot published by a tail store the consumer has seen. */
  lemma NoSlotIsShared<T>(s: State<T>)
    requires Inv(s)
    ensures (s.prod.PReady? || s.prod.PWritten?) && (s.cons.CReady? || s.cons.CTaken?) ==>
      s.prod.slot != s.cons.slot
    ensures s.prod.PReady? || s.prod.PWritten? ==> T(s) - |s.buffer| < s.seenHead
    ensures s.cons.CReady? || s.cons.CTaken? ==> H(s) < s.seenTail
  {
    if (s.prod.PReady? || s.prod.PWritten?) && (s.cons.CReady? || s.cons.CTaken?) {
      SameSlot(H(s), T(s), |s.buffer|);
    }
  }

  /** `size_approx` at one instant, from the two masked indices alone. */
  function SizeApprox(head: nat, tail: nat, cap: nat): nat
    requires cap > 0
  {
    And((tail - head) % U64_SPAN, cap - 1)
  }

  /** The items found by walking the buffer from a masked index. */
  ghost function Walk<T>(buffer: seq<T>, i: nat, n: nat): seq<T>
    requires |buffer| > 0 && IsPow2(|buffer|)
    requires i < |buffer|
    decreases n
  {
    if n == 0 then [] else
    MaskIsMod(i + 1, |buffer|);
    [buffer[i]] + Walk(buffer, Advance(i, |buffer|), n - 1)
  }

  lemma {:induction false} WalkIsFifo<T>(s: State<T>, i: nat, n: nat)
    requires Inv(s) && Oldest(s) <= i && i + n == T(s)
    ensures Walk(s.buffer, Slot(i, |s.buffer|), n) == s.pushed[i..]
    decreases n
  {
    if n > 0 {
      var cap := |s.buffer|;
      NextSlot(i, cap);
      WalkIsFifo(s, i + 1, n - 1);
      assert s.buffer[Slot(i, cap)] == s.pushed[i];
      assert Advance(Slot(i, cap), cap) == Slot(i + 1, cap);
      assert s.pushed[i..] == [s.pushed[i]] + s.pushed[i + 1..];
    }
  }

  lemma SizeIsOccupancy<T>(s: State<T>)
    requires Inv(s) && |s.buffer| <= U64_SPAN
    ensures SizeApprox(Head(s), Tail(s), |s.buffer|) == T(s) - H(s)
  {
    hide And, IsPow2;
    MaskedSize(H(s), T(s), |s.buffer|);
  }

  /** The item a consumer has moved out but not yet released, if any. */
  function InHand<T>(s: State<T>): seq<T> {
    if s.cons.CTaken? then [s.cons.item] else []
  }

  /** The occupied slots as the two masked indices delimit them. */
  ghost function Ring<T>(s: State<T>): seq<T>
    requires Inv(s)
  {
    var cap, size := |s.buffer|, SizeApprox(Head(s), Tail(s), |s.buffer|);
    MaskIsMod(Head(s) + 1, cap);
    if !s.cons.CTaken? then Walk(s.buffer, Head(s), size)
    else if size == 0 then []
    else Walk(s.buffer, Advance(Head(s), cap), size - 1)
  }

  /** The ring in terms of the unbounded counters. */
  lemma RingIs<T>(s: State<T>)
    requires Inv(s) && |s.buffer| <= U64_SPAN
    ensures !s.cons.CTaken? ==> Ring(s) == Walk(s.buffer, Slot(H(s), |s.buffer|), T(s) - H(s))
    ensures s.cons.CTaken? ==> H(s) < T(s) && Ring(s) == Walk(s.buffer, Slot(H(s) + 1, |s.buffer|), T(s) - H(s) - 1)
  {
    hide And, IsPow2, Walk, Contents, ProdInv, SizeApprox;
    SizeIsOccupancy(s);
    if s.cons.CTaken? { NextSlot(H(s), |s.buffer|); }
  }

  lemma RingHoldsFifo<T>(s: State<T>)
    requires Inv(s) && |s.buffer| <= U64_SPAN
    ensures InHand(s) + Ring(s) == Fifo(s)
  {
    hide And, IsPow2, Walk, Ring, Contents, ProdInv, Slot, Masked;
    var h := H(s);
    RingIs(s);
    if s.cons.CTaken? {
      WalkIsFifo(s, h + 1, T(s) - h - 1);
      assert Fifo(s) == [s.pushed[h]] + s.pushed[h + 1..];
    } else {
      WalkIsFifo(s, h, T(s) - h);
    }
  }

  /** Main theorem. After any interleaving of producer and consumer steps with stale views, the
      items popped, followed by the item the consumer holds and the slots from head to tail as
      the masked indices delimit them, are the successfully pushed items in order; occupancy
      never exceeds Capacity - 1; each index is its unbounded counter modulo Capacity. */
  lemma EveryRunIsFifo<T>(buffer: seq<T>, steps: seq<Step<T>>, s: State<T>)
    requires |buffer| > 0 && And(|buffer|, |buffer| - 1) == 0 && |buffer| <= U64_SPAN
    requires Runs(Init(buffer), steps, s)
    ensures Inv(s)
    ensures s.popped + InHand(s) + Ring(s) == s.pushed
    ensures Head(s) == |s.popped| % |buffer| && Tail(s) == |s.pushed| % |buffer|
    ensures SizeApprox(Head(s), Tail(s), |buffer|) == |s.pushed| - |s.popped| <= |buffer| - 1
  {
    hide And, IsPow2;
    ReachableInv(buffer, steps, s);
    SizeIsOccupancy(s);
    RingHoldsFifo(s);
    PoppedThenFifo(s);
    assert s.popped + InHand(s) + Ring(s) == s.popped + (InHand(s) + Ring(s));
  }

  lemma ReachableInv<T>(buffer: seq<T>, steps: seq<Step<T>>, s: State<T>)
    requires |buffer| > 0 && And(|buffer|, |buffer| - 1) == 0 && Runs(Init(buffer), steps, s)
    ensures Inv(s) && |s.buffer| == |buffer|
  {
    StaticAssertIsPow2(|buffer|);
    InitInv(buffer);
    RunKeepsInv(Init(buffer), steps, s);
    RunKeepsCapacity(Init(buffer), steps, s);
  }

  lemma PoppedThenFifo<T>(s: State<T>)
    requires Inv(s)
    ensures s.popped + Fifo(s) == s.pushed
  {
  }

  lemma {:induction false} RunKeepsCapacity<T>(s: State<T>, steps: seq<Step<T>>, s': State<T>)
    requires Runs(s, steps, s')
    ensures |s'.buffer| == |s.buffer|
    decreases |steps|
  {
    if steps != [] { RunKeepsCapacity(Next(s, steps[0]), steps[1..], s'); }
  }
}
