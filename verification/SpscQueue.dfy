/** The ring buffer as an object (src/core/spsc_queue.h): what `try_push` and `try_pop` promise a
    single caller. How the two behave when interleaved is the subject of SpscMachine. */
module SpscQueues {
  import opened Wrappers
  import opened Words
  import opened Masks

  class SpscQueue<T(0)> {
    const capacity: nat
    const buffer: array<T>
    var head: nat
    var tail: nat
    ghost var popped: nat    // the unbounded counters behind the masked indices
    ghost var pushed: nat
    ghost var contents: seq<T>

    ghost predicate Valid()
      reads this, buffer
    {
      && IsPow2(capacity) && 0 < capacity <= U64_SPAN && buffer.Length == capacity
      && popped <= pushed < popped + capacity
      && head == popped % capacity && tail == pushed % capacity
      && |contents| == pushed - popped
      && forall i {:trigger contents[i]} :: 0 <= i < |contents| ==> contents[i] == buffer[(popped + i) % capacity]
    }

    /** The static assertion on the capacity is all that is asked of the caller. */
    constructor (capacity: nat)
      requires 0 < capacity <= U64_SPAN && And(capacity, capacity - 1) == 0
      ensures Valid() && contents == [] && this.capacity == capacity && fresh(buffer)
    {
      StaticAssertIsPow2(capacity);
      this.capacity := capacity;
      buffer := new T[capacity];
      head, tail, popped, pushed := 0, 0, 0, 0;
      contents := [];
    }

    /** Succeeds exactly when fewer than Capacity - 1 items are queued; a failed call changes nothing. */
    method TryPush(item: T) returns (ok: bool)
      requires Valid()
      modifies `tail, `pushed, `contents, buffer
      ensures Valid() && ok == (old(|contents|) < capacity - 1)
      ensures contents == if ok then old(contents) + [item] else old(contents)
      ensures !ok ==> tail == old(tail) && buffer[..] == old(buffer[..])
    {
      hide And, IsPow2;
      FullIffOneLap(popped, pushed, capacity);
      NextSlot(pushed, capacity);
      var nextTail := And(tail + 1, capacity - 1);
      if nextTail == head { return false; }
      forall i | 0 <= i < |contents| ensures buffer[(popped + i) % capacity] == contents[i] && (popped + i) % capacity != tail {
        DistinctSlots(popped + i, pushed, capacity);
      }
      buffer[tail] := item;
      tail := nextTail;
      pushed := pushed + 1;
      contents := contents + [item];
      ok := true;
    }

    /** Delivers the oldest item; nothing, and no change, exactly when the queue is empty. */
    method TryPop() returns (r: Option<T>)
      requires Valid()
      modifies `head, `popped, `contents
      ensures Valid() && (r.None? <==> old(contents) == [])
      ensures r.Some? ==> old(contents) == [r.value] + contents
      ensures r.None? ==> contents == old(contents) && head == old(head)
    {
      hide And, IsPow2;
      if popped < pushed { DistinctSlots(popped, pushed, capacity); }
      if head == tail { return None; }
      NextSlot(popped, capacity);
      r := Some(buffer[head]);
      assert contents[0] == buffer[(popped + 0) % capacity];
      head := And(head + 1, capacity - 1);
      ghost var rest := contents[1..];
      forall i | 0 <= i < |rest| ensures rest[i] == buffer[(popped + 1 + i) % capacity] {
        assert rest[i] == contents[i + 1];
      }
      popped := popped + 1;
      contents := rest;
    }

    /** Unsigned subtraction and mask give the exact number of items. */
    function SizeApprox(): (n: nat)
      requires Valid()
      reads this, buffer
      ensures n == |contents|
    {
      MaskedSize(popped, pushed, capacity);
      And((tail - head) % U64_SPAN, capacity - 1)
    }

    function Empty(): (e: bool)
      requires Valid()
      reads this, buffer
      ensures e <==> contents == []
    {
      EqualIffEmpty();
      head == tail
    }

    lemma EqualIffEmpty()
      requires Valid()
      ensures head == tail <==> contents == []
    {
      if popped < pushed { DistinctSlots(popped, pushed, capacity); }
    }
  }
}
