/** The replay thread as one caller sees it (src/replay/replay_engine.cpp). What the other threads
    do meanwhile is an input: the values its loads of `running` and `paused` return, and how many
    items the consumer takes between two attempts to push. All interleavings of the threads
    themselves are the subject of ReplayProtocol. */
module ReplayEngines {
  import opened SpscQueues
  import opened Words
  import opened Recording
  import opened Arrivals
  import opened DiskIo

  class Outside {
    var running: seq<bool>   // what successive loads return; false once it is used up
    var paused: seq<bool>
    var pops: seq<nat>

    constructor (running: seq<bool>, paused: seq<bool>, pops: seq<nat>)
      ensures this.running == running && this.paused == paused && this.pops == pops
    {
      this.running, this.paused, this.pops := running, paused, pops;
    }

    method LoadRunning() returns (b: bool)
      modifies `running
      ensures b == (old(running) != [] && old(running)[0])
      ensures running == if old(running) == [] then [] else old(running)[1..]
    {
      b := running != [] && running[0];
      running := if running == [] then [] else running[1..];
    }

    method LoadPaused() returns (b: bool)
      modifies `paused
      ensures b == (old(paused) != [] && old(paused)[0])
      ensures paused == if old(paused) == [] then [] else old(paused)[1..]
    {
      b := paused != [] && paused[0];
      paused := if paused == [] then [] else paused[1..];
    }

    /** The consumer runs: it takes some items from the front of the queue. */
    method Yield(queue: SpscQueue<Parsed>) returns (ghost taken: seq<Parsed>)
      requires queue.Valid()
      modifies `pops, queue`head, queue`popped, queue`contents
      ensures queue.Valid() && old(queue.contents) == taken + queue.contents
    {
      taken := [];
      if pops != [] {
        var k := pops[0];
        pops := pops[1..];
        while k > 0
          invariant queue.Valid() && old(queue.contents) == taken + queue.contents
          modifies queue`head, queue`popped, queue`contents
        {
          var r := queue.TryPop();
          taken := taken + (match r case Some(m) => [m] case None => []);
          k := k - 1;
        }
      }
    }
  }

  /** What the i-th load of a flag returns. */
  predicate Reads(flag: seq<bool>, i: nat) { i < |flag| && flag[i] }

  function Drop(flag: seq<bool>, n: nat): seq<bool> { if n <= |flag| then flag[n..] else [] }

  lemma DropNext(flag: seq<bool>, n: nat)
    ensures Drop(flag, 0) == flag
    ensures Reads(flag, n) <==> Drop(flag, n) != [] && Drop(flag, n)[0]
    ensures Drop(flag, n + 1) == if Drop(flag, n) == [] then [] else Drop(flag, n)[1..]
  {
  }

  /** The first k tests of the inner loop went on waiting. */
  ghost predicate WentOn(k: nat, running: seq<bool>, paused: seq<bool>) {
    forall i: nat {:trigger Reads(paused, i)} :: i < k ==> Reads(paused, i) && Reads(running, i)
  }

  /** The inner loop ended at its k-th test. */
  ghost predicate Waited(k: nat, running: seq<bool>, paused: seq<bool>, running': seq<bool>, paused': seq<bool>) {
    && WentOn(k, running, paused) && paused' == Drop(paused, k + 1)
    && if Reads(paused, k) then !Reads(running, k) && running' == Drop(running, k + 1) else running' == Drop(running, k)
  }

  lemma Begin(running: seq<bool>, paused: seq<bool>)
    ensures WentOn(0, running, paused)
  {
  }

  lemma GoOn(k: nat, running: seq<bool>, paused: seq<bool>)
    requires WentOn(k, running, paused) && Reads(paused, k) && Reads(running, k)
    ensures WentOn(k + 1, running, paused)
  {
    hide Reads;
  }

  function AsDepths(us: seq<DepthUpdate>): (ms: seq<Parsed>)
    ensures |ms| == |us|
  {
    seq(|us|, i requires 0 <= i < |us| => ParsedDepth(us[i]))
  }

  /** Two stretches of a queue's history put together. */
  lemma Rejoin(a: seq<Parsed>, t: seq<Parsed>, q: seq<Parsed>, more: seq<Parsed>, q': seq<Parsed>)
    requires a == t + q && q == more + q'
    ensures a == (t + more) + q'
  {
  }

  lemma Append(t: seq<Parsed>, q: seq<Parsed>, m: Parsed)
    ensures (t + q) + [m] == t + (q + [m])
  {
  }

  lemma ReplayedCons(e: Entry, es: seq<Entry>)
    ensures Replayed([e] + es) == [FromRecord(e.record)] + Replayed(es)
  {
  }

  lemma NothingReplayed()
    ensures Replayed([]) == []
  {
  }

  /** What has become of the records of the file and of the items of the queue. */
  ghost predicate Balanced(file: seq<DepthUpdate>, pushed: seq<DepthUpdate>, inHand: seq<DepthUpdate>, rest: seq<DepthUpdate>,
                           finished: bool, queued: seq<Parsed>, taken: seq<Parsed>, contents: seq<Parsed>) {
    && |inHand| <= 1 && file == (if finished then pushed else pushed + inHand + rest)
    && queued + AsDepths(pushed) == taken + contents
  }

  /** The balance of a run and that of its next iteration make the balance of both. */
  lemma Combine(file: seq<DepthUpdate>, us: seq<DepthUpdate>, rest: seq<DepthUpdate>, queued: seq<Parsed>, t: seq<Parsed>, q: seq<Parsed>,
                read: seq<DepthUpdate>, more: bool, finished: bool, gone: seq<Parsed>, rest': seq<DepthUpdate>, q': seq<Parsed>)
    requires Balanced(file, us, [], rest, false, queued, t, q) && |read| <= 1 && (more ==> !finished)
    requires rest == (if finished then [] else read + rest')
    requires q + AsDepths(if more then read else []) == gone + q'
    ensures Balanced(file, us + (if more then read else []), if more then [] else read, rest', finished, queued, t + gone, q')
  {
    var vs := if more then read else [];
    assert AsDepths(us + vs) == AsDepths(us) + AsDepths(vs);
    Assoc(queued, AsDepths(us), AsDepths(vs));
    Assoc(t, q, AsDepths(vs));
    Assoc(t, gone, q');
  }

  lemma Balance(file: seq<DepthUpdate>, pushed: seq<DepthUpdate>, inHand: seq<DepthUpdate>, rest: seq<DepthUpdate>,
                finished: bool, queued: seq<Parsed>, taken: seq<Parsed>, contents: seq<Parsed>)
    requires Balanced(file, pushed, inHand, rest, finished, queued, taken, contents)
    ensures |inHand| <= 1 && queued + AsDepths(pushed) == taken + contents
    ensures if finished then file == pushed else file == pushed + inHand + rest
  {
  }

  lemma Untouched(file: seq<DepthUpdate>, queued: seq<Parsed>)
    ensures Balanced(file, [], [], file, false, queued, [], queued)
  {
  }

  lemma Assoc<T>(a: seq<T>, b: seq<T>, c: seq<T>)
    ensures a + (b + c) == (a + b) + c
  {
  }

  lemma OneDepth(u: DepthUpdate)
    ensures AsDepths([u]) == [ParsedDepth(u)] && AsDepths([]) == []
  {
  }

  class ReplayEngine {
    const reader: DiskReader
    const queue: SpscQueue<Parsed>
    var finished: bool
    var replayed: nat
    var totalRecords: u32
    ghost var pushed: seq<DepthUpdate>   // what this run has pushed
    ghost var taken: seq<Parsed>         // what the consumer has taken meanwhile

    ghost predicate Valid()
      reads this, reader, reader.file, queue, queue.buffer
    {
      reader.Valid() && queue.Valid()
    }

    /** The updates the file still holds from the reader's position on. */
    ghost function Remaining(): seq<DepthUpdate>
      requires reader.Valid()
      reads reader, reader.file
    {
      if reader.file == null then [] else Replayed(ReadAll(reader.file.bytes, reader.pos))
    }

    constructor (queue: SpscQueue<Parsed>)
      requires queue.Valid()
      ensures Valid() && this.queue == queue && fresh(reader) && reader.file == null
    {
      reader := new DiskReader();
      this.queue := queue;
      finished, replayed, totalRecords, pushed, taken := false, 0, 0, [], [];
    }

    /** `load`: the count comes from the header, the records from the file. */
    method Load(source: ByteFile?) returns (ok: bool)
      requires Valid()
      modifies reader, `totalRecords
      ensures Valid() && (ok <==> reader.file != null)
      ensures ok <==>
        && source != null && |source.bytes| >= FILE_HEADER_SIZE
        && GetFileHeader(source.bytes[..FILE_HEADER_SIZE]).magic == FILE_MAGIC
        && GetFileHeader(source.bytes[..FILE_HEADER_SIZE]).version == FILE_VERSION
      ensures ok ==> reader.file == source && reader.pos == FILE_HEADER_SIZE
      ensures totalRecords == if ok then GetFileHeader(source.bytes[..FILE_HEADER_SIZE]).recordCount else old(totalRecords)
    {
      ok := reader.Open(source);
      if ok { totalRecords := reader.header.recordCount; }
    }

    /** The next record as a runtime update. */
    method ReadUpdate() returns (ok: bool, u: DepthUpdate)
      requires reader.Valid()
      modifies reader`pos
      ensures reader.Valid()
      ensures ok ==> old(Remaining()) == [u] + Remaining()
      ensures !ok ==> old(Remaining()) == []
    {
      hide Replayed, FromRecord, ReadNext;
      ghost var at := reader.pos;
      var record, rhdr;
      ok, record, rhdr := reader.ReadNextRecord();
      u := FromRecord(record);
      if ok {
        ReplayedCons(Entry(rhdr.wallUs, record), ReadAll(reader.file.bytes, reader.pos));
      } else {
        NothingReplayed();
      }
    }

    /** Retries until there is room, or gives up once `running` is seen false. */
    method PushWithBackpressure(u: DepthUpdate, outside: Outside) returns (ok: bool, ghost gone: seq<Parsed>)
      requires queue.Valid()
      modifies outside, queue`tail, queue`pushed, queue`head, queue`popped, queue`contents, queue.buffer
      ensures queue.Valid() && |outside.running| <= old(|outside.running|)
      ensures !ok ==> old(queue.contents) == gone + queue.contents
      ensures ok ==> old(queue.contents) + [ParsedDepth(u)] == gone + queue.contents
    {
      hide SpscQueue.Valid;
      ok := queue.TryPush(ParsedDepth(u));
      gone := [];
      while !ok
        invariant queue.Valid() && |outside.running| <= old(|outside.running|)
        invariant !ok ==> old(queue.contents) == gone + queue.contents
        invariant ok ==> old(queue.contents) + [ParsedDepth(u)] == gone + queue.contents
        decreases |outside.running|, !ok
      {
        var run := outside.LoadRunning();
        if !run { return; }
        ghost var queued := queue.contents;
        ghost var more := outside.Yield(queue);
        Rejoin(old(queue.contents), gone, queued, more, queue.contents);
        gone := gone + more;
        ghost var left := queue.contents;
        ok := queue.TryPush(ParsedDepth(u));
        Append(gone, left, ParsedDepth(u));
      }
    }

    /** One record: read, pushed and counted. `more` tells whether the loop goes on. */
    method ReplayNext(outside: Outside) returns (more: bool, ghost read: seq<DepthUpdate>, ghost gone: seq<Parsed>)
      requires Valid() && !finished
      modifies `finished, `replayed, `pushed, `taken, reader`pos, outside
      modifies queue`tail, queue`pushed, queue`head, queue`popped, queue`contents, queue.buffer
      ensures Valid() && |outside.running| <= old(|outside.running|) && (more ==> !finished && |read| == 1)
      ensures |read| <= 1 && old(Remaining()) == (if finished then [] else read + Remaining())
      ensures pushed == old(pushed) + (if more then read else []) && replayed == old(replayed) + (if more then 1 else 0)
      ensures old(queue.contents) + AsDepths(if more then read else []) == gone + queue.contents
      ensures taken == old(taken) + gone
    {
      hide Remaining, SpscQueue.Valid, DiskReader.Valid, AsDepths;
      read, gone := [], [];
      var u;
      more, u := ReadUpdate();
      OneDepth(u);
      if !more {
        finished := true;
        return;
      }
      read := [u];
      more, gone := PushWithBackpressure(u, outside);
      taken := taken + gone;
      if !more { return; }
      replayed, pushed := replayed + 1, pushed + [u];
    }

    /** `start` and `run`. Whatever the outside does: exactly the file's next records are pushed, in
        order and none twice; everything that was queued before or pushed is either taken or still
        queued; once `finished` is set the whole rest of the file has been pushed; otherwise at most
        one record has been read without being pushed. */
    method Run(outside: Outside) returns (ghost inHand: seq<DepthUpdate>)
      requires Valid()
      modifies `finished, `replayed, `pushed, `taken, reader`pos, outside
      modifies queue`tail, queue`pushed, queue`head, queue`popped, queue`contents, queue.buffer
      ensures Valid() && replayed == |pushed|
      ensures finished ==> pushed == old(Remaining())
      ensures !finished ==> old(Remaining()) == pushed + inHand + Remaining() && |inHand| <= 1
      ensures old(queue.contents) + AsDepths(pushed) == taken + queue.contents
    {
      hide Remaining, SpscQueue.Valid, DiskReader.Valid, AsDepths, Balanced, Waited;
      finished, replayed, pushed, taken := false, 0, [], [];
      inHand := [];
      ghost var file, queued := Remaining(), queue.contents;
      Untouched(file, queued);
      var go := outside.LoadRunning();
      while go
        invariant Valid() && replayed == |pushed| && (go ==> !finished && inHand == [])
        invariant Balanced(file, pushed, inHand, Remaining(), finished, queued, taken, queue.contents)
        decreases |outside.running|, go
      {
        ghost var waited := WaitWhilePaused(outside);
        go := outside.LoadRunning();
        if go {
          ghost var us, rest, t, q := pushed, Remaining(), taken, queue.contents;
          ghost var read, gone;
          go, read, gone := ReplayNext(outside);
          Combine(file, us, rest, queued, t, q, read, go, finished, gone, Remaining(), queue.contents);
          inHand := if go then [] else read;
          if go { go := outside.LoadRunning(); }
        }
      }
      Balance(file, pushed, inHand, Remaining(), finished, queued, taken, queue.contents);
    }

    /** `while (paused && running)`: the k-th load of `paused` is the first that returns false, or the k-th
        load of `running` is. */
    method WaitWhilePaused(outside: Outside) returns (ghost k: nat)
      modifies outside
      ensures |outside.running| <= old(|outside.running|)
      ensures Waited(k, old(outside.running), old(outside.paused), outside.running, outside.paused)
    {
      hide Reads, Drop, WentOn;
      ghost var rs, ps := outside.running, outside.paused;
      k := 0;
      Begin(rs, ps);
      DropNext(ps, 0);
      DropNext(rs, 0);
      var paused := outside.LoadPaused();
      while paused
        invariant |outside.running| <= |rs| && WentOn(k, rs, ps)
        invariant paused == Reads(ps, k) && outside.running == Drop(rs, k) && outside.paused == Drop(ps, k + 1)
        decreases |outside.running|, paused
      {
        DropNext(rs, k);
        DropNext(ps, k + 1);
        var run := outside.LoadRunning();
        if !run { return; }
        GoOn(k, rs, ps);
        paused := outside.LoadPaused();
        k := k + 1;
      }
    }
  }
}
