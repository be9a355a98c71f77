/** What the feed passes on (src/feed/feed_handler.cpp) and what the order book notices of it
    (src/engine/order_book.cpp). The socket and the JSON parser are not modelled: a message
    arrives as the parser's result. */
module Feed {
  import opened Wrappers
  import opened SpscQueues
  import opened Arrivals

  /** The messages that were kept. */
  function Kept<M>(ms: seq<M>, kept: seq<bool>): seq<M>
    requires |ms| == |kept|
  {
    if ms == [] then []
    else
      var n := |ms| - 1;
      Kept(ms[..n], kept[..n]) + (if kept[n] then [ms[n]] else [])
  }

  lemma KeptSnoc<M>(ms: seq<M>, kept: seq<bool>, m: M, k: bool)
    requires |ms| == |kept|
    ensures Kept(ms + [m], kept + [k]) == Kept(ms, kept) + (if k then [m] else [])
  {
    assert (ms + [m])[..|ms|] == ms && (kept + [k])[..|ms|] == kept;
  }

  class FeedHandler {
    const queue: SpscQueue<Parsed>
    var msgCount: nat
    var parseErrors: nat
    var queueFull: nat
    ghost var parsed: seq<Parsed>   // everything that parsed, in order of arrival
    ghost var kept: seq<bool>        // and whether it entered the queue
    ghost var accepted: seq<Parsed>

    /** Every message is counted exactly once: unparsable, dropped, or accepted. */
    ghost predicate Valid()
      reads this, queue, queue.buffer
    {
      && queue.Valid() && |parsed| == |kept| && accepted == Kept(parsed, kept)
      && msgCount == parseErrors + queueFull + |accepted|
      && |parsed| == queueFull + |accepted|
    }

    constructor (queue: SpscQueue<Parsed>)
      requires queue.Valid()
      ensures Valid() && this.queue == queue && parsed == [] && msgCount == 0
    {
      this.queue := queue;
      msgCount, parseErrors, queueFull := 0, 0, 0;
      parsed, kept, accepted := [], [], [];
    }

    method OnMessage(m: Option<Parsed>)
      requires Valid()
      modifies this, queue`tail, queue`pushed, queue`contents, queue.buffer
      ensures Valid() && msgCount == old(msgCount) + 1
      ensures m.None? ==>
        && parseErrors == old(parseErrors) + 1 && queueFull == old(queueFull)
        && parsed == old(parsed) && kept == old(kept) && queue.contents == old(queue.contents)
      ensures m.Some? ==>
        var room := |old(queue.contents)| < queue.capacity - 1;
        && parseErrors == old(parseErrors)
        && parsed == old(parsed) + [m.value] && kept == old(kept) + [room]
        && queueFull == old(queueFull) + (if room then 0 else 1)
        && queue.contents == old(queue.contents) + (if room then [m.value] else [])
    {
      msgCount := msgCount + 1;
      if m.None? {
        parseErrors := parseErrors + 1;
        return;
      }
      KeptSnoc(parsed, kept, m.value, |queue.contents| < queue.capacity - 1);
      var ok := queue.TryPush(m.value);
      if !ok {
        queueFull := queueFull + 1;
      }
      parsed, kept := parsed + [m.value], kept + [ok];
      accepted := accepted + (if ok then [m.value] else []);
    }
  }
}

/** Sequence gaps across drops. */
module GapAccounting {
  import opened Words
  import opened OrderBooks
  import opened Engine
  import opened Arrivals
  import opened Feed

  /** One update of a symbol's exchange stream, and whether the feed kept it. */
  datatype Sent = Sent(update: Update, kept: bool)

  /** The part of the feed's stream that concerns one symbol's book. */
  function SentFor(ms: seq<Message>, kept: seq<bool>, s: Symbol): seq<Sent>
    requires |ms| == |kept|
  {
    if ms == [] then []
    else
      var n := |ms| - 1;
      SentFor(ms[..n], kept[..n], s)
      + (if ms[n].Depth? && ms[n].update.symbol == s then [Sent(ms[n].update, kept[n])] else [])
  }

  function UpdatesFor(ms: seq<Message>, s: Symbol): seq<Update> {
    if ms == [] then []
    else
      var m := ms[|ms| - 1];
      UpdatesFor(ms[..|ms| - 1], s) + (if m.Depth? && m.update.symbol == s then [m.update] else [])
  }

  /** The updates that reach the book. */
  function Reaching(xs: seq<Sent>): seq<Update> {
    if xs == [] then []
    else Reaching(xs[..|xs| - 1]) + (if xs[|xs| - 1].kept then [xs[|xs| - 1].update] else [])
  }

  /** Dropping messages and picking out a symbol commute. */
  lemma {:induction false} KeptUpdatesReach(ms: seq<Message>, kept: seq<bool>, s: Symbol)
    requires |ms| == |kept|
    ensures UpdatesFor(Kept(ms, kept), s) == Reaching(SentFor(ms, kept, s))
  {
    if ms != [] {
      var n := |ms| - 1;
      var before, sent := Kept(ms[..n], kept[..n]), SentFor(ms[..n], kept[..n], s);
      KeptUpdatesReach(ms[..n], kept[..n], s);
      assert (before + [ms[n]])[..|before|] == before && before + [] == before;
      if ms[n].Depth? && ms[n].update.symbol == s {
        var x := Sent(ms[n].update, kept[n]);
        assert (sent + [x])[..|sent|] == sent;
      } else {
        assert UpdatesFor(before + [ms[n]], s) == UpdatesFor(before, s);
        assert SentFor(ms, kept, s) == sent;
      }
    }
  }

  /** Number of ids an update carries. */
  function Ids(u: Update): int { u.lastId - u.firstId + 1 }

  /** The exchange's promise: ids are positive and each update continues where the last one ended. */
  ghost predicate Contiguous(xs: seq<Sent>) {
    && (forall i {:trigger xs[i]} :: 0 <= i < |xs| ==> 0 < xs[i].update.firstId <= xs[i].update.lastId)
    && (forall i, j {:trigger xs[i], xs[j]} :: 0 <= i && j == i + 1 < |xs| ==>
          xs[j].update.firstId == xs[i].update.lastId + 1)
  }

  /** The gap `apply_update` reports at the k-th update, if it gets that far. */
  function Reported(xs: seq<Sent>, k: nat): nat
    requires k < |xs|
  {
    if xs[k].kept then Gap(ApplyAll(EmptyBook, Reaching(xs[..k])).lastId, xs[k].update.firstId) else 0
  }

  function ReportedUpTo(xs: seq<Sent>, n: nat): nat
    requires n <= |xs|
  {
    if n == 0 then 0 else ReportedUpTo(xs, n - 1) + Reported(xs, n - 1)
  }

  /** Ids carried by the dropped updates among xs[lo..hi]. */
  function DroppedIds(xs: seq<Sent>, lo: nat, hi: nat): int
    requires lo <= hi <= |xs|
  {
    if lo == hi then 0 else DroppedIds(xs, lo, hi - 1) + (if xs[hi - 1].kept then 0 else Ids(xs[hi - 1].update))
  }

  ghost predicate AllDropped(xs: seq<Sent>, lo: nat, hi: nat)
    requires hi <= |xs|
  {
    forall i {:trigger xs[i]} :: lo <= i < hi ==> !xs[i].kept
  }

  /** j is the last kept update before k. */
  ghost predicate Previous(xs: seq<Sent>, j: nat, k: nat)
    requires k <= |xs|
  {
    j < k && xs[j].kept && AllDropped(xs, j + 1, k)
  }

  /** The book's last id is that of the last update it was given. */
  lemma {:induction false} LastIdAfter(xs: seq<Sent>, j: nat, k: nat)
    requires k <= |xs| && Previous(xs, j, k)
    ensures ApplyAll(EmptyBook, Reaching(xs[..k])).lastId == xs[j].update.lastId
    decreases k
  {
    assert xs[..k][..k - 1] == xs[..k - 1];
    var before := Reaching(xs[..k - 1]);
    if j == k - 1 {
      assert (before + [xs[j].update])[..|before|] == before;
    } else {
      LastIdAfter(xs, j, k - 1);
    }
  }

  lemma {:induction false} NothingReached(xs: seq<Sent>, k: nat)
    requires k <= |xs| && AllDropped(xs, 0, k)
    ensures Reaching(xs[..k]) == []
  {
    if k > 0 {
      NothingReached(xs, k - 1);
      assert xs[..k][..k - 1] == xs[..k - 1];
    }
  }

  /** Between two updates lie exactly the ids of the updates in between. */
  lemma {:induction false} IdsBetween(xs: seq<Sent>, j: nat, k: nat)
    requires j < k < |xs| && Contiguous(xs) && AllDropped(xs, j + 1, k)
    ensures xs[k].update.firstId == xs[j].update.lastId + 1 + DroppedIds(xs, j + 1, k)
    ensures DroppedIds(xs, j + 1, k) >= k - j - 1
    decreases k
  {
    assert xs[k].update.firstId == xs[k - 1].update.lastId + 1;
    if j + 1 < k {
      IdsBetween(xs, j, k - 1);
      assert !xs[k - 1].kept;
      assert DroppedIds(xs, j + 1, k) == DroppedIds(xs, j + 1, k - 1) + Ids(xs[k - 1].update);
    }
  }

  lemma GapOf(lastId: u64, firstId: u64)
    requires 0 < lastId < firstId
    ensures Gap(lastId, firstId) == firstId - lastId - 1
  {
  }

  /** At a kept update whose predecessor among the kept ones is j: the reported gap is the number of
      ids dropped in between, and there is a report exactly if something was dropped. */
  lemma {:induction false} GapIsWhatWasDropped(xs: seq<Sent>, j: nat, k: nat)
    requires Contiguous(xs) && k < |xs| && xs[k].kept && Previous(xs, j, k)
    ensures Reported(xs, k) == DroppedIds(xs, j + 1, k)
    ensures Reported(xs, k) > 0 <==> exists d :: j < d < k && !xs[d].kept
  {
    LastIdAfter(xs, j, k);
    IdsBetween(xs, j, k);
    var last, first := xs[j].update.lastId, xs[k].update.firstId;
    assert first >= last + 1 && last + 1 < U64_SPAN;
    GapOf(last, first);
    if j + 1 < k { assert !xs[j + 1].kept; }
  }

  /** The first update that gets through is never reported, whatever was dropped before it. */
  lemma {:induction false} FirstKeptIsQuiet(xs: seq<Sent>, k: nat)
    requires k < |xs| && AllDropped(xs, 0, k)
    ensures Reported(xs, k) == 0
  {
    NothingReached(xs, k);
  }

  lemma {:induction false} QuietWhileDropping(xs: seq<Sent>, lo: nat, hi: nat)
    requires lo <= hi <= |xs| && AllDropped(xs, lo, hi)
    ensures ReportedUpTo(xs, hi) == ReportedUpTo(xs, lo)
    decreases hi
  {
    if lo < hi { QuietWhileDropping(xs, lo, hi - 1); }
  }

  lemma {:induction false} DroppedIdsSplit(xs: seq<Sent>, lo: nat, mid: nat, hi: nat)
    requires lo <= mid <= hi <= |xs|
    ensures DroppedIds(xs, lo, hi) == DroppedIds(xs, lo, mid) + DroppedIds(xs, mid, hi)
    decreases hi
  {
    if mid < hi { DroppedIdsSplit(xs, lo, mid, hi - 1); }
  }

  /** Index of the last kept update before k, given that there is one at or after f. */
  lemma {:induction false} FindPrevious(xs: seq<Sent>, f: nat, k: nat) returns (j: nat)
    requires f < k <= |xs| && xs[f].kept
    ensures f <= j && Previous(xs, j, k)
    decreases k
  {
    if xs[k - 1].kept { j := k - 1; } else { j := FindPrevious(xs, f, k - 1); }
  }

  /** All gaps reported up to a kept update l add up to the ids dropped since the first kept one f. */
  lemma {:induction false} GapsSumToDrops(xs: seq<Sent>, f: nat, l: nat)
    requires Contiguous(xs) && f <= l < |xs| && xs[f].kept && AllDropped(xs, 0, f) && xs[l].kept
    ensures ReportedUpTo(xs, l + 1) == DroppedIds(xs, f, l + 1)
    decreases l
  {
    if f == l {
      QuietWhileDropping(xs, 0, f);
      FirstKeptIsQuiet(xs, f);
      assert DroppedIds(xs, f, f + 1) == DroppedIds(xs, f, f);
    } else {
      var j := FindPrevious(xs, f, l);
      GapsSumToDrops(xs, f, j);
      QuietWhileDropping(xs, j + 1, l);
      GapIsWhatWasDropped(xs, j, l);
      DroppedIdsSplit(xs, f, j + 1, l);
    }
  }

  /** Dropping messages and decoding them commute. */
  lemma {:induction false} KeptAreDecoded(val: Decoding, ps: seq<Parsed>, kept: seq<bool>)
    requires |ps| == |kept| && SoundParsed(ps)
    ensures SoundParsed(Kept(ps, kept)) && Kept(MessagesOf(val, ps), kept) == MessagesOf(val, Kept(ps, kept))
    decreases |ps|
  {
    hide MessageOf;
    if ps != [] {
      var n := |ps| - 1;
      assert SoundParsed(ps[..n]) by { assert forall i {:trigger ps[..n][i]} :: 0 <= i < n ==> ps[..n][i] == ps[i]; }
      KeptAreDecoded(val, ps[..n], kept[..n]);
      assert MessagesOf(val, ps)[..n] == MessagesOf(val, ps[..n]);
    }
  }

  /** Main theorem. Whatever the feed drops of a symbol's contiguous stream: the reports of the
      whole run add up to the ids of the drops between the first and the last update that got
      through; drops before the first and after the last one go unreported. */
  lemma {:induction false} GapsAccountForDrops(val: Decoding, ps: seq<Parsed>, kept: seq<bool>, s: Symbol, f: nat, l: nat)
    requires |ps| == |kept| && SoundParsed(ps)
    requires var xs := SentFor(MessagesOf(val, ps), kept, s);
      && Contiguous(xs) && f <= l < |xs|
      && xs[f].kept && AllDropped(xs, 0, f) && xs[l].kept && AllDropped(xs, l + 1, |xs|)
    ensures var xs := SentFor(MessagesOf(val, ps), kept, s);
      && ReportedUpTo(xs, |xs|) == DroppedIds(xs, f, l)
      && SoundParsed(Kept(ps, kept)) && UpdatesFor(MessagesOf(val, Kept(ps, kept)), s) == Reaching(xs)
  {
    var ms := MessagesOf(val, ps);
    var xs := SentFor(ms, kept, s);
    KeptUpdatesReach(ms, kept, s);
    KeptAreDecoded(val, ps, kept);
    GapsSumToDrops(xs, f, l);
    QuietWhileDropping(xs, l + 1, |xs|);
  }
}
