/** The order book of one symbol (src/engine/order_book.cpp). */
module OrderBooks {
  import opened Words
  import opened Levels
  import opened Windows

  /** The part of a parsed depth message the engine reads: the first `bid_count` and `ask_count`
      levels, prices and quantities as reals. */
  datatype Update = Update(
    symbol: seq<byte>, eventTimeMs: u64, firstId: u64, lastId: u64,
    bids: seq<Levels.Level>, asks: seq<Levels.Level>)

  /** The contents of an OrderBook. */
  datatype Book = Book(bids: seq<Levels.Level>, asks: seq<Levels.Level>, lastId: u64, updates: nat)
  {
    function BestBid(): real { if bids == [] then 0.0 else bids[0].price }

    function BestAsk(): real { if asks == [] then 0.0 else asks[0].price }

    function Spread(): real { if bids == [] || asks == [] then 0.0 else BestAsk() - BestBid() }

    function Mid(): real { if bids == [] || asks == [] then 0.0 else (BestBid() + BestAsk()) / 2.0 }
  }

  const EmptyBook: Book := Book([], [], 0, 0)

  ghost predicate ValidBook(b: Book) {
    Sorted(true, b.bids) && NoZero(b.bids) && Sorted(false, b.asks) && NoZero(b.asks)
  }

  /** The size of the sequence gap `apply_update` warns about, 0 for no warning; 64-bit arithmetic. */
  function Gap(lastId: u64, firstId: u64): nat {
    if lastId > 0 && firstId > (lastId + 1) % U64_SPAN then (firstId - lastId - 1) % U64_SPAN else 0
  }

  function Apply(b: Book, u: Update): Book {
    Book(ApplyDeltas(true, b.bids, u.bids), ApplyDeltas(false, b.asks, u.asks), u.lastId, b.updates + 1)
  }

  function ApplyAll(b: Book, us: seq<Update>): Book {
    if us == [] then b else Apply(ApplyAll(b, us[..|us| - 1]), us[|us| - 1])
  }

  /** All deltas of a history on one side, oldest first. */
  function Deltas(desc: bool, us: seq<Update>): seq<Levels.Level> {
    if us == [] then []
    else Deltas(desc, us[..|us| - 1]) + (if desc then us[|us| - 1].bids else us[|us| - 1].asks)
  }

  lemma {:induction false} ApplyAllIsDeltas(b: Book, us: seq<Update>)
    ensures ApplyAll(b, us).bids == ApplyDeltas(true, b.bids, Deltas(true, us))
    ensures ApplyAll(b, us).asks == ApplyDeltas(false, b.asks, Deltas(false, us))
    ensures ApplyAll(b, us).updates == b.updates + |us|
    decreases |us|
  {
    if us != [] {
      var init, u := us[..|us| - 1], us[|us| - 1];
      ApplyAllIsDeltas(b, init);
      DeltasConcat(true, b.bids, Deltas(true, init), u.bids);
      DeltasConcat(false, b.asks, Deltas(false, init), u.asks);
    }
  }

  /** After any run of updates each side is strictly sorted without zero quantities; a price is
      present exactly if its last mention in the whole history is non-zero, with that quantity;
      and the reported best price is the best of all prices present. */
  lemma BookRefinesHistory(us: seq<Update>, desc: bool, p: real)
    ensures var b := ApplyAll(EmptyBook, us);
      var side := if desc then b.bids else b.asks;
      && ValidBook(b)
      && (p in ToMap(side) <==> LastMention(Deltas(desc, us), p).Last? && LastMention(Deltas(desc, us), p).qty != 0.0)
      && (p in ToMap(side) ==> ToMap(side)[p] == LastMention(Deltas(desc, us), p).qty)
      && (p in ToMap(side) ==> !Before(desc, p, if desc then b.BestBid() else b.BestAsk()))
      && (side != [] ==> (if desc then b.BestBid() else b.BestAsk()) in ToMap(side))
  {
    var b := ApplyAll(EmptyBook, us);
    ApplyAllIsDeltas(EmptyBook, us);
    DeltasReflect(true, [], Deltas(true, us));
    DeltasReflect(false, [], Deltas(false, us));
    var side := if desc then b.bids else b.asks;
    assert Reflects(ToMap(side), ToMap([]), Deltas(desc, us), p);
    if side != [] { SortedTail(desc, side); }
  }

  lemma {:induction false} DeltasAppend(desc: bool, a: seq<Update>, b: seq<Update>)
    ensures Deltas(desc, a + b) == Deltas(desc, a) + Deltas(desc, b)
    decreases |b|
  {
    if b == [] {
      assert a + b == a;
    } else {
      var init, last := b[..|b| - 1], if desc then b[|b| - 1].bids else b[|b| - 1].asks;
      DeltasAppend(desc, a, init);
      assert (a + b)[..|a + b| - 1] == a + init;
      assert Deltas(desc, a + b) == Deltas(desc, a + init) + last;
      assert Deltas(desc, b) == Deltas(desc, init) + last;
    }
  }

  /** Re-delivering updates that were the last ones applied leaves every level as it was. */
  lemma RedeliveredUpdatesChangeNoLevel(a: seq<Update>, b: seq<Update>)
    ensures ApplyAll(EmptyBook, a + b + b).bids == ApplyAll(EmptyBook, a + b).bids
    ensures ApplyAll(EmptyBook, a + b + b).asks == ApplyAll(EmptyBook, a + b).asks
  {
    ApplyAllIsDeltas(EmptyBook, a + b);
    ApplyAllIsDeltas(EmptyBook, a + b + b);
    forall desc: bool ensures Deltas(desc, a + b) == Deltas(desc, a) + Deltas(desc, b)
                      && Deltas(desc, a + b + b) == Deltas(desc, a) + Deltas(desc, b) + Deltas(desc, b) {
      DeltasAppend(desc, a, b);
      DeltasAppend(desc, a + b, b);
    }
    RedeliveryIsIdempotent(true, [], Deltas(true, a), Deltas(true, b));
    RedeliveryIsIdempotent(false, [], Deltas(false, a), Deltas(false, b));
  }

  // ---------------------------------------------------------------- accumulators

  function TotalQty(side: seq<Levels.Level>, n: nat): real
    requires n <= |side|
  {
    if n == 0 then 0.0 else TotalQty(side, n - 1) + side[n - 1].qty
  }

  function Notional(side: seq<Levels.Level>, n: nat): real
    requires n <= |side|
  {
    if n == 0 then 0.0 else Notional(side, n - 1) + side[n - 1].price * side[n - 1].qty
  }

  /** Volume-weighted average price over the first `levels` levels, 0 if they carry no volume. */
  function Vwap(side: seq<Levels.Level>, levels: nat): real {
    var n := if levels < |side| then levels else |side|;
    if TotalQty(side, n) > 0.0 then Notional(side, n) / TotalQty(side, n) else 0.0
  }

  function Quantities(side: seq<Levels.Level>): (qs: seq<real>)
    ensures |qs| == |side|
  {
    seq(|side|, i requires 0 <= i < |side| => side[i].qty)
  }

  function Notionals(side: seq<Levels.Level>): (xs: seq<real>)
    ensures |xs| == |side|
  {
    seq(|side|, i requires 0 <= i < |side| => side[i].price * side[i].qty)
  }

  lemma {:induction false} TotalsAreSums(side: seq<Levels.Level>, n: nat)
    requires n <= |side|
    ensures TotalQty(side, n) == Sum(Quantities(side)[..n]) && Notional(side, n) == Sum(Notionals(side)[..n])
    decreases n
  {
    if n > 0 {
      TotalsAreSums(side, n - 1);
      assert Quantities(side)[..n][..n - 1] == Quantities(side)[..n - 1];
      assert Notionals(side)[..n][..n - 1] == Notionals(side)[..n - 1];
    }
  }

  lemma {:induction false} TotalIsSum(side: seq<Levels.Level>)
    ensures TotalQty(side, |side|) == Sum(Quantities(side))
  {
    TotalsAreSums(side, |side|);
    assert Quantities(side)[..|side|] == Quantities(side);
  }

  /** x is the average price of the first levels, weighted by quantity. */
  ghost predicate IsVwap(x: real, side: seq<Levels.Level>, levels: nat) {
    var n := if levels < |side| then levels else |side|;
    IsRatio(x, Sum(Notionals(side)[..n]), Sum(Quantities(side)[..n]))
  }

  lemma {:induction false} VwapIsAverage(side: seq<Levels.Level>, levels: nat)
    ensures IsVwap(Vwap(side, levels), side, levels)
  {
    TotalsAreSums(side, if levels < |side| then levels else |side|);
  }

  class OrderBook {
    const symbol: seq<byte>
    var bids: seq<Levels.Level>
    var asks: seq<Levels.Level>
    var lastUpdateId: u64
    var updateCount: nat

    ghost predicate Valid()
      reads this
    {
      ValidBook(State())
    }

    function State(): Book
      reads this
    {
      Book(bids, asks, lastUpdateId, updateCount)
    }

    constructor (symbol: seq<byte>)
      ensures Valid() && State() == EmptyBook && this.symbol == symbol
    {
      this.symbol := symbol;
      bids, asks, lastUpdateId, updateCount := [], [], 0, 0;
    }

    /** Applies one message; `gap` is the size of the sequence gap that is logged, 0 if none. A
        gap never keeps the levels from being updated. */
    method ApplyUpdate(u: Update) returns (gap: nat)
      requires Valid()
      modifies this
      ensures Valid() && State() == Apply(old(State()), u)
      ensures gap == Gap(old(lastUpdateId), u.firstId)
    {
      gap := 0;
      if lastUpdateId > 0 && u.firstId > (lastUpdateId + 1) % U64_SPAN {
        gap := (u.firstId - lastUpdateId - 1) % U64_SPAN;
      }
      var i := 0;
      while i < |u.bids|
        invariant 0 <= i <= |u.bids|
        invariant bids == ApplyDeltas(true, old(bids), u.bids[..i])
        invariant asks == old(asks) && lastUpdateId == old(lastUpdateId) && updateCount == old(updateCount)
      {
        if u.bids[i].qty == 0.0 {
          bids := Erase(bids, u.bids[i].price);
        } else {
          bids := Put(true, bids, u.bids[i]);
        }
        assert u.bids[..i + 1][..i] == u.bids[..i];
        i := i + 1;
      }
      assert u.bids[..i] == u.bids;
      i := 0;
      while i < |u.asks|
        invariant 0 <= i <= |u.asks|
        invariant asks == ApplyDeltas(false, old(asks), u.asks[..i])
        invariant bids == ApplyDeltas(true, old(bids), u.bids)
        invariant lastUpdateId == old(lastUpdateId) && updateCount == old(updateCount)
      {
        if u.asks[i].qty == 0.0 {
          asks := Erase(asks, u.asks[i].price);
        } else {
          asks := Put(false, asks, u.asks[i]);
        }
        assert u.asks[..i + 1][..i] == u.asks[..i];
        i := i + 1;
      }
      assert u.asks[..i] == u.asks;
      lastUpdateId := u.lastId;
      updateCount := updateCount + 1;
      DeltasReflect(true, old(bids), u.bids);
      DeltasReflect(false, old(asks), u.asks);
    }

    method Clear()
      modifies this
      ensures Valid() && State() == EmptyBook
    {
      bids, asks, lastUpdateId, updateCount := [], [], 0, 0;
    }
  }

  /** `total_bid_qty` and `total_ask_qty`: the loop over one side. */
  method SideTotal(side: seq<Levels.Level>) returns (total: real)
    ensures total == TotalQty(side, |side|) == Sum(Quantities(side))
  {
    TotalIsSum(side);
    total := 0.0;
    var i := 0;
    while i < |side|
      invariant 0 <= i <= |side| && total == TotalQty(side, i)
    {
      total := total + side[i].qty;
      i := i + 1;
    }
  }

  /** `bid_vwap` and `ask_vwap`: the loop over one side, left early after `levels` levels. */
  method SideVwap(side: seq<Levels.Level>, levels: nat) returns (vwap: real)
    ensures vwap == Vwap(side, levels) && IsVwap(vwap, side, levels)
  {
    VwapIsAverage(side, levels);
    var sumPq, sumQ, count := 0.0, 0.0, 0;
    while count < |side|
      invariant 0 <= count <= |side| && count <= levels
      invariant sumPq == Notional(side, count) && sumQ == TotalQty(side, count)
    {
      if count >= levels { break; }
      sumPq := sumPq + side[count].price * side[count].qty;
      sumQ := sumQ + side[count].qty;
      count := count + 1;
    }
    vwap := if sumQ > 0.0 then sumPq / sumQ else 0.0;
  }
}
