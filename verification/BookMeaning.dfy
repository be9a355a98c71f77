/** What a book says, in terms of the updates alone: which quantity stands at which price, in which order,
    and what the best prices are. None of the functions that maintain a book occur in these statements. */
module BookMeaning {
  import opened Levels
  import opened OrderBooks

  /** Quantity q is what the last of these quotes of price p left there. */
  ghost predicate Stands(quotes: seq<Level>, p: real, q: real) {
    q != 0.0 && exists k :: 0 <= k < |quotes| && IsLast(quotes, k, p) && quotes[k].qty == q
  }

  ghost predicate IsLast(quotes: seq<Level>, k: int, p: real)
    requires 0 <= k < |quotes|
  {
    quotes[k].price == p && forall j {:trigger quotes[j]} :: k < j < |quotes| ==> quotes[j].price != p
  }

  /** Exactly the levels that stand after these quotes, highest or lowest price first. */
  ghost predicate IsSide(side: seq<Level>, quotes: seq<Level>, highestFirst: bool) {
    && (forall i, j {:trigger side[i], side[j]} :: 0 <= i < j < |side| ==>
          if highestFirst then side[i].price > side[j].price else side[i].price < side[j].price)
    && forall p, q {:trigger Stands(quotes, p, q)} {:trigger Level(p, q) in side} :: Level(p, q) in side <==> Stands(quotes, p, q)
  }

  /** All quotes of these updates for one side, in the order of the messages. */
  function Quotes(us: seq<Update>, bid: bool): seq<Level> {
    if us == [] then [] else (if bid then us[0].bids else us[0].asks) + Quotes(us[1..], bid)
  }

  ghost predicate IsBook(b: Book, us: seq<Update>) {
    && IsSide(b.bids, Quotes(us, true), true) && IsSide(b.asks, Quotes(us, false), false)
    && b.updates == |us| && b.lastId == if us == [] then 0 else us[|us| - 1].lastId
  }

  /** The best price of a side, 0 if there is none. */
  ghost predicate IsBest(x: real, side: seq<Level>, highest: bool) {
    if side == [] then x == 0.0
    else
      && (exists q :: Level(x, q) in side)
      && forall l :: l in side ==> if highest then l.price <= x else x <= l.price
  }

  // ---------------------------------------------------------------- proofs

  lemma {:induction false} LastOfInit(quotes: seq<Level>, k: nat, p: real)
    requires k < |quotes| - 1 && quotes[|quotes| - 1].price != p
    ensures IsLast(quotes[..|quotes| - 1], k, p) <==> IsLast(quotes, k, p)
  {
    var init := quotes[..|quotes| - 1];
    assert forall j {:trigger quotes[j]} {:trigger init[j]} :: 0 <= j < |init| ==> init[j] == quotes[j];
  }

  lemma {:induction false} MentionStands(quotes: seq<Level>, p: real, q: real)
    ensures Stands(quotes, p, q) <==> q != 0.0 && LastMention(quotes, p) == Last(q)
    decreases |quotes|
  {
    if quotes != [] {
      var n := |quotes| - 1;
      if quotes[n].price == p {
        assert IsLast(quotes, n, p);
      } else {
        MentionStands(quotes[..n], p, q);
        forall k | 0 <= k < n ensures IsLast(quotes[..n], k, p) <==> IsLast(quotes, k, p) { LastOfInit(quotes, k, p); }
      }
    }
  }

  lemma {:induction false} ToMapHolds(desc: bool, side: seq<Level>, p: real, q: real)
    requires Sorted(desc, side) && NoZero(side)
    ensures Level(p, q) in side <==> p in ToMap(side) && ToMap(side)[p] == q
    decreases |side|
  {
    if side != [] {
      SortedTail(desc, side);
      ToMapHolds(desc, side[1..], p, q);
      assert side == [side[0]] + side[1..];
    }
  }

  /** Applying quotes to an empty side leaves exactly what stands. */
  lemma {:induction false} DeltasGiveSide(quotes: seq<Level>, highestFirst: bool)
    ensures IsSide(ApplyDeltas(highestFirst, [], quotes), quotes, highestFirst)
  {
    var side := ApplyDeltas(highestFirst, [], quotes);
    DeltasReflect(highestFirst, [], quotes);
    forall p, q ensures Level(p, q) in side <==> Stands(quotes, p, q) {
      MentionStands(quotes, p, q);
      ToMapHolds(highestFirst, side, p, q);
      assert Reflects(ToMap(side), ToMap([]), quotes, p);
    }
  }

  lemma {:induction false} QuotesAreDeltas(us: seq<Update>, bid: bool)
    ensures Quotes(us, bid) == Deltas(bid, us)
    decreases |us|
  {
    if us != [] {
      QuotesAreDeltas(us[1..], bid);
      DeltasAppend(bid, [us[0]], us[1..]);
      assert us == [us[0]] + us[1..] && [us[0]][..0] == [];
    }
  }

  /** After any updates the book is what the updates say. */
  lemma {:induction false} BookMeans(us: seq<Update>)
    ensures IsBook(ApplyAll(EmptyBook, us), us)
  {
    ApplyAllIsDeltas(EmptyBook, us);
    QuotesAreDeltas(us, true);
    QuotesAreDeltas(us, false);
    DeltasGiveSide(Quotes(us, true), true);
    DeltasGiveSide(Quotes(us, false), false);
  }

  /** Only one side fits a sequence of quotes. */
  lemma {:induction false} SideIsUnique(a: seq<Level>, b: seq<Level>, quotes: seq<Level>, highestFirst: bool)
    requires IsSide(a, quotes, highestFirst) && IsSide(b, quotes, highestFirst)
    ensures a == b
  {
    SideIsSorted(a, quotes, highestFirst);
    SideIsSorted(b, quotes, highestFirst);
    forall p ensures (p in ToMap(a) <==> p in ToMap(b)) && (p in ToMap(a) ==> ToMap(a)[p] == ToMap(b)[p]) {
      if p in ToMap(a) { ToMapHolds(highestFirst, a, p, ToMap(a)[p]); ToMapHolds(highestFirst, b, p, ToMap(a)[p]); }
      if p in ToMap(b) { ToMapHolds(highestFirst, b, p, ToMap(b)[p]); ToMapHolds(highestFirst, a, p, ToMap(b)[p]); }
    }
    assert ToMap(a) == ToMap(b);
    SortedUnique(highestFirst, a, b);
  }

  lemma {:induction false} SideIsSorted(side: seq<Level>, quotes: seq<Level>, highestFirst: bool)
    requires IsSide(side, quotes, highestFirst)
    ensures Sorted(highestFirst, side) && NoZero(side)
  {
    forall i | 0 <= i < |side| ensures side[i].qty != 0.0 {
      assert Level(side[i].price, side[i].qty) in side;
    }
  }

  /** The first level of a sorted side is its best. */
  lemma {:induction false} FirstIsBest(side: seq<Level>, highest: bool)
    requires Sorted(highest, side)
    ensures IsBest(if side == [] then 0.0 else side[0].price, side, highest)
  {
    if side != [] {
      assert Level(side[0].price, side[0].qty) in side;
      forall l | l in side ensures if highest then l.price <= side[0].price else side[0].price <= l.price {
        var i :| 0 <= i < |side| && side[i] == l;
        if i > 0 { assert Before(highest, side[0].price, side[i].price); }
      }
    }
  }
}
