/** One side of an order book (src/engine/order_book.cpp). A `std::map` is its strictly sorted
    sequence of levels; doubles are reals. */
module Levels {

  datatype Level = Level(price: real, qty: real)

  /** Does price p come before price q: bids are kept descending, asks ascending. */
  predicate Before(desc: bool, p: real, q: real) {
    if desc then p > q else p < q
  }

  /** `side[price] = qty` */
  function Put(desc: bool, side: seq<Level>, l: Level): seq<Level> {
    if side == [] || Before(desc, l.price, side[0].price) then [l] + side
    else if side[0].price == l.price then [l] + side[1..]
    else [side[0]] + Put(desc, side[1..], l)
  }

  /** `side.erase(price)` */
  function Erase(side: seq<Level>, p: real): seq<Level> {
    if side == [] then []
    else if side[0].price == p then side[1..]
    else [side[0]] + Erase(side[1..], p)
  }

  /** One delta: a zero quantity removes the level, any other quantity sets it. */
  function ApplyDelta(desc: bool, side: seq<Level>, l: Level): seq<Level> {
    if l.qty == 0.0 then Erase(side, l.price) else Put(desc, side, l)
  }

  function ApplyDeltas(desc: bool, side: seq<Level>, ds: seq<Level>): seq<Level> {
    if ds == [] then side else ApplyDelta(desc, ApplyDeltas(desc, side, ds[..|ds| - 1]), ds[|ds| - 1])
  }

  ghost predicate Sorted(desc: bool, side: seq<Level>) {
    forall i, j {:trigger side[i], side[j]} :: 0 <= i < j < |side| ==> Before(desc, side[i].price, side[j].price)
  }

  ghost predicate NoZero(side: seq<Level>) {
    forall i {:trigger side[i]} :: 0 <= i < |side| ==> side[i].qty != 0.0
  }

  /** The mathematical content of a side: which quantity stands at which price. */
  function ToMap(side: seq<Level>): map<real, real> {
    if side == [] then map[] else ToMap(side[1..])[side[0].price := side[0].qty]
  }

  /** The quantity the last delta for a price carried. */
  datatype Mention = Never | Last(qty: real)

  function LastMention(ds: seq<Level>, p: real): Mention {
    if ds == [] then Never
    else if ds[|ds| - 1].price == p then Last(ds[|ds| - 1].qty)
    else LastMention(ds[..|ds| - 1], p)
  }

  /** What a delta history leaves at price p, given what stood there before it. */
  ghost predicate Reflects(m: map<real, real>, m0: map<real, real>, ds: seq<Level>, p: real) {
    match LastMention(ds, p)
    case Never => (p in m <==> p in m0) && (p in m ==> m[p] == m0[p])
    case Last(q) => (p in m <==> q != 0.0) && (p in m ==> m[p] == q)
  }

  lemma {:induction false} ToMapHas(side: seq<Level>, p: real)
    ensures p in ToMap(side) <==> exists i :: 0 <= i < |side| && side[i].price == p
  {
    if side != [] {
      ToMapHas(side[1..], p);
      if p in ToMap(side[1..]) {
        var i :| 0 <= i < |side[1..]| && side[1..][i].price == p;
        assert side[i + 1].price == p;
      }
      if exists i :: 0 <= i < |side| && side[i].price == p {
        var i :| 0 <= i < |side| && side[i].price == p;
        if i > 0 { assert side[1..][i - 1].price == p; }
      }
    }
  }

  lemma {:induction false} SortedTail(desc: bool, side: seq<Level>)
    requires Sorted(desc, side) && NoZero(side) && side != []
    ensures Sorted(desc, side[1..]) && NoZero(side[1..])
    ensures side[0].price !in ToMap(side[1..])
    ensures forall p {:trigger p in ToMap(side[1..])} :: p in ToMap(side[1..]) ==> Before(desc, side[0].price, p)
  {
    var t := side[1..];
    assert forall i {:trigger t[i]} :: 0 <= i < |t| ==> t[i] == side[i + 1];
    forall p ensures p in ToMap(t) ==> Before(desc, side[0].price, p) {
      ToMapHas(t, p);
    }
  }

  lemma {:induction false} SortedCons(desc: bool, l: Level, t: seq<Level>)
    requires Sorted(desc, t) && NoZero(t) && l.qty != 0.0
    requires forall p {:trigger p in ToMap(t)} :: p in ToMap(t) ==> Before(desc, l.price, p)
    ensures Sorted(desc, [l] + t) && NoZero([l] + t)
    ensures ToMap([l] + t) == ToMap(t)[l.price := l.qty]
  {
    var s := [l] + t;
    assert s[1..] == t;
    forall i | 0 <= i < |t| ensures Before(desc, l.price, t[i].price) {
      ToMapHas(t, t[i].price);
    }
  }

  lemma {:induction false} PutKeeps(desc: bool, side: seq<Level>, l: Level)
    requires Sorted(desc, side) && NoZero(side) && l.qty != 0.0
    ensures Sorted(desc, Put(desc, side, l)) && NoZero(Put(desc, side, l))
    ensures ToMap(Put(desc, side, l)) == ToMap(side)[l.price := l.qty]
    decreases |side|
  {
    if side == [] {
      assert [l] + side == [l];
    } else {
      var h, t := side[0], side[1..];
      assert side == [h] + t;
      SortedTail(desc, side);
      if Before(desc, l.price, h.price) {
        SortedCons(desc, l, side);
      } else if h.price == l.price {
        SortedCons(desc, l, t);
      } else {
        PutKeeps(desc, t, l);
        SortedCons(desc, h, Put(desc, t, l));
      }
    }
  }

  lemma {:induction false} EraseKeeps(desc: bool, side: seq<Level>, p: real)
    requires Sorted(desc, side) && NoZero(side)
    ensures Sorted(desc, Erase(side, p)) && NoZero(Erase(side, p))
    ensures ToMap(Erase(side, p)) == ToMap(side) - {p}
    decreases |side|
  {
    if side != [] {
      SortedTail(desc, side);
      if side[0].price != p {
        EraseKeeps(desc, side[1..], p);
        SortedCons(desc, side[0], Erase(side[1..], p));
      }
    }
  }

  /** Applying any deltas keeps a side strictly sorted and free of zero quantities, and leaves at
      every price exactly what the last delta for that price says. */
  lemma {:induction false} DeltasReflect(desc: bool, side: seq<Level>, ds: seq<Level>)
    requires Sorted(desc, side) && NoZero(side)
    ensures Sorted(desc, ApplyDeltas(desc, side, ds)) && NoZero(ApplyDeltas(desc, side, ds))
    ensures forall p :: Reflects(ToMap(ApplyDeltas(desc, side, ds)), ToMap(side), ds, p)
    decreases |ds|
  {
    if ds != [] {
      var init, l := ds[..|ds| - 1], ds[|ds| - 1];
      DeltasReflect(desc, side, init);
      var mid := ApplyDeltas(desc, side, init);
      if l.qty == 0.0 { EraseKeeps(desc, mid, l.price); } else { PutKeeps(desc, mid, l); }
      forall p ensures Reflects(ToMap(ApplyDeltas(desc, side, ds)), ToMap(side), ds, p) {
        assert Reflects(ToMap(mid), ToMap(side), init, p);
      }
    }
  }

  lemma {:induction false} EmptyMap(side: seq<Level>)
    ensures ToMap(side) == map[] <==> side == []
  {
    if side != [] { assert side[0].price in ToMap(side); }
  }

  /** A strictly sorted side is determined by its map. */
  lemma {:induction false} SortedUnique(desc: bool, s: seq<Level>, t: seq<Level>)
    requires Sorted(desc, s) && NoZero(s) && Sorted(desc, t) && NoZero(t) && ToMap(s) == ToMap(t)
    ensures s == t
    decreases |s|
  {
    if s == [] {
      EmptyMap(t);
    } else {
      assert s[0].price in ToMap(t);
      assert t != [];
      SortedTail(desc, s);
      SortedTail(desc, t);
      assert t[0].price in ToMap(s);
      assert s[0] == t[0];
      assert ToMap(s[1..]) == ToMap(s) - {s[0].price};
      assert ToMap(t[1..]) == ToMap(t) - {t[0].price};
      SortedUnique(desc, s[1..], t[1..]);
      assert s == [s[0]] + s[1..];
      assert t == [t[0]] + t[1..];
    }
  }

  lemma {:induction false} DeltasConcat(desc: bool, side: seq<Level>, a: seq<Level>, b: seq<Level>)
    ensures ApplyDeltas(desc, side, a + b) == ApplyDeltas(desc, ApplyDeltas(desc, side, a), b)
    decreases |b|
  {
    if b == [] {
      assert a + b == a;
    } else {
      DeltasConcat(desc, side, a, b[..|b| - 1]);
      assert (a + b)[..|a + b| - 1] == a + b[..|b| - 1];
    }
  }

  lemma {:induction false} MentionConcat(a: seq<Level>, b: seq<Level>, p: real)
    ensures LastMention(a + b, p) == if LastMention(b, p).Never? then LastMention(a, p) else LastMention(b, p)
    decreases |b|
  {
    if b == [] {
      assert a + b == a;
    } else {
      MentionConcat(a, b[..|b| - 1], p);
      assert (a + b)[..|a + b| - 1] == a + b[..|b| - 1];
    }
  }

  /** Re-delivering a suffix of the deltas already applied changes nothing. */
  lemma {:induction false} RedeliveryIsIdempotent(desc: bool, side: seq<Level>, a: seq<Level>, b: seq<Level>)
    requires Sorted(desc, side) && NoZero(side)
    ensures ApplyDeltas(desc, side, a + b + b) == ApplyDeltas(desc, side, a + b)
  {
    var once, twice := ApplyDeltas(desc, side, a + b), ApplyDeltas(desc, side, a + b + b);
    DeltasReflect(desc, side, a + b);
    DeltasReflect(desc, side, a + b + b);
    forall p ensures (p in ToMap(twice) <==> p in ToMap(once)) && (p in ToMap(once) ==> ToMap(twice)[p] == ToMap(once)[p]) {
      MentionConcat(a, b, p);
      MentionConcat(a + b, b, p);
      assert Reflects(ToMap(once), ToMap(side), a + b, p);
      assert Reflects(ToMap(twice), ToMap(side), a + b + b, p);
    }
    assert ToMap(once) == ToMap(twice);
    SortedUnique(desc, twice, once);
  }
}
