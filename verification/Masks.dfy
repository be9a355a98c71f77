/** Bit masks and wrap-around of ring-buffer indices (src/core/spsc_queue.h).
    The queue replaces `% Capacity` by `& (Capacity - 1)`; here `&` is defined bit by bit on
    natural numbers and shown to be the modulus exactly for the capacities the static
    assertion admits. */
module Masks {
  import opened Words

  /** Bitwise and of two naturals, least significant bit last. */
  function And(x: nat, y: nat): nat
    decreases x
  {
    if x == 0 || y == 0 then 0
    else 2 * And(x / 2, y / 2) + (if x % 2 == 1 && y % 2 == 1 then 1 else 0)
  }

  function Pow2(k: nat): (p: nat)
    ensures p >= 1
  {
    if k == 0 then 1 else 2 * Pow2(k - 1)
  }

  ghost predicate IsPow2(c: nat) {
    exists k: nat :: c == Pow2(k)
  }

  /** A multiple of m that is not zero is at least m away from zero. */
  lemma Multiple(m: nat, d: int)
    ensures d >= 1 ==> m * d >= m
    ensures d <= -1 ==> m * d <= 0 - m
  {
    if d >= 1 { assert m * d == m + m * (d - 1); }
    if d <= -1 { assert m * d == m * (d + 1) - m; }
  }

  /** The quotient and remainder of a division are unique. */
  lemma ModUnique(x: int, m: nat, q: int, r: int)
    requires m > 0 && 0 <= r < m && x == m * q + r
    ensures x % m == r && x / m == q
  {
    var d := q - x / m;
    assert m * d == m * q - m * (x / m);
    assert x == m * (x / m) + x % m;
    Multiple(m, d);
  }

  lemma HalfMod(x: nat, m: nat)
    requires m > 0
    ensures x % (2 * m) == 2 * ((x / 2) % m) + x % 2
  {
    var q, r := (x / 2) / m, (x / 2) % m;
    assert x == (2 * m) * q + (2 * r + x % 2) by {
      assert x / 2 == m * q + r;
    }
    ModUnique(x, 2 * m, q, 2 * r + x % 2);
  }

  lemma AndStep(x: nat, p: nat)
    requires p > 0
    ensures And(x, 2 * p - 1) == 2 * And(x / 2, p - 1) + x % 2
  {
    assert (2 * p - 1) / 2 == p - 1 && (2 * p - 1) % 2 == 1;
  }

  /** Masking with 2^k - 1 is reduction modulo 2^k. */
  lemma {:induction false} AndIsMod(x: nat, k: nat)
    ensures And(x, Pow2(k) - 1) == x % Pow2(k)
  {
    hide And;
    if k == 0 {
      AndZero(x);
    } else {
      var p := Pow2(k - 1);
      AndIsMod(x / 2, k - 1);
      HalfMod(x, p);
      AndStep(x, p);
    }
  }

  lemma AndZero(x: nat)
    ensures And(x, 0) == 0
  {
  }

  lemma MaskIsMod(x: nat, c: nat)
    requires IsPow2(c)
    ensures c > 0 && And(x, c - 1) == x % c
  {
    var k: nat :| c == Pow2(k);
    AndIsMod(x, k);
  }

  lemma {:induction false} AndSelf(x: nat)
    ensures And(x, x) == x
  {
    if x > 0 { AndSelf(x / 2); }
  }

  lemma OnlyOneIsOdd(k: nat)
    ensures Pow2(k) == 1 || Pow2(k) % 2 == 0
  {
  }

  /** The static assertion `(Capacity & (Capacity - 1)) == 0` accepts exactly the powers of two. */
  lemma {:induction false} StaticAssertIsPow2(c: nat)
    requires c > 0
    ensures And(c, c - 1) == 0 <==> IsPow2(c)
  {
    if c == 1 {
      assert c == Pow2(0);
    } else if c % 2 == 0 {
      StaticAssertIsPow2(c / 2);
      assert (c - 1) / 2 == c / 2 - 1;
      if IsPow2(c / 2) {
        var k: nat :| c / 2 == Pow2(k);
        assert c == Pow2(k + 1);
      }
      if IsPow2(c) {
        var k: nat :| c == Pow2(k);
        assert c / 2 == Pow2(k - 1);
      }
    } else {
      AndSelf(c / 2);
      assert (c - 1) / 2 == c / 2;
      forall k: nat ensures c != Pow2(k) {
        OnlyOneIsOdd(k);
      }
    }
  }

  /** Two counters less than one lap apart fall in different slots. */
  lemma DistinctSlots(a: nat, b: nat, c: nat)
    requires c > 0 && a < b < a + c
    ensures a % c != b % c
  {
    var q := b / c - a / c;
    assert c * q == c * (b / c) - c * (a / c);
    Multiple(c, q);
  }

  /** Advancing a masked index and masking again follows the unbounded counter. */
  lemma NextSlot(i: nat, c: nat)
    requires IsPow2(c)
    ensures c > 0 && And(i % c + 1, c - 1) == (i + 1) % c
  {
    MaskIsMod(i % c + 1, c);
    NextMod(i, c);
  }

  lemma NextMod(i: nat, c: nat)
    requires c > 0
    ensures (i % c + 1) % c == (i + 1) % c
  {
    var q, r := i / c, i % c;
    if r + 1 < c {
      ModUnique(i + 1, c, q, r + 1);
      ModUnique(r + 1, c, 0, r + 1);
    } else {
      assert c * (q + 1) == c * q + c;
      ModUnique(i + 1, c, q + 1, 0);
      ModUnique(r + 1, c, 1, 0);
    }
  }

  lemma {:induction false} Pow2Splits(k: nat, n: nat)
    requires k <= n
    ensures Pow2(n) == Pow2(k) * Pow2(n - k)
    decreases n - k
  {
    if k < n {
      Pow2Splits(k, n - 1);
      assert Pow2(n) == 2 * Pow2(n - 1);
      assert Pow2(n - k) == 2 * Pow2(n - 1 - k);
      assert Pow2(k) * (2 * Pow2(n - 1 - k)) == 2 * (Pow2(k) * Pow2(n - 1 - k));
    }
  }

  /** `size_approx` computes (tail - head) & MASK on 64-bit words: the subtraction wraps at
      2^64 and the mask folds it back, giving the true distance of the unbounded counters. */
  lemma MaskedDistance(h: nat, t: nat, k: nat)
    requires k <= 64 && h <= t < h + Pow2(k)
    ensures And((t % Pow2(k) - h % Pow2(k)) % Pow2(64), Pow2(k) - 1) == t - h
  {
    var c, w := Pow2(k), Pow2(64 - k);
    var d := t % c - h % c;
    AndIsMod(d % Pow2(64), k);
    Pow2Splits(k, 64);
    WrapFolds(h, t, c, w);
  }

  /** Reducing first modulo c * w and then modulo c recovers the distance of two counters. */
  lemma WrapFolds(h: nat, t: nat, c: nat, w: nat)
    requires c > 0 && w > 0 && h <= t < h + c
    ensures c * w > 0 && ((t % c - h % c) % (c * w)) % c == t - h
  {
    Multiple(c, w);
    var d := t % c - h % c;
    var q := d / (c * w);
    var m := h / c - t / c - w * q;
    assert d == (t - h) + c * (h / c) - c * (t / c);
    assert c * m == c * (h / c) - c * (t / c) - c * (w * q);
    assert c * (w * q) == (c * w) * q;
    assert d == (c * w) * q + d % (c * w);
    ModUnique(d % (c * w), c, m, t - h);
  }

  lemma NextByte(k: nat)
    ensures Pow2(k + 8) == 256 * Pow2(k)
  {
    assert Pow2(k + 2) == 4 * Pow2(k);
    assert Pow2(k + 4) == 16 * Pow2(k);
    assert Pow2(k + 6) == 64 * Pow2(k);
  }

  lemma Pow64()
    ensures Pow2(64) == U64_SPAN
  {
    NextByte(0); NextByte(8); NextByte(16); NextByte(24); NextByte(32); NextByte(40); NextByte(48); NextByte(56);
  }

  lemma {:induction false} PowGrows(a: nat, b: nat)
    requires a < b
    ensures Pow2(a) < Pow2(b)
    decreases b
  {
    if a < b - 1 { PowGrows(a, b - 1); }
  }

  /** `(tail - head) & MASK` on the masked indices, for every admissible capacity. */
  lemma MaskedSize(h: nat, t: nat, c: nat)
    requires IsPow2(c) && c <= U64_SPAN && h <= t < h + c
    ensures c > 0 && And((t % c - h % c) % U64_SPAN, c - 1) == t - h
  {
    var k: nat :| c == Pow2(k);
    Pow64();
    if 64 < k { PowGrows(64, k); }
    MaskedDistance(h, t, k);
  }

  lemma AddLap(h: nat, c: nat)
    requires c > 0
    ensures (h + c) % c == h % c
  {
    assert c * (h / c + 1) == c * (h / c) + c;
    ModUnique(h + c, c, h / c + 1, h % c);
  }

  /** The queue-full test on masked indices decides whether the counters are c - 1 apart. */
  lemma FullIffOneLap(h: nat, t: nat, c: nat)
    requires IsPow2(c) && h <= t < h + c
    ensures c > 0 && (And(t % c + 1, c - 1) == h % c <==> t - h == c - 1)
  {
    NextSlot(t, c);
    if t + 1 == h + c {
      AddLap(h, c);
    } else {
      DistinctSlots(h, t + 1, c);
    }
  }
}
