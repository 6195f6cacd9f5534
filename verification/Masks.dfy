/** The unsigned shift, mask and ceiling arithmetic of the hash table, bit by bit, and what it computes. */
module Masks {

  /** x & y. */
  function And(x: nat, y: nat): (r: nat)
    ensures r <= y
  {
    if y == 0 then 0 else 2 * And(x / 2, y / 2) + if x % 2 == 1 && y % 2 == 1 then 1 else 0
  }

  /** x >> k. */
  function Shr(x: nat, k: nat): nat
  {
    if k == 0 then x else Shr(x / 2, k - 1)
  }

  function Pow2(k: nat): (p: nat)
    ensures p >= 1
  {
    if k == 0 then 1 else 2 * Pow2(k - 1)
  }

  /** HASH_TO_BKT. */
  function BucketOf(hashv: nat, numBuckets: nat): (b: nat)
    requires numBuckets >= 1
    ensures b < numBuckets
  {
    And(hashv, numBuckets - 1)
  }

  lemma MulGap(d: nat, q: nat, q': nat)
    requires q < q'
    ensures q * d + d <= q' * d
  {
    var k := q' - q - 1;
    assert q' * d == q * d + d + k * d;
  }

  /** Division with remainder has one answer. */
  lemma QuotientUnique(d: nat, q: nat, r: nat, q': nat, r': nat)
    requires q * d + r == q' * d + r' && r < d && r' < d
    ensures q == q' && r == r'
  {
    if q < q' {
      MulGap(d, q, q');
    } else if q' < q {
      MulGap(d, q', q);
    }
  }

  lemma DivModExact(x: nat, d: nat)
    requires d >= 1
    ensures x == (x / d) * d + x % d && x % d < d
  {
  }

  lemma DivModOf(x: nat, d: nat, q: nat, r: nat)
    requires x == q * d + r && r < d
    ensures x / d == q && x % d == r
  {
    DivModExact(x, d);
    QuotientUnique(d, q, r, x / d, x % d);
  }

  /** x << k. */
  function Shl(x: nat, k: nat): nat
  {
    if k == 0 then x else 2 * Shl(x, k - 1)
  }

  lemma {:induction false} ShlIsMul(x: nat, k: nat)
    ensures Shl(x, k) == x * Pow2(k)
  {
    if k > 0 {
      ShlIsMul(x, k - 1);
      Doubled(x, Pow2(k - 1));
    }
  }

  /** Shifting right and left again loses what the mask keeps. */
  lemma {:induction false} ShiftBack(x: nat, k: nat)
    ensures x == Shl(Shr(x, k), k) + And(x, Pow2(k) - 1) && And(x, Pow2(k) - 1) < Pow2(k)
  {
    if k > 0 {
      ShiftBack(x / 2, k - 1);
      MaskStep(x, Pow2(k - 1));
    }
  }

  /** Shift and mask take a number apart into quotient and remainder. */
  lemma ShiftMask(x: nat, k: nat)
    ensures x == Shr(x, k) * Pow2(k) + And(x, Pow2(k) - 1) && And(x, Pow2(k) - 1) < Pow2(k)
  {
    ShiftBack(x, k);
    ShlIsMul(Shr(x, k), k);
  }

  lemma MaskStep(x: nat, p: nat)
    requires p >= 1
    ensures And(x, 2 * p - 1) == 2 * And(x / 2, p - 1) + x % 2
  {
    assert (2 * p - 1) / 2 == p - 1 && (2 * p - 1) % 2 == 1;
  }

  lemma Doubled(q: nat, p: nat)
    ensures q * (2 * p) == 2 * (q * p)
  {
  }

  /** A mask of k ones takes the remainder: a bucket number is the hash value modulo the number of buckets. */
  lemma MaskIsMod(x: nat, k: nat)
    ensures And(x, Pow2(k) - 1) == x % Pow2(k) && Shr(x, k) == x / Pow2(k)
  {
    ShiftMask(x, k);
    DivModOf(x, Pow2(k), Shr(x, k), And(x, Pow2(k) - 1));
  }

  /** ideal_chain_maxlen for a doubled table (broker/uthash.h:694-696). */
  function IdealLength(numItems: nat, numBuckets: nat, log2: nat): nat
    requires numBuckets >= 1
  {
    Shr(numItems, log2 + 1) + if And(numItems, numBuckets * 2 - 1) != 0 then 1 else 0
  }

  /** It is the ceiling of items over new buckets, and not 0 if there are items. */
  lemma IdealIsCeiling(numItems: nat, numBuckets: nat, log2: nat)
    requires numBuckets == Pow2(log2)
    ensures var m := IdealLength(numItems, numBuckets, log2);
            var n := numBuckets * 2;
            && m * n >= numItems && (m >= 1 ==> (m - 1) * n < numItems)
            && (numItems > 0 ==> m >= 1)
  {
    var n := numBuckets * 2;
    assert n == Pow2(log2 + 1);
    ShiftMask(numItems, log2 + 1);
    CeilingBounds(Shr(numItems, log2 + 1), n, And(numItems, n - 1));
  }

  lemma CeilingBounds(q: nat, n: nat, r: nat)
    requires r < n
    ensures var m := q + if r != 0 then 1 else 0;
            && m * n >= q * n + r && (m >= 1 ==> (m - 1) * n < q * n + r)
            && (q * n + r > 0 ==> m >= 1)
  {
    assert (q + 1) * n == q * n + n;
    assert (q - 1) * n == q * n - n;
  }

  // ---------- chain lengths ----------

  function Sum(lengths: seq<nat>): nat
  {
    if lengths == [] then 0 else lengths[0] + Sum(lengths[1..])
  }

  /** Items that stand behind the ideal length of their chain. */
  function Excess(lengths: seq<nat>, ideal: nat): nat
  {
    if lengths == [] then 0 else (if lengths[0] > ideal then lengths[0] - ideal else 0) + Excess(lengths[1..], ideal)
  }

  lemma {:induction false} SumUpdate(lengths: seq<nat>, b: nat, n: nat)
    requires b < |lengths|
    ensures Sum(lengths[b := n]) == Sum(lengths) - lengths[b] + n
  {
    if b == 0 {
      assert lengths[0 := n][1..] == lengths[1..];
    } else {
      assert lengths[b := n][1..] == lengths[1..][b - 1 := n];
      SumUpdate(lengths[1..], b - 1, n);
    }
  }

  lemma {:induction false} ExcessUpdate(lengths: seq<nat>, ideal: nat, b: nat)
    requires b < |lengths|
    ensures Excess(lengths[b := lengths[b] + 1], ideal) == Excess(lengths, ideal) + if lengths[b] + 1 > ideal then 1 else 0
  {
    var n := lengths[b] + 1;
    if b == 0 {
      assert lengths[0 := n][1..] == lengths[1..];
    } else {
      assert lengths[b := n][1..] == lengths[1..][b - 1 := n];
      ExcessUpdate(lengths[1..], ideal, b - 1);
    }
  }

  /** nonideal_items never exceeds num_items. */
  lemma {:induction false} ExcessBound(lengths: seq<nat>, ideal: nat)
    ensures Excess(lengths, ideal) <= Sum(lengths)
  {
    if lengths != [] {
      ExcessBound(lengths[1..], ideal);
    }
  }

  lemma {:induction false} SumZeros(n: nat, ideal: nat)
    ensures Sum(seq(n, _ => 0)) == 0 && Excess(seq(n, _ => 0), ideal) == 0
  {
    if n > 0 {
      assert seq(n, _ => 0)[1..] == seq(n - 1, _ => 0);
      SumZeros(n - 1, ideal);
    }
  }
}
