/** The hash table that holds a loop's live clients (broker/uthash.h): an insertion-order list and bucket chains over the same items. */
module HashTable {
  import opened Masks

  /** An element with its handle. The key bytes belong to the user of the table, who may change them. */
  class Item {
    var key: seq<nat>
    var hashv: nat
    var prev: Item?
    var next: Item?
    var hhPrev: Item?
    var hhNext: Item?

    constructor (key: seq<nat>)
      ensures this.key == key
    {
      this.key := key;
    }
  }

  datatype Bucket = Bucket(head: Item?, count: nat, expandMult: nat)

  // ---------- doubly linked lists ----------

  type Links = map<Item, Item?>

  ghost function Prevs(items: set<Item>): Links
    reads items`prev
  {
    map x | x in items :: x.prev
  }

  ghost function Nexts(items: set<Item>): Links
    reads items`next
  {
    map x | x in items :: x.next
  }

  ghost function HhPrevs(items: set<Item>): Links
    reads items`hhPrev
  {
    map x | x in items :: x.hhPrev
  }

  ghost function HhNexts(items: set<Item>): Links
    reads items`hhNext
  {
    map x | x in items :: x.hhNext
  }

  predicate Distinct(s: seq<Item>) {
    forall i, j :: 0 <= i < j < |s| ==> s[i] != s[j]
  }

  function At(s: seq<Item>, i: int): Item? {
    if 0 <= i < |s| then s[i] else null
  }

  /** The links after one pointer write, or none at a null handle. */
  function Patch(m: Links, x: Item?, to: Item?): Links {
    if x == null then m else m[x as Item := to]
  }

  predicate LinkAt(s: seq<Item>, i: nat, prevs: Links, nexts: Links)
    requires i < |s|
  {
    && s[i] in prevs && prevs[s[i]] == At(s, i - 1)
    && s[i] in nexts && nexts[s[i]] == At(s, i + 1)
  }

  /** s is a doubly linked list, ended by null both ways. */
  predicate Linked(s: seq<Item>, prevs: Links, nexts: Links) {
    Distinct(s) && forall i :: 0 <= i < |s| ==> LinkAt(s, i, prevs, nexts)
  }

  function Drop(s: seq<Item>, i: nat): seq<Item>
    requires i < |s|
  {
    s[..i] + s[i + 1..]
  }

  /** A patch that touches no element of a list keeps it. */
  lemma LinkedElsewhere(s: seq<Item>, prevs: Links, nexts: Links, prevs': Links, nexts': Links)
    requires Linked(s, prevs, nexts)
    requires forall x :: x in s ==> x in prevs && x in nexts && x in prevs' && x in nexts' && prevs'[x] == prevs[x] && nexts'[x] == nexts[x]
    ensures Linked(s, prevs', nexts')
  {
    forall i | 0 <= i < |s|
      ensures LinkAt(s, i, prevs', nexts')
    {
      assert LinkAt(s, i, prevs, nexts);
      assert s[i] in s;
    }
  }

  lemma LinkedFront(s: seq<Item>, x: Item, prevs: Links, nexts: Links, prevs': Links, nexts': Links)
    requires Linked(s, prevs, nexts) && x !in s
    requires nexts' == nexts[x := At(s, 0)]
    requires prevs' == Patch(prevs[x := null], At(s, 0), x)
    ensures Linked([x] + s, prevs', nexts')
  {
    var t := [x] + s;
    forall i | 0 <= i < |t|
      ensures LinkAt(t, i, prevs', nexts')
    {
      if i > 0 {
        assert LinkAt(s, i - 1, prevs, nexts) && t[i] == s[i - 1] && s[i - 1] in s;
      }
    }
  }

  lemma LinkedBack(s: seq<Item>, x: Item, prevs: Links, nexts: Links, prevs': Links, nexts': Links)
    requires Linked(s, prevs, nexts) && x !in s
    requires prevs' == prevs[x := At(s, |s| - 1)]
    requires nexts' == Patch(nexts[x := null], At(s, |s| - 1), x)
    ensures Linked(s + [x], prevs', nexts')
  {
    var t := s + [x];
    forall i | 0 <= i < |t|
      ensures LinkAt(t, i, prevs', nexts')
    {
      if i < |s| {
        assert LinkAt(s, i, prevs, nexts) && t[i] == s[i] && s[i] in s;
      }
    }
  }

  /** Both patch-ups of a removal: of the successor's prev and of the predecessor's next. */
  lemma LinkedDrop(s: seq<Item>, i: nat, prevs: Links, nexts: Links, prevs': Links, nexts': Links)
    requires Linked(s, prevs, nexts) && i < |s|
    requires prevs' == Patch(prevs, At(s, i + 1), At(s, i - 1))
    requires nexts' == Patch(nexts, At(s, i - 1), At(s, i + 1))
    ensures Linked(Drop(s, i), prevs', nexts')
  {
    var t := Drop(s, i);
    forall k | 0 <= k < |t|
      ensures LinkAt(t, k, prevs', nexts')
    {
      var j := if k < i then k else k + 1;
      assert t[k] == s[j];
      assert LinkAt(s, j, prevs, nexts);
    }
  }

  lemma KeptLinks(s: seq<Item>, prevs: Links, nexts: Links)
    requires Linked(s, prevs, nexts)
    ensures forall x :: x in s ==> x in prevs && x in nexts
  {
    forall x | x in s
      ensures x in prevs && x in nexts
    {
      var i :| 0 <= i < |s| && s[i] == x;
      assert LinkAt(s, i, prevs, nexts);
    }
  }

  function Without(s: seq<Item>, x: Item): seq<Item> {
    if s == [] then [] else if s[0] == x then s[1..] else [s[0]] + Without(s[1..], x)
  }

  lemma {:induction false} WithoutIn(s: seq<Item>, x: Item)
    ensures forall y :: y in Without(s, x) ==> y in s
  {
    if s != [] && s[0] != x {
      WithoutIn(s[1..], x);
    }
  }

  lemma {:induction false} WithoutIsDrop(s: seq<Item>, i: nat)
    requires Distinct(s) && i < |s|
    ensures Without(s, s[i]) == Drop(s, i)
  {
    if i > 0 {
      assert s[1..][i - 1] == s[i];
      WithoutIsDrop(s[1..], i - 1);
      assert Drop(s, i) == [s[0]] + Drop(s[1..], i - 1);
    }
  }

  lemma InDrop(s: seq<Item>, i: nat, y: Item)
    requires i < |s| && y in s && y != s[i]
    ensures y in Drop(s, i)
  {
    var j :| 0 <= j < |s| && s[j] == y;
    assert Drop(s, i)[if j < i then j else j - 1] == y;
  }

  function SetOf(s: seq<Item>): set<Item> {
    set x | x in s
  }

  lemma SetOfDrop(s: seq<Item>, i: nat)
    requires Distinct(s) && i < |s|
    ensures SetOf(Drop(s, i)) == SetOf(s) - {s[i]}
  {
    forall y | y in s && y != s[i]
      ensures y in Drop(s, i)
    {
      InDrop(s, i, y);
    }
  }

  lemma DropLinked(s: seq<Item>, i: nat, prevs: Links, nexts: Links, prevs': Links, nexts': Links)
    requires Linked(s, prevs, nexts) && i < |s|
    requires prevs' == Patch(prevs, At(s, i + 1), At(s, i - 1))
    requires nexts' == Patch(nexts, At(s, i - 1), At(s, i + 1))
    ensures Linked(Drop(s, i), prevs' - {s[i]}, nexts' - {s[i]})
  {
    LinkedDrop(s, i, prevs, nexts, prevs', nexts');
    KeptLinks(Drop(s, i), prevs', nexts');
    SetOfDrop(s, i);
    assert s[i] !in SetOf(Drop(s, i));
    LinkedElsewhere(Drop(s, i), prevs', nexts', prevs' - {s[i]}, nexts' - {s[i]});
  }

  /** The patch-up of a removal, seen from the links: list, head and tail without the item. */
  lemma ListDrop(s: seq<Item>, i: nat, prevs: Links, nexts: Links, prevs': Links, nexts': Links, head: Item?, tail: Item?)
    requires Linked(s, prevs, nexts) && i < |s| && s[i] in prevs && s[i] in nexts
    requires prevs' == Patch(prevs, nexts[s[i]], prevs[s[i]]) && nexts' == Patch(nexts, prevs[s[i]], nexts[s[i]])
    requires head == if prevs[s[i]] == null then nexts[s[i]] else At(s, 0)
    requires tail == if s[i] == At(s, |s| - 1) then prevs[s[i]] else At(s, |s| - 1)
    ensures Linked(Drop(s, i), prevs' - {s[i]}, nexts' - {s[i]})
    ensures head == At(Drop(s, i), 0) && tail == At(Drop(s, i), |Drop(s, i)| - 1)
    ensures SetOf(Drop(s, i)) == SetOf(s) - {s[i]}
  {
    assert LinkAt(s, i, prevs, nexts);
    DropLinked(s, i, prevs, nexts, prevs', nexts');
    SetOfDrop(s, i);
  }

  lemma Neighbours(s: seq<Item>, i: nat, prevs: Links, nexts: Links)
    requires Linked(s, prevs, nexts) && i < |s|
    ensures s[i] in prevs && s[i] in nexts
    ensures prevs[s[i]] == null || prevs[s[i]] in SetOf(s)
    ensures nexts[s[i]] == null || nexts[s[i]] in SetOf(s)
  {
    assert LinkAt(s, i, prevs, nexts);
  }

  // ---------- buckets ----------

  ghost function Hashes(items: set<Item>): map<Item, nat>
    reads items`hashv
  {
    map x | x in items :: x.hashv
  }

  predicate Hashed(x: Item, b: nat, n: nat, hashes: map<Item, nat>)
    requires n >= 1
  {
    x in hashes && BucketOf(hashes[x], n) == b
  }

  predicate ChainOk(k: Bucket, chain: seq<Item>, b: nat, n: nat, hashes: map<Item, nat>, prevs: Links, nexts: Links)
    requires n >= 1
  {
    && k.head == At(chain, 0)
    && k.count == |chain|
    && Linked(chain, prevs, nexts)
    && forall x :: x in chain ==> Hashed(x, b, n, hashes)
  }

  /** Every chain is well linked and counted, and every item is in the chain of its stored hash value and in no other. */
  predicate ChainsOk(buckets: seq<Bucket>, chains: seq<seq<Item>>, hashes: map<Item, nat>, prevs: Links, nexts: Links) {
    && |chains| == |buckets| >= 1
    && (forall b :: 0 <= b < |buckets| ==> ChainOk(buckets[b], chains[b], b, |buckets|, hashes, prevs, nexts))
    && (forall x :: x in hashes ==> x in chains[BucketOf(hashes[x], |chains|)])
  }

  function Counts(buckets: seq<Bucket>): (r: seq<nat>)
    ensures |r| == |buckets| && forall b :: 0 <= b < |r| ==> r[b] == buckets[b].count
  {
    seq(|buckets|, b requires 0 <= b < |buckets| => buckets[b].count)
  }

  function Mults(buckets: seq<Bucket>): (r: seq<nat>)
    ensures |r| == |buckets| && forall b :: 0 <= b < |r| ==> r[b] == buckets[b].expandMult
  {
    seq(|buckets|, b requires 0 <= b < |buckets| => buckets[b].expandMult)
  }

  lemma HeadIsIn(buckets: seq<Bucket>, chains: seq<seq<Item>>, hashes: map<Item, nat>, prevs: Links, nexts: Links, b: nat)
    requires ChainsOk(buckets, chains, hashes, prevs, nexts) && b < |buckets|
    ensures buckets[b].head != null ==> buckets[b].head in hashes
  {
    assert ChainOk(buckets[b], chains[b], b, |buckets|, hashes, prevs, nexts);
    assert chains[b] != [] ==> chains[b][0] in chains[b];
  }

  /** An item is in the chain of its hash value, between its neighbours. */
  lemma WhereIs(buckets: seq<Bucket>, chains: seq<seq<Item>>, hashes: map<Item, nat>, prevs: Links, nexts: Links, x: Item)
    returns (b: nat, i: nat)
    requires ChainsOk(buckets, chains, hashes, prevs, nexts) && x in hashes
    ensures b < |buckets| && b == BucketOf(hashes[x], |buckets|)
    ensures i < |chains[b]| == buckets[b].count && chains[b][i] == x && buckets[b].head == At(chains[b], 0)
    ensures Distinct(chains[b])
    ensures x in prevs && prevs[x] == At(chains[b], i - 1) && (prevs[x] == null || prevs[x] in hashes)
    ensures x in nexts && nexts[x] == At(chains[b], i + 1) && (nexts[x] == null || nexts[x] in hashes)
  {
    b := BucketOf(hashes[x], |buckets|);
    var chain := chains[b];
    assert x in chain;
    i :| 0 <= i < |chain| && chain[i] == x;
    assert ChainOk(buckets[b], chain, b, |buckets|, hashes, prevs, nexts);
    assert LinkAt(chain, i, prevs, nexts);
    assert i > 0 ==> chain[i - 1] in chain && Hashed(chain[i - 1], b, |buckets|, hashes);
    assert i + 1 < |chain| ==> chain[i + 1] in chain && Hashed(chain[i + 1], b, |buckets|, hashes);
  }

  lemma DropHead(s: seq<Item>, i: nat)
    requires Distinct(s) && i < |s|
    ensures At(Drop(s, i), 0) == if At(s, 0) == s[i] then At(s, i + 1) else At(s, 0)
  {
  }

  /** A new item is put in front of its chain. */
  lemma ChainsPush(buckets: seq<Bucket>, chains: seq<seq<Item>>, hashes: map<Item, nat>, prevs: Links, nexts: Links,
                   x: Item, hashv: nat, mult: nat, prevs': Links, nexts': Links)
    requires ChainsOk(buckets, chains, hashes, prevs, nexts) && x !in hashes
    requires var head := buckets[BucketOf(hashv, |buckets|)].head;
      && nexts' == nexts[x := head]
      && prevs' == Patch(prevs[x := null], head, x)
    ensures var b := BucketOf(hashv, |buckets|);
      ChainsOk(buckets[b := Bucket(x, buckets[b].count + 1, mult)], chains[b := [x] + chains[b]], hashes[x := hashv], prevs', nexts')
  {
    var n, b := |buckets|, BucketOf(hashv, |buckets|);
    var buckets', chains' := buckets[b := Bucket(x, buckets[b].count + 1, mult)], chains[b := [x] + chains[b]];
    assert ChainOk(buckets[b], chains[b], b, n, hashes, prevs, nexts);
    forall c | 0 <= c < n
      ensures ChainOk(buckets'[c], chains'[c], c, n, hashes[x := hashv], prevs', nexts')
    {
      assert ChainOk(buckets[c], chains[c], c, n, hashes, prevs, nexts);
      if c == b {
        LinkedFront(chains[b], x, prevs, nexts, prevs', nexts');
      } else {
        KeptLinks(chains[c], prevs, nexts);
        assert forall y :: y in chains[c] ==> y != x && y !in chains[b];
        LinkedElsewhere(chains[c], prevs, nexts, prevs', nexts');
      }
    }
  }

  /** The bucket after HASH_DEL_IN_BKT. */
  function Shrunk(k: Bucket, chain: seq<Item>, i: nat): Bucket
    requires i < |chain| == k.count
  {
    Bucket(At(Drop(chain, i), 0), k.count - 1, k.expandMult)
  }

  lemma ChainDrop(k: Bucket, chain: seq<Item>, b: nat, n: nat, hashes: map<Item, nat>, prevs: Links, nexts: Links,
                  i: nat, prevs': Links, nexts': Links)
    requires n >= 1 && ChainOk(k, chain, b, n, hashes, prevs, nexts) && i < |chain|
    requires prevs' == Patch(prevs, At(chain, i + 1), At(chain, i - 1))
    requires nexts' == Patch(nexts, At(chain, i - 1), At(chain, i + 1))
    ensures ChainOk(Shrunk(k, chain, i), Drop(chain, i), b, n, hashes - {chain[i]}, prevs' - {chain[i]}, nexts' - {chain[i]})
  {
    var x := chain[i];
    DropLinked(chain, i, prevs, nexts, prevs', nexts');
    SetOfDrop(chain, i);
    forall y | y in Drop(chain, i)
      ensures y != x && Hashed(y, b, n, hashes - {x})
    {
      assert y in SetOf(Drop(chain, i)) && Hashed(y, b, n, hashes);
    }
  }

  /** An item is taken out of its chain. */
  lemma ChainsDrop(buckets: seq<Bucket>, chains: seq<seq<Item>>, hashes: map<Item, nat>, prevs: Links, nexts: Links,
                   b: nat, i: nat, prevs': Links, nexts': Links)
    requires ChainsOk(buckets, chains, hashes, prevs, nexts) && b < |buckets| && i < |chains[b]|
    requires var chain := chains[b];
      && prevs' == Patch(prevs, At(chain, i + 1), At(chain, i - 1))
      && nexts' == Patch(nexts, At(chain, i - 1), At(chain, i + 1))
    ensures |chains[b]| == buckets[b].count
    ensures var x := chains[b][i];
      ChainsOk(buckets[b := Shrunk(buckets[b], chains[b], i)], chains[b := Drop(chains[b], i)],
               hashes - {x}, prevs' - {x}, nexts' - {x})
  {
    var n, chain, x := |buckets|, chains[b], chains[b][i];
    assert ChainOk(buckets[b], chain, b, n, hashes, prevs, nexts);
    var hashes' := hashes - {x};
    var buckets', chains' := buckets[b := Shrunk(buckets[b], chain, i)], chains[b := Drop(chain, i)];
    forall c | 0 <= c < n
      ensures ChainOk(buckets'[c], chains'[c], c, n, hashes', prevs' - {x}, nexts' - {x})
    {
      assert ChainOk(buckets[c], chains[c], c, n, hashes, prevs, nexts);
      if c == b {
        ChainDrop(buckets[b], chain, b, n, hashes, prevs, nexts, i, prevs', nexts');
      } else {
        KeptLinks(chains[c], prevs, nexts);
        assert forall y :: y in chains[c] ==> y !in chain;
        LinkedElsewhere(chains[c], prevs, nexts, prevs' - {x}, nexts' - {x});
      }
    }
    forall y | y in hashes'
      ensures y in chains'[BucketOf(hashes'[y], n)]
    {
      assert y in chains[BucketOf(hashes[y], n)];
      if BucketOf(hashes'[y], n) == b {
        InDrop(chain, i, y);
      }
    }
  }

  /** HASH_DEL_IN_BKT, seen from the links: whichever item it is, its chain closes over it. */
  lemma ChainsRemove(buckets: seq<Bucket>, chains: seq<seq<Item>>, hashes: map<Item, nat>, prevs: Links, nexts: Links,
                     x: Item, k: Bucket, prevs': Links, nexts': Links) returns (chain: seq<Item>)
    requires ChainsOk(buckets, chains, hashes, prevs, nexts) && x in hashes && x in prevs && x in nexts
    requires prevs' == Patch(prevs, nexts[x], prevs[x]) && nexts' == Patch(nexts, prevs[x], nexts[x])
    requires var k0 := buckets[BucketOf(hashes[x], |buckets|)];
      k0.count > 0 && k == Bucket(if k0.head == x then nexts[x] else k0.head, k0.count - 1, k0.expandMult)
    ensures var b := BucketOf(hashes[x], |buckets|);
      ChainsOk(buckets[b := k], chains[b := chain], hashes - {x}, prevs' - {x}, nexts' - {x})
  {
    var b, i := WhereIs(buckets, chains, hashes, prevs, nexts, x);
    chain := Drop(chains[b], i);
    ChainsDrop(buckets, chains, hashes, prevs, nexts, b, i, prevs', nexts');
    DropHead(chains[b], i);
  }

  // ---------- how long a chain may get ----------

  const INITIAL_BUCKETS: nat := 32
  const INITIAL_LOG2: nat := 5
  const CAPACITY: nat := 10

  /** The longest chain of a bucket with this multiplier while doubling is not inhibited. */
  function Limit(mult: nat): nat {
    if mult == 0 then CAPACITY else (mult + 1) * CAPACITY - 1
  }

  predicate Bounded(buckets: seq<Bucket>) {
    forall b :: 0 <= b < |buckets| ==> buckets[b].count <= Limit(buckets[b].expandMult)
  }

  /** The multiplier that a doubling leaves behind. */
  function MultOf(count: nat, ideal: nat): nat
    requires ideal >= 1
  {
    if count > ideal then count / ideal else 0
  }

  lemma {:induction false} LimitSum(buckets: seq<Bucket>)
    requires Bounded(buckets)
    ensures var m := Sum(Mults(buckets));
      Sum(Counts(buckets)) <= CAPACITY * (|buckets| + m) - if m > 0 then 1 else 0
  {
    if buckets != [] {
      assert Mults(buckets)[1..] == Mults(buckets[1..]);
      assert Counts(buckets)[1..] == Counts(buckets[1..]);
      LimitSum(buckets[1..]);
    }
  }

  /** There is room for one more item at 20 items a bucket. */
  lemma OneMoreFits(buckets: seq<Bucket>)
    requires Bounded(buckets) && |buckets| >= 1 && Sum(Mults(buckets)) <= |buckets|
    ensures Sum(Counts(buckets)) + 1 <= 2 * CAPACITY * |buckets|
  {
    LimitSum(buckets);
  }

  /** The bucket with one more item: the limits hold unless it is full, and if it is a doubling has room. */
  lemma FilledUp(buckets: seq<Bucket>, b: nat, x: Item)
    requires b < |buckets|
    ensures var k := buckets[b];
      Bounded(buckets) && k.count + 1 < (k.expandMult + 1) * CAPACITY ==>
        Bounded(buckets[b := Bucket(x, k.count + 1, k.expandMult)])
    ensures Bounded(buckets) && Sum(Mults(buckets)) <= |buckets| ==> Sum(Counts(buckets)) + 1 <= 2 * CAPACITY * |buckets|
  {
    if Bounded(buckets) && Sum(Mults(buckets)) <= |buckets| {
      OneMoreFits(buckets);
    }
  }

  lemma {:induction false} MultSum(buckets: seq<Bucket>, ideal: nat)
    requires ideal >= 1
    requires forall b :: 0 <= b < |buckets| ==> buckets[b].expandMult == MultOf(buckets[b].count, ideal)
    ensures Sum(Mults(buckets)) * ideal <= Sum(Counts(buckets))
  {
    if buckets != [] {
      assert Mults(buckets)[1..] == Mults(buckets[1..]);
      assert Counts(buckets)[1..] == Counts(buckets[1..]);
      MultSum(buckets[1..], ideal);
      DivModExact(buckets[0].count, ideal);
      Distribute(buckets[0].expandMult, Sum(Mults(buckets[1..])), ideal);
      assert buckets[0].expandMult * ideal <= buckets[0].count;
    }
  }

  lemma MultLimit(count: nat, ideal: nat)
    requires 1 <= ideal <= CAPACITY
    ensures count <= Limit(MultOf(count, ideal))
  {
    if count > ideal {
      var q := count / ideal;
      DivModExact(count, ideal);
      Distribute(q, 1, ideal);
      MulMono(q + 1, ideal, CAPACITY);
      if q == 0 {
        assert false;
      }
    }
  }

  lemma MulMono(a: nat, x: nat, y: nat)
    requires x <= y
    ensures a * x <= a * y
  {
    assert a * y == a * x + a * (y - x);
  }

  lemma Distribute(a: nat, b: nat, c: nat)
    ensures (a + b) * c == a * c + b * c
  {
  }

  lemma Squeeze(m: nat, ideal: nat, n: nat, items: nat)
    requires ideal >= 1 && m * ideal <= items <= ideal * n
    ensures m <= n
  {
    if m > n {
      MulGap(ideal, n, m);
    }
  }

  lemma MulCancel(a: nat, b: nat, x: nat)
    requires a * x < b * x
    ensures a < b
  {
    if a >= b {
      MulMono(x, b, a);
    }
  }

  /** A doubling at up to 20 items a bucket leaves every chain within its limit, and no more multipliers than buckets. */
  lemma DoublingBounds(buckets: seq<Bucket>, items: nat, n: nat, log2: nat)
    requires n == Pow2(log2) && |buckets| == 2 * n && 0 < items == Sum(Counts(buckets)) <= 2 * CAPACITY * n
    requires IdealLength(items, n, log2) >= 1
    requires forall b :: 0 <= b < |buckets| ==> buckets[b].expandMult == MultOf(buckets[b].count, IdealLength(items, n, log2))
    ensures Bounded(buckets) && Sum(Mults(buckets)) <= |buckets| == Pow2(log2 + 1)
    ensures IsCeiling(IdealLength(items, n, log2), items, |buckets|)
  {
    var ideal := IdealLength(items, n, log2);
    IdealIsCeiling(items, n, log2);
    MulCancel(ideal - 1, CAPACITY, n * 2);
    MultSum(buckets, ideal);
    Squeeze(Sum(Mults(buckets)), ideal, n * 2, items);
    forall b | 0 <= b < |buckets|
      ensures buckets[b].count <= Limit(buckets[b].expandMult)
    {
      MultLimit(buckets[b].count, ideal);
    }
  }

  // ---------- the table ----------

  lemma SetOfAppend(s: seq<Item>, x: Item)
    ensures SetOf(s + [x]) == SetOf(s) + {x}
  {
  }

  lemma LinksWithout(items: set<Item>, x: Item)
    ensures Hashes(items - {x}) == Hashes(items) - {x}
    ensures HhPrevs(items - {x}) == HhPrevs(items) - {x} && HhNexts(items - {x}) == HhNexts(items) - {x}
  {
  }

  lemma {:induction false} SetOfSize(s: seq<Item>)
    requires Distinct(s)
    ensures |SetOf(s)| == |s|
  {
    if s != [] {
      SetOfSize(s[1..]);
      assert SetOf(s) == {s[0]} + SetOf(s[1..]);
    }
  }

  /** No item is in two chains, or twice in one. */
  predicate Apart(chains: seq<seq<Item>>) {
    && (forall b :: 0 <= b < |chains| ==> Distinct(chains[b]))
    && (forall b, c :: 0 <= b < c < |chains| ==> SetOf(chains[b]) !! SetOf(chains[c]))
  }

  lemma ChainsApart(buckets: seq<Bucket>, chains: seq<seq<Item>>, hashes: map<Item, nat>, prevs: Links, nexts: Links)
    requires ChainsOk(buckets, chains, hashes, prevs, nexts)
    ensures Apart(chains)
    ensures forall b :: 0 <= b < |chains| ==> SetOf(chains[b]) <= hashes.Keys
    ensures forall b :: 0 <= b < |chains| ==> buckets[b].head == At(chains[b], 0)
  {
    forall b | 0 <= b < |chains|
      ensures ChainOk(buckets[b], chains[b], b, |buckets|, hashes, prevs, nexts)
    {
    }
    forall b, c | 0 <= b < c < |chains|
      ensures SetOf(chains[b]) !! SetOf(chains[c])
    {
      assert ChainOk(buckets[b], chains[b], b, |buckets|, hashes, prevs, nexts);
      assert ChainOk(buckets[c], chains[c], c, |buckets|, hashes, prevs, nexts);
    }
  }

  function FreshBuckets(n: nat): seq<Bucket> {
    seq(n, _ => Bucket(null, 0, 0))
  }

  lemma EmptyTable(n: nat, ideal: nat)
    requires n >= 1 && ideal >= 1
    ensures var buckets := FreshBuckets(n);
      && |buckets| == n && ChainsOk(buckets, seq(n, _ => []), map[], map[], map[])
      && FilledTo(buckets, 0, ideal, 0) && Sum(Mults(buckets)) == 0 && Bounded(buckets)
  {
    var buckets := FreshBuckets(n);
    SumZeros(n, ideal);
    assert Counts(buckets) == seq(n, _ => 0) == Mults(buckets);
  }

  lemma AllMoved(buckets: seq<Bucket>, chains: seq<seq<Item>>, hashes: map<Item, nat>, prevs: Links, nexts: Links, done: set<Item>)
    requires ChainsOk(buckets, chains, hashes, prevs, nexts)
    requires forall b :: 0 <= b < |chains| ==> SetOf(chains[b]) <= done
    ensures hashes.Keys <= done
  {
    forall x | x in hashes
      ensures x in done
    {
      assert x in SetOf(chains[BucketOf(hashes[x], |chains|)]);
    }
  }

  /** m is the ceiling of items over n. */
  predicate IsCeiling(m: nat, items: nat, n: nat) {
    m * n >= items && (m >= 1 ==> (m - 1) * n < items)
  }

  lemma SetOfTake(done: set<Item>, s: seq<Item>, j: nat)
    requires j < |s|
    ensures done + SetOf(s[..j + 1]) == done + SetOf(s[..j]) + {s[j]}
  {
    assert s[..j + 1] == s[..j] + [s[j]];
  }

  lemma SetOfEnds(done: set<Item>, s: seq<Item>)
    ensures done + SetOf(s[..0]) == done && s[..|s|] == s
  {
  }

  /** A table that a doubling has filled so far, with its count of items behind the ideal chain length. */
  predicate FilledTo(buckets: seq<Bucket>, size: nat, ideal: nat, nonideal: nat) {
    && ideal >= 1
    && Sum(Counts(buckets)) == size
    && nonideal == Excess(Counts(buckets), ideal)
    && forall b :: 0 <= b < |buckets| ==> buckets[b].expandMult == MultOf(buckets[b].count, ideal)
  }

  lemma FilledOneMore(buckets: seq<Bucket>, size: nat, ideal: nat, nonideal: nat, b: nat, x: Item)
    requires FilledTo(buckets, size, ideal, nonideal) && b < |buckets|
    ensures var n := buckets[b].count + 1;
      && FilledTo(buckets[b := Bucket(x, n, MultOf(n, ideal))], size + 1, ideal, nonideal + if n > ideal then 1 else 0)
      && (n <= ideal ==> buckets[b].expandMult == 0)
  {
    var n := buckets[b].count + 1;
    assert Counts(buckets[b := Bucket(x, n, MultOf(n, ideal))]) == Counts(buckets)[b := n];
    SumUpdate(Counts(buckets), b, n);
    ExcessUpdate(Counts(buckets), ideal, b);
  }

  /** An item of a chain that a doubling has still to move: its link on is untouched. */
  ghost predicate WaitingAt(items: set<Item>, done: set<Item>, chain: seq<Item>, k: nat)
    requires k < |chain|
    reads items`hhNext
  {
    chain[k] in items && chain[k] !in done && chain[k].hhNext == At(chain, k + 1)
  }

  ghost predicate Waiting(items: set<Item>, done: set<Item>, chain: seq<Item>, j: nat)
    reads items`hhNext
  {
    forall k :: j <= k < |chain| ==> WaitingAt(items, done, chain, k)
  }

  class Table {
    const hash: seq<nat> -> nat
    var head: Item?
    var tail: Item?
    var buckets: seq<Bucket>
    var numBuckets: nat
    var log2NumBuckets: nat
    var numItems: nat
    var idealChainMaxlen: nat
    var nonidealItems: nat
    var ineffExpands: nat
    var noexpand: nat
    ghost var order: seq<Item>
    ghost var chains: seq<seq<Item>>

    ghost function Items(): set<Item>
      reads this`order
    {
      SetOf(order)
    }

    /** The insertion-order list: links both ways and ends. */
    ghost predicate ListOk()
      reads this`order, this`head, this`tail, Items()`prev, Items()`next
    {
      && Linked(order, Prevs(Items()), Nexts(Items()))
      && head == At(order, 0) && tail == At(order, |order| - 1)
    }

    /** The chains hold exactly these items; the multipliers leave room for no more than one doubled capacity each. */
    ghost predicate Filed(items: set<Item>)
      reads this`buckets, this`chains, this`numBuckets, this`log2NumBuckets, items`hhPrev, items`hhNext, items`hashv
    {
      && numBuckets == |buckets| == Pow2(log2NumBuckets)
      && ChainsOk(buckets, chains, Hashes(items), HhPrevs(items), HhNexts(items))
      && Sum(Counts(buckets)) == |items|
      && Sum(Mults(buckets)) <= numBuckets
    }

    /** The invariant that HASH_FSCK checks, with what keeps the chains short. */
    ghost predicate Valid()
      reads this, Items()
    {
      && ListOk() && numItems == |order|
      && (order != [] ==> Filed(Items()) && (noexpand != 1 ==> Bounded(buckets)))
    }

    /** What leaves the insertion-order links alone keeps the list. */
    twostate lemma ListKept()
      requires old(ListOk()) && order == old(order) && head == old(head) && tail == old(tail)
      requires forall x :: x in order ==> x.prev == old(x.prev) && x.next == old(x.next)
      ensures ListOk()
    {
      assert Prevs(Items()) == old(Prevs(Items())) && Nexts(Items()) == old(Nexts(Items()));
    }

    /** What leaves the bucket links alone keeps the chains. */
    twostate lemma FiledKept(items: set<Item>)
      requires old(Filed(items)) && buckets == old(buckets) && chains == old(chains)
      requires numBuckets == old(numBuckets) && log2NumBuckets == old(log2NumBuckets)
      requires forall x :: x in items ==> x.hhPrev == old(x.hhPrev) && x.hhNext == old(x.hhNext) && x.hashv == old(x.hashv)
      ensures Filed(items)
    {
      assert HhPrevs(items) == old(HhPrevs(items)) && HhNexts(items) == old(HhNexts(items)) && Hashes(items) == old(Hashes(items));
    }

    constructor (hash: seq<nat> -> nat)
      ensures Valid() && order == [] && this.hash == hash
    {
      this.hash := hash;
      head, tail, buckets, numItems := null, null, [], 0;
      order, chains := [], [];
    }

    /** An item goes in front of a chain, in HASH_ADD_TO_BKT and in a doubling. */
    method LinkFirst(x: Item, first: Item?)
      requires x != first
      modifies x`hhPrev, x`hhNext, (if first == null then {} else {first})`hhPrev
      ensures x.hhNext == first && x.hhPrev == null
      ensures first != null ==> first.hhPrev == x
    {
      x.hhNext := first;
      x.hhPrev := null;
      if first != null {
        first.hhPrev := x;
      }
    }

    // ---------- doubling ----------

    /** The new table of a doubling so far. */
    ghost predicate Spread(done: set<Item>, newBuckets: seq<Bucket>, newChains: seq<seq<Item>>)
      reads this`idealChainMaxlen, this`nonidealItems, done`hhPrev, done`hhNext, done`hashv
    {
      && ChainsOk(newBuckets, newChains, Hashes(done), HhPrevs(done), HhNexts(done))
      && FilledTo(newBuckets, |done|, idealChainMaxlen, nonidealItems)
    }

    /** The links and hash values of a table are those before, with an item put in front of a chain. */
    method LinkInto(x: Item, first: Item?, ghost items: set<Item>)
      requires x !in items && (first != null ==> first in items)
      modifies x`hhPrev, x`hhNext, items`hhPrev
      ensures HhNexts(items + {x}) == old(HhNexts(items))[x := first]
      ensures HhPrevs(items + {x}) == Patch(old(HhPrevs(items))[x := null], first, x)
      ensures Hashes(items + {x}) == old(Hashes(items))[x := x.hashv]
    {
      LinkFirst(x, first);
    }

    /** One more item is counted in a bucket of the new table. */
    method CountOne(k: Bucket) returns (mult: nat)
      requires idealChainMaxlen >= 1 && k.expandMult == MultOf(k.count, idealChainMaxlen)
      modifies this`nonidealItems
      ensures nonidealItems == old(nonidealItems) + if k.count + 1 > idealChainMaxlen then 1 else 0
      ensures mult == MultOf(k.count + 1, idealChainMaxlen)
    {
      mult := k.expandMult;
      if k.count + 1 > idealChainMaxlen {
        nonidealItems := nonidealItems + 1;
        mult := (k.count + 1) / idealChainMaxlen;
      }
    }

    /** An item goes in front of a chain of a table. */
    method PutInChain(x: Item, ghost done: set<Item>, b: nat, mult: nat, newBuckets: seq<Bucket>, ghost newChains: seq<seq<Item>>)
      returns (buckets': seq<Bucket>, ghost chains': seq<seq<Item>>)
      requires ChainsOk(newBuckets, newChains, Hashes(done), HhPrevs(done), HhNexts(done)) && x !in done
      requires b == BucketOf(x.hashv, |newBuckets|)
      modifies x`hhPrev, x`hhNext, done`hhPrev
      ensures ChainsOk(buckets', chains', Hashes(done + {x}), HhPrevs(done + {x}), HhNexts(done + {x}))
      ensures buckets' == newBuckets[b := Bucket(x, newBuckets[b].count + 1, mult)] && chains' == newChains[b := [x] + newChains[b]]
    {
      var k := newBuckets[b];
      ghost var hashes, nexts, prevs := Hashes(done), HhNexts(done), HhPrevs(done);
      HeadIsIn(newBuckets, newChains, hashes, prevs, nexts, b);
      LinkInto(x, k.head, done);
      buckets' := newBuckets[b := Bucket(x, k.count + 1, mult)];
      chains' := newChains[b := [x] + newChains[b]];
      ChainsPush(newBuckets, newChains, hashes, prevs, nexts, x, x.hashv, mult, HhPrevs(done + {x}), HhNexts(done + {x}));
    }

    /** One item is moved into the new table. */
    method Move(x: Item, ghost done: set<Item>, newBuckets: seq<Bucket>, ghost newChains: seq<seq<Item>>)
      returns (buckets': seq<Bucket>, ghost chains': seq<seq<Item>>)
      requires Spread(done, newBuckets, newChains) && x !in done
      modifies this`nonidealItems, x`hhPrev, x`hhNext, done`hhPrev
      ensures Spread(done + {x}, buckets', chains') && |buckets'| == |newBuckets|
    {
      var b := BucketOf(x.hashv, |newBuckets|);
      FilledOneMore(newBuckets, |done|, idealChainMaxlen, nonidealItems, b, x);
      var mult := CountOne(newBuckets[b]);
      buckets', chains' := PutInChain(x, done, b, mult, newBuckets, newChains);
      assert FilledTo(buckets', |done + {x}|, idealChainMaxlen, nonidealItems);
    }

    /** The next item of a chain is moved; its link on is read first. */
    method MoveNext(x: Item, ghost items: set<Item>, ghost chain: seq<Item>, ghost j: nat, ghost done: set<Item>,
                    newBuckets: seq<Bucket>, ghost newChains: seq<seq<Item>>)
      returns (next: Item?, buckets': seq<Bucket>, ghost chains': seq<seq<Item>>)
      requires j < |chain| && x == chain[j] && done <= items && Distinct(chain)
      requires Spread(done, newBuckets, newChains) && Waiting(items, done, chain, j)
      modifies this`nonidealItems, x`hhPrev, x`hhNext, done`hhPrev
      ensures Spread(done + {x}, buckets', chains') && |buckets'| == |newBuckets|
      ensures next == At(chain, j + 1) && Waiting(items, done + {x}, chain, j + 1)
      ensures done + {x} <= items
    {
      assert WaitingAt(items, done, chain, j);
      next := x.hhNext;
      buckets', chains' := Move(x, done, newBuckets, newChains);
      forall k | j + 1 <= k < |chain|
        ensures WaitingAt(items, done + {x}, chain, k)
      {
        assert old(WaitingAt(items, done, chain, k));
      }
    }

    /** The items of one old chain are moved, one by one along its links. */
    method MoveChain(ghost items: set<Item>, ghost chain: seq<Item>, first: Item?, ghost done: set<Item>,
                     newBuckets: seq<Bucket>, ghost newChains: seq<seq<Item>>)
      returns (buckets': seq<Bucket>, ghost chains': seq<seq<Item>>, ghost done': set<Item>)
      requires first == At(chain, 0) && done <= items && Distinct(chain)
      requires Spread(done, newBuckets, newChains) && Waiting(items, done, chain, 0)
      modifies this`nonidealItems, items`hhPrev, items`hhNext
      ensures done' == done + SetOf(chain) && done' <= items
      ensures Spread(done', buckets', chains') && |buckets'| == |newBuckets|
      ensures forall x :: x in items && x !in done' ==> x.hhNext == old(x.hhNext)
    {
      buckets', chains', done' := newBuckets, newChains, done;
      SetOfEnds(done, chain);
      var x := first;
      ghost var j := 0;
      while x != null
        invariant 0 <= j <= |chain| && x == At(chain, j)
        invariant done' == done + SetOf(chain[..j]) && done' <= items
        invariant Spread(done', buckets', chains') && |buckets'| == |newBuckets|
        invariant Waiting(items, done', chain, j)
        invariant forall y :: y in items && y !in done' ==> y.hhNext == old(y.hhNext)
        decreases |chain| - j
      {
        assert WaitingAt(items, done', chain, j);
        ghost var item: Item := x;
        x, buckets', chains' := MoveNext(x, items, chain, j, done', buckets', chains');
        SetOfTake(done, chain, j);
        done' := done' + {item};
        j := j + 1;
      }
    }

    /** What the outer loop of a doubling keeps: the chains before i are moved, those from i on wait. */
    ghost predicate Halfway(items: set<Item>, done: set<Item>, i: nat)
      reads this`chains, items`hhNext
    {
      && done <= items
      && (forall b :: 0 <= b < i && b < |chains| ==> SetOf(chains[b]) <= done)
      && (forall b :: i <= b < |chains| ==> Waiting(items, done, chains[b], 0))
    }

    method MoveBucket(i: nat, ghost items: set<Item>, ghost done: set<Item>, newBuckets: seq<Bucket>, ghost newChains: seq<seq<Item>>)
      returns (buckets': seq<Bucket>, ghost chains': seq<seq<Item>>, ghost done': set<Item>)
      requires i < |buckets| == |chains| && Apart(chains) && buckets[i].head == At(chains[i], 0)
      requires Spread(done, newBuckets, newChains) && Halfway(items, done, i)
      modifies this`nonidealItems, items`hhPrev, items`hhNext
      ensures Spread(done', buckets', chains') && |buckets'| == |newBuckets| && Halfway(items, done', i + 1)
    {
      buckets', chains', done' := MoveChain(items, chains[i], buckets[i].head, done, newBuckets, newChains);
      forall b | i + 1 <= b < |chains|
        ensures Waiting(items, done', chains[b], 0)
      {
        forall k | 0 <= k < |chains[b]|
          ensures WaitingAt(items, done', chains[b], k)
        {
          assert old(Waiting(items, done, chains[b], 0)) && old(WaitingAt(items, done, chains[b], k));
          assert chains[b][k] in SetOf(chains[b]);
        }
      }
    }

    /** Both loops of a doubling: every item of the old chains is moved to the new ones. */
    method MoveAll(ghost items: set<Item>) returns (newBuckets: seq<Bucket>, ghost newChains: seq<seq<Item>>)
      requires Filed(items) && idealChainMaxlen >= 1 && nonidealItems == 0
      modifies this`nonidealItems, items`hhPrev, items`hhNext
      ensures Spread(items, newBuckets, newChains) && |newBuckets| == 2 * numBuckets
    {
      newBuckets := FreshBuckets(2 * numBuckets);
      newChains := seq(2 * numBuckets, _ => []);
      ghost var done: set<Item> := {};
      EmptyTable(2 * numBuckets, idealChainMaxlen);
      assert Hashes(done) == map[] && HhPrevs(done) == map[] && HhNexts(done) == map[];
      ghost var hashes, prevs, nexts := Hashes(items), HhPrevs(items), HhNexts(items);
      ChainsApart(buckets, chains, hashes, prevs, nexts);
      AllWait(items);
      var i := 0;
      while i < numBuckets
        invariant i <= numBuckets && |newBuckets| == 2 * numBuckets
        invariant Spread(done, newBuckets, newChains) && Halfway(items, done, i)
      {
        newBuckets, newChains, done := MoveBucket(i, items, done, newBuckets, newChains);
        i := i + 1;
      }
      AllMoved(buckets, chains, hashes, prevs, nexts, done);
      assert done == items;
    }

    lemma AllWait(items: set<Item>)
      requires Filed(items)
      ensures Halfway(items, {}, 0)
    {
      forall b | 0 <= b < |chains|
        ensures Waiting(items, {}, chains[b], 0)
      {
        assert ChainOk(buckets[b], chains[b], b, |buckets|, Hashes(items), HhPrevs(items), HhNexts(items));
        forall k | 0 <= k < |chains[b]|
          ensures WaitingAt(items, {}, chains[b], k)
        {
          assert LinkAt(chains[b], k, HhPrevs(items), HhNexts(items));
        }
      }
    }

    method SetIdeal()
      requires numBuckets == Pow2(log2NumBuckets) && numItems > 0
      modifies this`idealChainMaxlen, this`nonidealItems
      ensures idealChainMaxlen == IdealLength(numItems, numBuckets, log2NumBuckets) >= 1 && nonidealItems == 0
    {
      idealChainMaxlen := Shr(numItems, log2NumBuckets + 1) + if And(numItems, numBuckets * 2 - 1) != 0 then 1 else 0;
      nonidealItems := 0;
      IdealIsCeiling(numItems, numBuckets, log2NumBuckets);
    }

    method Install(newBuckets: seq<Bucket>, ghost newChains: seq<seq<Item>>, ghost items: set<Item>)
      modifies this`buckets, this`chains, this`numBuckets, this`log2NumBuckets, this`ineffExpands, this`noexpand
      ensures buckets == newBuckets && chains == newChains
      ensures Hashes(items) == old(Hashes(items)) && HhPrevs(items) == old(HhPrevs(items)) && HhNexts(items) == old(HhNexts(items))
      ensures numBuckets == 2 * old(numBuckets) && log2NumBuckets == old(log2NumBuckets) + 1
      ensures ineffExpands == if nonidealItems > numItems / 2 then old(ineffExpands) + 1 else 0
      ensures noexpand == if ineffExpands > 1 then 1 else old(noexpand)
    {
      numBuckets := numBuckets * 2;
      log2NumBuckets := log2NumBuckets + 1;
      buckets := newBuckets;
      chains := newChains;
      assert Shr(numItems, 1) == Shr(numItems / 2, 0);
      ineffExpands := if nonidealItems > Shr(numItems, 1) then ineffExpands + 1 else 0;
      if ineffExpands > 1 {
        noexpand := 1;
      }
    }

    /** HASH_EXPAND_BUCKETS. */
    method Expand(ghost items: set<Item>)
      requires Filed(items) && numItems == |items| > 0 && |items| <= 2 * CAPACITY * numBuckets
      modifies this`buckets, this`chains, this`numBuckets, this`log2NumBuckets, this`idealChainMaxlen, this`nonidealItems
      modifies this`ineffExpands, this`noexpand, items`hhPrev, items`hhNext
      ensures Filed(items) && Bounded(buckets)
      ensures numBuckets == 2 * old(numBuckets)
      ensures IsCeiling(idealChainMaxlen, numItems, numBuckets) && idealChainMaxlen >= 1
      ensures nonidealItems == Excess(Counts(buckets), idealChainMaxlen) <= numItems
      ensures ineffExpands == if nonidealItems > numItems / 2 then old(ineffExpands) + 1 else 0
      ensures noexpand == if ineffExpands > 1 then 1 else old(noexpand)
    {
      SetIdeal();
      ghost var newChains;
      var newBuckets;
      newBuckets, newChains := MoveAll(items);
      DoublingBounds(newBuckets, numItems, numBuckets, log2NumBuckets);
      ExcessBound(Counts(newBuckets), idealChainMaxlen);
      Install(newBuckets, newChains, items);
    }

    // ---------- adding ----------

    /** The item joins its chain, in front. */
    method FileItem(x: Item, b: nat, ghost items: set<Item>)
      requires Filed(items) && x !in items && b == BucketOf(x.hashv, numBuckets)
      modifies this`buckets, this`chains, items`hhPrev, x`hhPrev, x`hhNext
      ensures Filed(items + {x})
      ensures var k := old(buckets)[b]; buckets == old(buckets)[b := Bucket(x, k.count + 1, k.expandMult)]
    {
      var k := buckets[b];
      ghost var chains';
      var buckets';
      buckets', chains' := PutInChain(x, items, b, k.expandMult, buckets, chains);
      SumUpdate(Counts(buckets), b, k.count + 1);
      PutBucket(b, buckets'[b], [x] + chains[b], items + {x});
    }

    method PutBucket(b: nat, k: Bucket, ghost chain: seq<Item>, ghost items: set<Item>)
      requires b < |buckets| == |chains| && k.expandMult == buckets[b].expandMult
      modifies this`buckets, this`chains
      ensures buckets == old(buckets)[b := k] && chains == old(chains)[b := chain]
      ensures Counts(buckets) == old(Counts(buckets))[b := k.count]
      ensures Mults(buckets) == old(Mults(buckets))
      ensures Hashes(items) == old(Hashes(items)) && HhPrevs(items) == old(HhPrevs(items)) && HhNexts(items) == old(HhNexts(items))
    {
      buckets := buckets[b := k];
      chains := chains[b := chain];
    }

    /** An addition to this bucket doubles the table. */
    predicate Doubles(b: nat)
      requires b < |buckets|
      reads this`buckets, this`noexpand
    {
      buckets[b].count + 1 >= (buckets[b].expandMult + 1) * CAPACITY && noexpand != 1
    }

    /** The bucket has reached the length at which HASH_ADD_TO_BKT doubles the table. */
    predicate Full(b: nat)
      requires b < |buckets|
      reads this`buckets, this`noexpand
    {
      buckets[b].count >= (buckets[b].expandMult + 1) * CAPACITY && noexpand != 1
    }

    method ExpandIfFull(b: nat, ghost items: set<Item>)
      requires Filed(items) && numItems == |items| > 0 && b < |buckets|
      requires if Full(b) then |items| <= 2 * CAPACITY * numBuckets else noexpand != 1 ==> Bounded(buckets)
      modifies this`buckets, this`chains, this`numBuckets, this`log2NumBuckets, this`idealChainMaxlen, this`nonidealItems
      modifies this`ineffExpands, this`noexpand, items`hhPrev, items`hhNext
      ensures Filed(items) && (noexpand != 1 ==> Bounded(buckets))
      ensures numBuckets == if old(Full(b)) then 2 * old(numBuckets) else old(numBuckets)
    {
      if buckets[b].count >= (buckets[b].expandMult + 1) * CAPACITY && noexpand != 1 {
        Expand(items);
      }
    }

    /** HASH_ADD_TO_BKT. */
    method AddToBucket(x: Item, b: nat, ghost items: set<Item>)
      requires Filed(items) && (noexpand != 1 ==> Bounded(buckets))
      requires x !in items && b == BucketOf(x.hashv, numBuckets) && numItems == |items| + 1
      modifies this`buckets, this`chains, this`numBuckets, this`log2NumBuckets, this`idealChainMaxlen, this`nonidealItems
      modifies this`ineffExpands, this`noexpand, items`hhPrev, items`hhNext, x`hhPrev, x`hhNext
      ensures Filed(items + {x}) && (noexpand != 1 ==> Bounded(buckets))
      ensures numBuckets == if old(Doubles(b)) then 2 * old(numBuckets) else old(numBuckets)
    {
      FilledUp(buckets, b, x);
      FileItem(x, b, items);
      ExpandIfFull(b, items + {x});
    }

    /** The insertion order is no business of the buckets. */
    method AddToBucketOnly(x: Item, b: nat, ghost items: set<Item>)
      requires ListOk() && Filed(items) && (noexpand != 1 ==> Bounded(buckets)) && Items() == items + {x}
      requires x !in items && b == BucketOf(x.hashv, numBuckets) && numItems == |items| + 1 == |order|
      modifies this`buckets, this`chains, this`numBuckets, this`log2NumBuckets, this`idealChainMaxlen, this`nonidealItems
      modifies this`ineffExpands, this`noexpand, items`hhPrev, items`hhNext, x`hhPrev, x`hhNext
      ensures Valid()
      ensures numBuckets == if old(Doubles(b)) then 2 * old(numBuckets) else old(numBuckets)
    {
      AddToBucket(x, b, items);
      ListKept();
    }

    /** The fresh table of HASH_MAKE_TABLE. */
    method MakeTable(x: Item)
      modifies this`tail, this`buckets, this`chains, this`numBuckets, this`log2NumBuckets, this`numItems
      modifies this`idealChainMaxlen, this`nonidealItems, this`ineffExpands, this`noexpand
      ensures Filed({}) && Bounded(buckets) && numBuckets == INITIAL_BUCKETS && numItems == 0 && tail == x
      ensures noexpand == 0 == ineffExpands && buckets == FreshBuckets(INITIAL_BUCKETS)
    {
      numItems, idealChainMaxlen, nonidealItems, ineffExpands, noexpand := 0, 0, 0, 0, 0;
      tail := x;
      numBuckets, log2NumBuckets := INITIAL_BUCKETS, INITIAL_LOG2;
      ClearBuckets(numBuckets);
      assert Pow2(INITIAL_LOG2) == INITIAL_BUCKETS;
    }

    method ClearBuckets(n: nat)
      requires n >= 1
      modifies this`buckets, this`chains
      ensures buckets == FreshBuckets(n) && |buckets| == n && Bounded(buckets)
      ensures ChainsOk(buckets, chains, Hashes({}), HhPrevs({}), HhNexts({}))
      ensures Sum(Counts(buckets)) == 0 == Sum(Mults(buckets))
    {
      buckets := FreshBuckets(n);
      chains := seq(n, _ => []);
      EmptyTable(n, 1);
      ghost var none: set<Item> := {};
      assert Hashes(none) == map[] && HhPrevs(none) == map[] && HhNexts(none) == map[];
    }

    /** The item is linked in behind the last one. */
    method LinkLast(x: Item, last: Item, ghost items: set<Item>)
      requires x !in items && last in items
      modifies this`tail, this`order, x`prev, x`next, last`next
      ensures tail == x && order == old(order) + [x]
      ensures Prevs(items + {x}) == old(Prevs(items))[x := last]
      ensures Nexts(items + {x}) == Patch(old(Nexts(items))[x := null], last, x)
    {
      x.next := null;
      last.next := x;
      x.prev := last;
      tail := x;
      order := order + [x];
    }

    /** The item joins a list that is not empty. */
    method AppendLast(x: Item, ghost items: set<Item>)
      requires ListOk() && order != [] && items == Items() && x !in items
      modifies this`tail, this`order, x`prev, x`next, items`next
      ensures ListOk() && order == old(order) + [x]
    {
      ghost var s, prevs, nexts := order, Prevs(items), Nexts(items);
      assert tail in order;
      LinkLast(x, tail, items);
      SetOfAppend(s, x);
      LinkedBack(s, x, prevs, nexts, Prevs(items + {x}), Nexts(items + {x}));
    }

    /** The item starts a list, and a table. */
    method AppendFirst(x: Item)
      requires order == []
      modifies this, x`prev, x`next
      ensures ListOk() && order == [x] && numItems == 0
      ensures Filed({}) && Bounded(buckets) && numBuckets == INITIAL_BUCKETS && noexpand == 0
      ensures buckets == FreshBuckets(INITIAL_BUCKETS)
    {
      x.next := null;
      head := x;
      x.prev := null;
      order := [x];
      MakeTable(x);
      assert LinkAt(order, 0, Prevs(Items()), Nexts(Items()));
    }

    /** The bucket of a new key. */
    function Slot(key: seq<nat>): nat
      requires |buckets| >= 1
      reads this`buckets
    {
      BucketOf(hash(key), |buckets|)
    }

    /** The list part of an addition, with a new table if there was none. */
    method Append(x: Item, ghost items: set<Item>)
      requires Valid() && x !in items && items == Items()
      modifies this, x`prev, x`next, items`next
      ensures ListOk() && order == old(order) + [x] && numItems == |items| == |old(order)|
      ensures Filed(items) && (noexpand != 1 ==> Bounded(buckets))
      ensures if old(order) == [] then numBuckets == INITIAL_BUCKETS && buckets == FreshBuckets(numBuckets)
        else numBuckets == old(numBuckets) && buckets == old(buckets) && noexpand == old(noexpand)
    {
      if head == null {
        AppendFirst(x);
      } else {
        AppendLast(x, items);
      }
      SetOfSize(old(order));
    }

    /** The item is counted and its hash value stored; no other is touched. */
    method StoreHash(x: Item, ghost items: set<Item>)
      requires x !in items
      modifies this`numItems, x`hashv
      ensures numItems == old(numItems) + 1 && x.hashv == hash(x.key)
      ensures Hashes(items) == old(Hashes(items)) && HhPrevs(items) == old(HhPrevs(items)) && HhNexts(items) == old(HhNexts(items))
      ensures Prevs(Items()) == old(Prevs(Items())) && Nexts(Items()) == old(Nexts(Items()))
    {
      numItems := numItems + 1;
      x.hashv := hash(x.key);
    }

    /** All of an addition but the bucket. */
    method Enlist(x: Item, ghost items: set<Item>)
      requires Valid() && x !in items && items == Items()
      modifies this, x`hashv, x`prev, x`next, items`next
      ensures ListOk() && order == old(order) + [x] && numItems == |items| + 1 == |order|
      ensures Filed(items) && (noexpand != 1 ==> Bounded(buckets)) && x.hashv == hash(x.key)
      ensures if old(order) == [] then numBuckets == INITIAL_BUCKETS && buckets == FreshBuckets(numBuckets)
        else numBuckets == old(numBuckets) && buckets == old(buckets) && noexpand == old(noexpand)
    {
      Append(x, items);
      StoreHash(x, items);
    }

    /** HASH_ADD_KEYPTR: a new item joins the end of the insertion order and the chain of its hash value. */
    method Add(x: Item)
      requires Valid() && x !in order
      modifies this, x`hashv, x`prev, x`next, x`hhPrev, x`hhNext, Items()`next, Items()`hhPrev, Items()`hhNext
      ensures Valid() && order == old(order) + [x]
      ensures x.hashv == hash(x.key)
      ensures old(order) == [] ==> numBuckets == 32
      ensures old(order) != [] ==>
        numBuckets == if old(|buckets| >= 1 && Doubles(Slot(x.key))) then 2 * old(numBuckets) else old(numBuckets)
    {
      ghost var items := Items();
      SetOfAppend(order, x);
      Enlist(x, items);
      AddToBucketOnly(x, BucketOf(x.hashv, numBuckets), items);
    }

    // ---------- deleting ----------

    /** The patch-up of the insertion order around a deleted item. */
    method Unlink(x: Item, ghost items: set<Item>)
      requires x in items && (x.prev != null ==> x.prev in items) && (x.next != null ==> x.next in items)
      modifies this`head, this`tail, items`prev, items`next
      ensures Prevs(items) == Patch(old(Prevs(items)), old(x.next), old(x.prev))
      ensures Nexts(items) == Patch(old(Nexts(items)), old(x.prev), old(x.next))
      ensures tail == if x == old(tail) then old(x.prev) else old(tail)
      ensures head == if old(x.prev) == null then old(x.next) else old(head)
    {
      if x == tail {
        tail := x.prev;
      }
      if x.prev != null {
        x.prev.next := x.next;
      } else {
        head := x.next;
      }
      if x.next != null {
        x.next.prev := x.prev;
      }
    }

    /** HASH_DEL_IN_BKT. */
    method UnlinkInBucket(x: Item, k: Bucket, ghost items: set<Item>) returns (k': Bucket)
      requires x in items && k.count > 0
      requires (x.hhPrev != null ==> x.hhPrev in items) && (x.hhNext != null ==> x.hhNext in items)
      modifies items`hhPrev, items`hhNext
      ensures HhPrevs(items) == Patch(old(HhPrevs(items)), old(x.hhNext), old(x.hhPrev))
      ensures HhNexts(items) == Patch(old(HhNexts(items)), old(x.hhPrev), old(x.hhNext))
      ensures k' == Bucket(if k.head == x then old(x.hhNext) else k.head, k.count - 1, k.expandMult)
    {
      var head := k.head;
      if head == x {
        head := x.hhNext;
      }
      if x.hhPrev != null {
        x.hhPrev.hhNext := x.hhNext;
      }
      if x.hhNext != null {
        x.hhNext.hhPrev := x.hhPrev;
      }
      k' := Bucket(head, k.count - 1, k.expandMult);
    }

    /** An item leaves the insertion order. */
    method RemoveFromList(x: Item, ghost i: nat, ghost items: set<Item>)
      requires ListOk() && items == Items() && i < |order| && x == order[i]
      modifies this`head, this`tail, this`order, items`prev, items`next
      ensures ListOk() && order == Drop(old(order), i) && Items() == items - {x}
    {
      ghost var prevs, nexts := Prevs(items), Nexts(items);
      Neighbours(order, i, prevs, nexts);
      Unlink(x, items);
      ListDrop(order, i, prevs, nexts, Prevs(items), Nexts(items), head, tail);
      DropOrder(x, i, items);
    }

    ghost method DropOrder(x: Item, i: nat, items: set<Item>)
      requires i < |order|
      modifies this`order
      ensures order == Drop(old(order), i)
      ensures Prevs(items - {x}) == old(Prevs(items)) - {x} && Nexts(items - {x}) == old(Nexts(items)) - {x}
    {
      order := Drop(order, i);
    }

    /** The new bucket and chain of a deleted item. */
    method TakeFromBucket(x: Item, b: nat, ghost items: set<Item>) returns (k: Bucket, ghost chain: seq<Item>)
      requires ChainsOk(buckets, chains, Hashes(items), HhPrevs(items), HhNexts(items))
      requires x in items && b == BucketOf(x.hashv, |buckets|)
      modifies items`hhPrev, items`hhNext
      ensures buckets[b].count > 0 && k.count == buckets[b].count - 1 && k.expandMult == buckets[b].expandMult
      ensures ChainsOk(buckets[b := k], chains[b := chain], Hashes(items - {x}), HhPrevs(items - {x}), HhNexts(items - {x}))
    {
      ghost var hashes, prevs, nexts := Hashes(items), HhPrevs(items), HhNexts(items);
      ghost var c, i := WhereIs(buckets, chains, hashes, prevs, nexts, x);
      k := UnlinkInBucket(x, buckets[b], items);
      chain := TakenOut(x, b, k, hashes, prevs, nexts, items);
    }

    lemma TakenOut(x: Item, b: nat, k: Bucket, hashes: map<Item, nat>, prevs: Links, nexts: Links, items: set<Item>)
      returns (chain: seq<Item>)
      requires ChainsOk(buckets, chains, hashes, prevs, nexts) && hashes == Hashes(items) && x in items
      requires x in prevs && x in nexts && b == BucketOf(x.hashv, |buckets|)
      requires HhPrevs(items) == Patch(prevs, nexts[x], prevs[x]) && HhNexts(items) == Patch(nexts, prevs[x], nexts[x])
      requires buckets[b].count > 0
      requires k == Bucket(if buckets[b].head == x then nexts[x] else buckets[b].head, buckets[b].count - 1, buckets[b].expandMult)
      ensures ChainsOk(buckets[b := k], chains[b := chain], Hashes(items - {x}), HhPrevs(items - {x}), HhNexts(items - {x}))
    {
      chain := ChainsRemove(buckets, chains, hashes, prevs, nexts, x, k, HhPrevs(items), HhNexts(items));
      LinksWithout(items, x);
    }

    /** An item leaves its chain. */
    method RemoveFromBucket(x: Item, b: nat, ghost items: set<Item>)
      requires Filed(items) && x in items && b == BucketOf(x.hashv, numBuckets)
      modifies this`buckets, this`chains, items`hhPrev, items`hhNext
      ensures Filed(items - {x})
      ensures old(Bounded(buckets)) ==> Bounded(buckets)
    {
      ghost var chain;
      var k;
      k, chain := TakeFromBucket(x, b, items);
      SumUpdate(Counts(buckets), b, k.count);
      PutBucket(b, k, chain, items - {x});
    }

    /** The buckets are no business of the insertion order. */
    method RemoveFromListOnly(x: Item, ghost i: nat, ghost items: set<Item>)
      requires ListOk() && Filed(items) && items == Items() && i < |order| && x == order[i]
      modifies this`head, this`tail, this`order, items`prev, items`next
      ensures ListOk() && order == Drop(old(order), i) && Items() == items - {x} && Filed(items)
    {
      RemoveFromList(x, i, items);
      FiledKept(items);
    }

    /** And the other way about; the item leaves the count as well. */
    method RemoveFromBucketOnly(x: Item, b: nat, ghost items: set<Item>)
      requires ListOk() && Filed(items) && Items() == items - {x} && (noexpand != 1 ==> Bounded(buckets))
      requires x in items && b == BucketOf(x.hashv, numBuckets) && numItems == |order| + 1
      modifies this`buckets, this`chains, this`numItems, items`hhPrev, items`hhNext
      ensures Valid()
    {
      RemoveFromBucket(x, b, items);
      numItems := numItems - 1;
      ListKept();
    }

    /** The table is freed with its last item. */
    method FreeTable()
      modifies this
      ensures Valid() && order == []
    {
      head, tail, buckets, numItems := null, null, [], 0;
      order, chains := [], [];
    }

    /** HASH_DELETE of one of several items. */
    method DeleteAt(x: Item, ghost i: nat, ghost items: set<Item>)
      requires Valid() && items == Items() && i < |order| && x == order[i] && |order| > 1
      modifies this, items`prev, items`next, items`hhPrev, items`hhNext
      ensures Valid() && order == Drop(old(order), i) && numBuckets == old(numBuckets)
    {
      SetOfSize(order);
      RemoveFromListOnly(x, i, items);
      RemoveFromBucketOnly(x, BucketOf(x.hashv, numBuckets), items);
    }

    lemma OnlyItem(i: nat)
      requires ListOk() && i < |order|
      ensures order[i].prev == null && order[i].next == null <==> |order| == 1
    {
      assert LinkAt(order, i, Prevs(Items()), Nexts(Items()));
    }

    /** HASH_DELETE: the item leaves the insertion order and the chain of its stored hash value, whatever its key is now. */
    method Delete(x: Item)
      requires Valid() && x in order
      modifies this, Items()`prev, Items()`next, Items()`hhPrev, Items()`hhNext
      ensures Valid() && order == Without(old(order), x)
      ensures order != [] ==> numBuckets == old(numBuckets)
    {
      ghost var i :| 0 <= i < |order| && order[i] == x;
      WithoutIsDrop(order, i);
      OnlyItem(i);
      if x.prev == null && x.next == null {
        FreeTable();
      } else {
        DeleteAt(x, i, Items());
      }
    }

    // ---------- looking up ----------

    /** HASH_FIND_IN_BKT: the first item of a chain with the key. */
    static method Scan(first: Item?, key: seq<nat>, ghost chain: seq<Item>) returns (out: Item?)
      requires first == At(chain, 0) && forall i :: 0 <= i < |chain| ==> chain[i].hhNext == At(chain, i + 1)
      ensures out != null ==> out in chain && out.key == key
      ensures out == null ==> forall x :: x in chain ==> x.key != key
    {
      out := first;
      ghost var j := 0;
      while out != null && out.key != key
        invariant 0 <= j <= |chain| && out == At(chain, j)
        invariant forall x :: x in chain[..j] ==> x.key != key
        decreases |chain| - j
      {
        assert chain[..j + 1] == chain[..j] + [chain[j]];
        out := out.hhNext;
        j := j + 1;
      }
      assert out == null ==> chain[..j] == chain;
    }

    /** The chain of a bucket, as a scan sees it. */
    lemma ChainToScan(b: nat)
      requires Filed(Items()) && b < |buckets|
      ensures |chains| == |buckets| && buckets[b].head == At(chains[b], 0)
      ensures forall i :: 0 <= i < |chains[b]| ==> chains[b][i].hhNext == At(chains[b], i + 1)
      ensures forall x :: x in chains[b] ==> x in order && BucketOf(x.hashv, |buckets|) == b
      ensures forall x :: x in order && BucketOf(x.hashv, |buckets|) == b ==> x in chains[b]
    {
      var items := Items();
      assert ChainOk(buckets[b], chains[b], b, |buckets|, Hashes(items), HhPrevs(items), HhNexts(items));
      forall i | 0 <= i < |chains[b]| ensures chains[b][i].hhNext == At(chains[b], i + 1) {
        assert LinkAt(chains[b], i, HhPrevs(items), HhNexts(items));
      }
      forall x | x in chains[b] ensures x in order && BucketOf(x.hashv, |buckets|) == b {
        assert Hashed(x, b, |buckets|, Hashes(items));
      }
      forall x | x in order && BucketOf(x.hashv, |buckets|) == b ensures x in chains[b] {
        assert x in Hashes(items);
      }
    }

    /** HASH_FIND: an item with the key in the bucket of the key's hash value, or null if there is none. */
    method Find(key: seq<nat>) returns (out: Item?)
      requires Valid()
      ensures out != null ==>
        out in order && out.key == key && |buckets| >= 1 && BucketOf(out.hashv, |buckets|) == Slot(key)
      ensures out == null ==> forall x :: x in order && x.key == key ==> |buckets| >= 1 && BucketOf(x.hashv, |buckets|) != Slot(key)
    {
      out := null;
      if head != null {
        var b := BucketOf(hash(key), numBuckets);
        ChainToScan(b);
        out := Scan(buckets[b].head, key, chains[b]);
      }
    }

    /** The user of the table changes a key in place. */
    method Rekey(x: Item, key: seq<nat>)
      requires Valid()
      modifies x`key
      ensures Valid() && x.key == key
    {
      x.key := key;
    }
  }

  /** No key has changed since its item was added. */
  ghost predicate KeysAreHashed(t: Table)
    reads t`order, t.order
  {
    forall x :: x in t.order ==> x.hashv == t.hash(x.key)
  }

  /** With unchanged keys a lookup finds a key exactly if a live item has it. */
  method Lookup(t: Table, key: seq<nat>) returns (out: Item?)
    requires t.Valid() && KeysAreHashed(t)
    ensures out == null <==> forall x :: x in t.order ==> x.key != key
    ensures out != null ==> out in t.order && out.key == key
  {
    out := t.Find(key);
  }

  /** While doubling is not inhibited the chains are bounded, and the items are at most 20 times the buckets. */
  lemma ChainsStayShort(t: Table)
    requires t.Valid() && t.order != [] && t.noexpand != 1
    ensures t.numItems <= 20 * t.numBuckets
    ensures |t.chains| == |t.buckets| == t.numBuckets && Sum(Mults(t.buckets)) <= t.numBuckets
    ensures forall b :: 0 <= b < t.numBuckets ==> |t.chains[b]| <= 10 * (t.buckets[b].expandMult + 1)
  {
    SetOfSize(t.order);
    LimitSum(t.buckets);
    forall b | 0 <= b < t.numBuckets
      ensures |t.chains[b]| <= 10 * (t.buckets[b].expandMult + 1)
    {
      var items := t.Items();
      assert ChainOk(t.buckets[b], t.chains[b], b, t.numBuckets, Hashes(items), HhPrevs(items), HhNexts(items));
    }
  }

  // ---------- whole runs ----------

  /** Rekeyed: the user of the table changes an item's key in place, whether the item is in the table or not. */
  datatype Event = Added(item: Item) | Deleted(item: Item) | Rekeyed(item: Item, key: seq<nat>)

  /** The live items after a run, in insertion order. */
  function Live(h: seq<Event>): seq<Item> {
    if h == [] then [] else
      var before := Live(h[..|h| - 1]);
      match h[|h| - 1]
      case Added(x) => before + [x]
      case Deleted(x) => Without(before, x)
      case Rekeyed(_, _) => before
  }

  /** Only items that are not in the table are added, and only items that are in it deleted. */
  predicate Legal(h: seq<Event>) {
    h != [] ==>
      && Legal(h[..|h| - 1])
      && (h[|h| - 1].Added? ==> h[|h| - 1].item !in Live(h[..|h| - 1]))
      && (h[|h| - 1].Deleted? ==> h[|h| - 1].item in Live(h[..|h| - 1]))
  }

  /** The time at which an item was last added, or -1 if it is not live. */
  function LastAdd(h: seq<Event>, x: Item): (t: int)
    ensures -1 <= t < |h|
  {
    if h == [] then -1
    else if h[|h| - 1].item == x && !h[|h| - 1].Rekeyed? then (if h[|h| - 1].Added? then |h| - 1 else -1)
    else LastAdd(h[..|h| - 1], x)
  }

  predicate ByTime(h: seq<Event>, s: seq<Item>) {
    forall i, j :: 0 <= i < j < |s| ==> LastAdd(h, s[i]) < LastAdd(h, s[j])
  }

  lemma ByTimeLater(h: seq<Event>, e: Event, s: seq<Item>)
    requires ByTime(h, s) && (e.item !in s || e.Rekeyed?)
    ensures ByTime(h + [e], s) && (e.Added? ==> ByTime(h + [e], s + [e.item]))
  {
    assert (h + [e])[..|h|] == h;
    forall x | x in s
      ensures LastAdd(h + [e], x) == LastAdd(h, x)
    {
    }
  }

  lemma ByTimeDrop(h: seq<Event>, s: seq<Item>, k: nat)
    requires ByTime(h, s) && k < |s|
    ensures ByTime(h, Drop(s, k))
  {
    var t := Drop(s, k);
    forall i, j | 0 <= i < j < |t|
      ensures LastAdd(h, t[i]) < LastAdd(h, t[j])
    {
      assert t[i] == s[if i < k then i else i + 1] && t[j] == s[if j < k then j else j + 1];
    }
  }

  /** These are the live items, as far as x shows, each once and by time. */
  predicate LiveFor(h: seq<Event>, live: seq<Item>, x: Item) {
    (x in live <==> LastAdd(h, x) >= 0) && ByTime(h, live) && Distinct(live)
  }

  lemma AfterAdd(h: seq<Event>, e: Event, live: seq<Item>, x: Item)
    requires LiveFor(h, live, x) && e.Added? && e.item !in live
    ensures LiveFor(h + [e], live + [e.item], x)
  {
    assert (h + [e])[..|h|] == h;
    ByTimeLater(h, e, live);
  }

  lemma AfterDelete(h: seq<Event>, e: Event, live: seq<Item>, x: Item)
    requires LiveFor(h, live, x) && e.Deleted? && e.item in live
    ensures LiveFor(h + [e], Without(live, e.item), x)
  {
    assert (h + [e])[..|h|] == h;
    var k :| 0 <= k < |live| && live[k] == e.item;
    WithoutIsDrop(live, k);
    SetOfDrop(live, k);
    assert x in Drop(live, k) <==> x in SetOf(Drop(live, k));
    assert e.item !in SetOf(Drop(live, k));
    ByTimeDrop(h, live, k);
    ByTimeLater(h, e, Drop(live, k));
  }

  /** The list holds exactly the live items, each once, ordered by the time of their last addition. */
  lemma {:induction false} LiveIsInsertionOrder(h: seq<Event>, x: Item)
    requires Legal(h)
    ensures x in Live(h) <==> LastAdd(h, x) >= 0
    ensures ByTime(h, Live(h)) && Distinct(Live(h))
  {
    if h != [] {
      var before, e := h[..|h| - 1], h[|h| - 1];
      assert h == before + [e];
      LiveIsInsertionOrder(before, x);
      if e.Added? {
        AfterAdd(before, e, Live(before), x);
      } else if e.Rekeyed? {
        ByTimeLater(before, e, Live(before));
      } else {
        AfterDelete(before, e, Live(before), x);
      }
    }
  }

  lemma {:induction false} LegalPrefix(h: seq<Event>, n: nat)
    requires Legal(h) && n <= |h|
    ensures Legal(h[..n])
  {
    if n < |h| {
      LegalPrefix(h[..|h| - 1], n);
      assert h[..|h| - 1][..n] == h[..n];
    } else {
      assert h[..n] == h;
    }
  }

  /** The list after one event. */
  function AfterEvent(order: seq<Item>, e: Event): seq<Item> {
    match e
    case Added(x) => order + [x]
    case Deleted(x) => Without(order, x)
    case Rekeyed(_, _) => order
  }

  predicate Fits(order: seq<Item>, e: Event) {
    (e.Added? ==> e.item !in order) && (e.Deleted? ==> e.item in order)
  }

  lemma LiveNext(h: seq<Event>, i: nat)
    requires Legal(h) && i < |h|
    ensures Fits(Live(h[..i]), h[i]) && Live(h[..i + 1]) == AfterEvent(Live(h[..i]), h[i])
  {
    LegalPrefix(h, i + 1);
    assert h[..i + 1][..i] == h[..i];
  }

  /** The key of x after a run that it began with key k. */
  function KeyAfter(h: seq<Event>, x: Item, k: seq<nat>): seq<nat> {
    if h == [] then k
    else if h[|h| - 1].Rekeyed? && h[|h| - 1].item == x then h[|h| - 1].key
    else KeyAfter(h[..|h| - 1], x, k)
  }

  /** The key that x had when it was last added. */
  function HashedKey(h: seq<Event>, x: Item, k: seq<nat>): seq<nat> {
    if h == [] then k
    else if h[|h| - 1].Added? && h[|h| - 1].item == x then KeyAfter(h[..|h| - 1], x, k)
    else HashedKey(h[..|h| - 1], x, k)
  }

  ghost function Keys(items: set<Item>): map<Item, seq<nat>>
    reads items`key
  {
    map x | x in items :: x.key
  }

  twostate lemma KeysKept(all: set<Item>)
    requires forall x :: x in all ==> x.key == old(x.key)
    ensures Keys(all) == old(Keys(all))
  {
  }

  twostate lemma OneHashed(all: set<Item>, new x: Item, new hashv: nat)
    requires x in all && x.hashv == hashv
    requires forall y :: y in all && y != x ==> y.hashv == old(y.hashv)
    ensures Hashes(all) == old(Hashes(all))[x := hashv]
  {
  }

  method AddOne(t: Table, x: Item, ghost all: set<Item>)
    requires t.Valid() && x !in t.order && x in all && t.Items() <= all
    modifies t, x`hashv, all`prev, all`next, all`hhPrev, all`hhNext
    ensures t.Valid() && t.order == old(t.order) + [x] && x.hashv == t.hash(x.key)
  {
    t.Add(x);
  }

  /** What the addition leaves alone. */
  method AddKeyed(t: Table, x: Item, ghost all: set<Item>)
    requires t.Valid() && x !in t.order && x in all && t.Items() <= all
    modifies t, x`hashv, all`prev, all`next, all`hhPrev, all`hhNext
    ensures t.Valid() && t.order == old(t.order) + [x]
    ensures Keys(all) == old(Keys(all)) && Hashes(all) == old(Hashes(all))[x := t.hash(old(x.key))]
  {
    AddOne(t, x, all);
    KeysKept(all);
    OneHashed(all, x, t.hash(x.key));
  }

  method DeleteOne(t: Table, x: Item, ghost all: set<Item>)
    requires t.Valid() && x in t.order && t.Items() <= all
    modifies t, all`prev, all`next, all`hhPrev, all`hhNext
    ensures t.Valid() && t.order == Without(old(t.order), x)
    ensures Keys(all) == old(Keys(all)) && Hashes(all) == old(Hashes(all))
  {
    t.Delete(x);
  }

  method RekeyOne(t: Table, x: Item, key: seq<nat>, ghost all: set<Item>)
    requires t.Valid() && x in all
    modifies x`key
    ensures t.Valid() && t.order == old(t.order)
    ensures Keys(all) == old(Keys(all))[x := key] && Hashes(all) == old(Hashes(all))
  {
    t.Rekey(x, key);
  }

  lemma AfterEventIn(order: seq<Item>, e: Event, all: set<Item>)
    requires SetOf(order) <= all && e.item in all
    ensures SetOf(AfterEvent(order, e)) <= all
  {
    WithoutIn(order, e.item);
  }

  /** One event of a run. */
  method Perform(t: Table, e: Event, ghost all: set<Item>)
    requires t.Valid() && Fits(t.order, e) && e.item in all && t.Items() <= all
    modifies t, all
    ensures t.Valid() && t.order == AfterEvent(old(t.order), e) && t.Items() <= all
    ensures Keys(all) == if e.Rekeyed? then old(Keys(all))[e.item := e.key] else old(Keys(all))
    ensures Hashes(all) == if e.Added? then old(Hashes(all))[e.item := t.hash(old(e.item.key))] else old(Hashes(all))
  {
    AfterEventIn(t.order, e, all);
    if e.Added? {
      AddKeyed(t, e.item, all);
    } else if e.Deleted? {
      DeleteOne(t, e.item, all);
    } else {
      RekeyOne(t, e.item, e.key, all);
    }
  }

  /** Every item has its last key, and the live ones are stored under the hash of the key they were added with. */
  predicate KeysAre(h: seq<Event>, start: map<Item, seq<nat>>, keys: map<Item, seq<nat>>, hashes: map<Item, nat>,
                    live: seq<Item>, hash: seq<nat> -> nat)
  {
    && keys.Keys == start.Keys
    && (forall x :: x in start ==> keys[x] == KeyAfter(h, x, start[x]))
    && (forall x :: x in live ==> x in start && x in hashes && hashes[x] == hash(HashedKey(h, x, start[x])))
  }

  lemma KeyNext(h: seq<Event>, e: Event, x: Item, k: seq<nat>)
    ensures KeyAfter(h + [e], x, k) == if e.Rekeyed? && e.item == x then e.key else KeyAfter(h, x, k)
    ensures HashedKey(h + [e], x, k) == if e.Added? && e.item == x then KeyAfter(h, x, k) else HashedKey(h, x, k)
  {
    assert (h + [e])[..|h|] == h;
  }

  /** Whoever is live after an event was live before or has just been added. */
  lemma LiveBefore(live: seq<Item>, e: Event, x: Item)
    requires x in AfterEvent(live, e)
    ensures x in live || (e.Added? && x == e.item)
  {
    WithoutIn(live, e.item);
  }

  lemma KeysNext(h: seq<Event>, e: Event, start: map<Item, seq<nat>>, keys: map<Item, seq<nat>>, hashes: map<Item, nat>,
                 live: seq<Item>, hash: seq<nat> -> nat)
    requires KeysAre(h, start, keys, hashes, live, hash) && e.item in start
    ensures KeysAre(h + [e], start, if e.Rekeyed? then keys[e.item := e.key] else keys,
                    if e.Added? then hashes[e.item := hash(keys[e.item])] else hashes, AfterEvent(live, e), hash)
  {
    var keys' := if e.Rekeyed? then keys[e.item := e.key] else keys;
    var hashes' := if e.Added? then hashes[e.item := hash(keys[e.item])] else hashes;
    assert keys'.Keys == start.Keys;
    forall x | x in start ensures keys'[x] == KeyAfter(h + [e], x, start[x]) {
      KeyNext(h, e, x, start[x]);
    }
    forall x | x in AfterEvent(live, e)
      ensures x in start && x in hashes' && hashes'[x] == hash(HashedKey(h + [e], x, start[x]))
    {
      LiveBefore(live, e, x);
      KeyNext(h, e, x, start[x]);
    }
  }

  /** What the run keeps: list and stored keys are those of its first i events. */
  ghost predicate Played(t: Table, h: seq<Event>, i: nat, all: set<Item>, start: map<Item, seq<nat>>)
    requires i <= |h|
    reads t, all
  {
    && t.Items() <= all && t.order == Live(h[..i])
    && KeysAre(h[..i], start, Keys(all), Hashes(all), t.order, t.hash)
  }

  method PlayNext(t: Table, h: seq<Event>, i: nat, ghost all: set<Item>, ghost start: map<Item, seq<nat>>)
    requires t.Valid() && Legal(h) && i < |h| && h[i].item in all && start.Keys == all && Played(t, h, i, all, start)
    modifies t, all
    ensures t.Valid() && Played(t, h, i + 1, all, start)
  {
    LiveNext(h, i);
    KeysNext(h[..i], h[i], start, Keys(all), Hashes(all), t.order, t.hash);
    assert h[..i + 1] == h[..i] + [h[i]];
    Perform(t, h[i], all);
  }

  /** Every legal run, doublings and changes of keys included, keeps the invariant, leaves the live items in insertion
      order, and stores each of them under the key that it was added with, whatever its key is now. */
  method Replay(t: Table, h: seq<Event>, ghost all: set<Item>)
    requires t.Valid() && t.order == [] && Legal(h) && forall e :: e in h ==> e.item in all
    modifies t, all
    ensures t.Valid() && t.order == Live(h)
    ensures KeysAre(h, old(Keys(all)), Keys(all), Hashes(all), t.order, t.hash)
  {
    var i := 0;
    ghost var start := Keys(all);
    while i < |h|
      invariant i <= |h| && t.Valid() && Played(t, h, i, all, start)
    {
      PlayNext(t, h, i, all, start);
      i := i + 1;
    }
    assert h[..i] == h;
  }
}
