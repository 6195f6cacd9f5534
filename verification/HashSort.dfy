/** HASH_SRT (broker/uthash.h:736-821): bottom-up merge sort of the insertion-order list, relinking the items in place. */
module HashSort {
  import opened HashTable
  import opened Seqs

  /** What the comparison says of two items; the sort changes no content that it reads. */
  type Compare = (Item, Item) -> int

  // ---------- what one run computes ----------

  /** Two runs merged; on ties the first run goes first. */
  function Merge(cmp: Compare, a: seq<Item>, b: seq<Item>): seq<Item> {
    if a == [] then b
    else if b == [] then a
    else if cmp(a[0], b[0]) <= 0 then [a[0]] + Merge(cmp, a[1..], b)
    else [b[0]] + Merge(cmp, a, b[1..])
  }

  function Min(a: nat, b: nat): nat {
    if a <= b then a else b
  }

  /** One pass: runs of a width are merged pairwise. */
  function Pass(cmp: Compare, s: seq<Item>, width: nat): seq<Item>
    requires width >= 1
    decreases |s|
  {
    if s == [] then [] else
      var m := Min(width, |s|);
      var e := Min(2 * width, |s|);
      Merge(cmp, s[..m], s[m..e]) + Pass(cmp, s[e..], width)
  }

  function SortFrom(cmp: Compare, s: seq<Item>, width: nat): seq<Item>
    requires width >= 1
    decreases |s| - width
  {
    PassSize(cmp, s, width);
    if |s| <= 2 * width then Pass(cmp, s, width) else SortFrom(cmp, Pass(cmp, s, width), 2 * width)
  }

  lemma {:induction false} MergeSize(cmp: Compare, a: seq<Item>, b: seq<Item>)
    ensures |Merge(cmp, a, b)| == |a| + |b|
    ensures multiset(Merge(cmp, a, b)) == multiset(a) + multiset(b)
  {
    if a != [] && b != [] {
      if cmp(a[0], b[0]) <= 0 {
        MergeSize(cmp, a[1..], b);
        Tail(a);
        Front(a[0], Merge(cmp, a[1..], b));
      } else {
        MergeSize(cmp, a, b[1..]);
        Tail(b);
        Front(b[0], Merge(cmp, a, b[1..]));
      }
    }
  }

  lemma Tail(s: seq<Item>)
    requires s != []
    ensures multiset(s) == multiset{s[0]} + multiset(s[1..])
  {
    assert s == [s[0]] + s[1..];
  }

  lemma Front(x: Item, s: seq<Item>)
    ensures multiset([x] + s) == multiset{x} + multiset(s)
  {
  }

  lemma Cut(s: seq<Item>, m: nat)
    requires m <= |s|
    ensures multiset(s) == multiset(s[..m]) + multiset(s[m..])
  {
    assert s == s[..m] + s[m..];
  }

  lemma {:induction false} PassSize(cmp: Compare, s: seq<Item>, width: nat)
    requires width >= 1
    ensures |Pass(cmp, s, width)| == |s| && multiset(Pass(cmp, s, width)) == multiset(s)
    decreases |s|
  {
    if s != [] {
      var m := Min(width, |s|);
      var e := Min(2 * width, |s|);
      MergeSize(cmp, s[..m], s[m..e]);
      PassSize(cmp, s[e..], width);
      Cut(s, e);
      Cut(s[..e], m);
      assert s[..e][..m] == s[..m] && s[..e][m..] == s[m..e];
    }
  }

  // ---------- why the result is the stable sort ----------

  /** A total preorder on these items. */
  predicate Preorder(cmp: Compare, items: set<Item>) {
    && (forall x, y :: x in items && y in items ==> cmp(x, y) <= 0 || cmp(y, x) <= 0)
    && (forall x, y, z :: x in items && y in items && z in items && cmp(x, y) <= 0 && cmp(y, z) <= 0 ==> cmp(x, z) <= 0)
  }

  function Index(s: seq<Item>, x: Item): nat {
    if s == [] || s[0] == x then 0 else 1 + Index(s[1..], x)
  }

  /** x has to come before y: it compares lower, or equal and came first. */
  predicate Before(cmp: Compare, orig: seq<Item>, x: Item, y: Item) {
    cmp(x, y) <= 0 && (cmp(y, x) <= 0 ==> Index(orig, x) < Index(orig, y))
  }

  predicate Ordered(cmp: Compare, orig: seq<Item>, s: seq<Item>) {
    forall i, j :: 0 <= i < j < |s| ==> Before(cmp, orig, s[i], s[j])
  }

  predicate Earlier(orig: seq<Item>, a: seq<Item>, b: seq<Item>) {
    forall x, y :: x in a && y in b ==> Index(orig, x) < Index(orig, y)
  }

  /** Runs of a width, each in order, each of items that came before those of the next. */
  predicate Runs(cmp: Compare, orig: seq<Item>, s: seq<Item>, width: nat)
    requires width >= 1
    decreases |s|
  {
    s != [] ==>
      var m := Min(width, |s|);
      Ordered(cmp, orig, s[..m]) && Earlier(orig, s[..m], s[m..]) && Runs(cmp, orig, s[m..], width)
  }

  lemma BeforeTransitive(cmp: Compare, orig: seq<Item>, items: set<Item>, x: Item, y: Item, z: Item)
    requires Preorder(cmp, items) && x in items && y in items && z in items
    requires Before(cmp, orig, x, y) && Before(cmp, orig, y, z)
    ensures Before(cmp, orig, x, z)
  {
  }

  /** What comes before the first of an ordered run comes before all of it. */
  lemma BeforeRun(cmp: Compare, orig: seq<Item>, items: set<Item>, x: Item, s: seq<Item>)
    requires Preorder(cmp, items) && x in items && (forall y :: y in s ==> y in items)
    requires Ordered(cmp, orig, s) && s != [] && Before(cmp, orig, x, s[0])
    ensures forall y :: y in s ==> Before(cmp, orig, x, y)
  {
    forall y | y in s
      ensures Before(cmp, orig, x, y)
    {
      var i :| 0 <= i < |s| && s[i] == y;
      if i > 0 {
        BeforeTransitive(cmp, orig, items, x, s[0], y);
      }
    }
  }

  lemma OrderedFront(cmp: Compare, orig: seq<Item>, x: Item, a: seq<Item>, b: seq<Item>)
    requires Ordered(cmp, orig, Merge(cmp, a, b))
    requires forall y :: y in a || y in b ==> Before(cmp, orig, x, y)
    ensures Ordered(cmp, orig, [x] + Merge(cmp, a, b))
  {
    MergeSize(cmp, a, b);
    var m := Merge(cmp, a, b);
    forall y | y in m
      ensures Before(cmp, orig, x, y)
    {
      assert y in multiset(m);
      assert y in multiset(a) || y in multiset(b);
    }
  }

  /** Two ordered runs, the first of earlier items, merge into an ordered one. */
  lemma {:induction false} MergeOrdered(cmp: Compare, orig: seq<Item>, items: set<Item>, a: seq<Item>, b: seq<Item>)
    requires Preorder(cmp, items) && (forall x :: x in a ==> x in items) && (forall x :: x in b ==> x in items)
    requires Ordered(cmp, orig, a) && Ordered(cmp, orig, b) && Earlier(orig, a, b)
    ensures Ordered(cmp, orig, Merge(cmp, a, b))
  {
    if a != [] && b != [] {
      if cmp(a[0], b[0]) <= 0 {
        MergeOrdered(cmp, orig, items, a[1..], b);
        BeforeRun(cmp, orig, items, a[0], b);
        OrderedFront(cmp, orig, a[0], a[1..], b);
      } else {
        assert cmp(b[0], a[0]) <= 0;
        MergeOrdered(cmp, orig, items, a, b[1..]);
        BeforeRun(cmp, orig, items, b[0], a);
        OrderedFront(cmp, orig, b[0], a, b[1..]);
      }
    }
  }

  lemma SameItems(a: seq<Item>, b: seq<Item>)
    requires multiset(a) == multiset(b)
    ensures forall x :: x in a <==> x in b
  {
    forall x | x in a || x in b
      ensures x in a && x in b
    {
      assert x in multiset(a) || x in multiset(b);
    }
  }

  lemma EarlierSame(orig: seq<Item>, a: seq<Item>, b: seq<Item>, a': seq<Item>, b': seq<Item>)
    requires Earlier(orig, a, b) && multiset(a) == multiset(a') && multiset(b) == multiset(b')
    ensures Earlier(orig, a', b')
  {
    SameItems(a, a');
    SameItems(b, b');
  }

  /** The first two runs of a pass, and what is behind them. */
  lemma TwoRuns(cmp: Compare, orig: seq<Item>, s: seq<Item>, width: nat)
    requires width >= 1 && s != [] && Runs(cmp, orig, s, width)
    ensures var m := Min(width, |s|); var e := Min(2 * width, |s|);
      && Ordered(cmp, orig, s[..m]) && Ordered(cmp, orig, s[m..e]) && Earlier(orig, s[..m], s[m..e])
      && Earlier(orig, s[..e], s[e..]) && Runs(cmp, orig, s[e..], width)
  {
    var m := Min(width, |s|);
    var e := Min(2 * width, |s|);
    var t := s[m..];
    if t != [] {
      assert Min(width, |t|) == e - m;
      assert t[..e - m] == s[m..e] && t[e - m..] == s[e..];
      forall x, y | x in s[..e] && y in s[e..]
        ensures Index(orig, x) < Index(orig, y)
      {
        assert y in t;
        assert x in s[..m] || x in s[m..e];
      }
    }
  }

  /** A pass doubles the width of the runs. */
  lemma {:induction false} PassRuns(cmp: Compare, orig: seq<Item>, items: set<Item>, s: seq<Item>, width: nat)
    requires width >= 1 && Preorder(cmp, items) && (forall x :: x in s ==> x in items)
    requires Runs(cmp, orig, s, width)
    ensures Runs(cmp, orig, Pass(cmp, s, width), 2 * width)
    decreases |s|
  {
    if s != [] {
      var m := Min(width, |s|);
      var e := Min(2 * width, |s|);
      TwoRuns(cmp, orig, s, width);
      PassRuns(cmp, orig, items, s[e..], width);
      MergeOrdered(cmp, orig, items, s[..m], s[m..e]);
      MergeSize(cmp, s[..m], s[m..e]);
      PassSize(cmp, s[e..], width);
      Cut(s[..e], m);
      assert s[..e][..m] == s[..m] && s[..e][m..] == s[m..e];
      var merged, rest := Merge(cmp, s[..m], s[m..e]), Pass(cmp, s[e..], width);
      EarlierSame(orig, s[..e], s[e..], merged, rest);
      RunsFront(cmp, orig, merged, rest, 2 * width);
    }
  }

  lemma RunsFront(cmp: Compare, orig: seq<Item>, a: seq<Item>, b: seq<Item>, width: nat)
    requires width >= 1 && a != [] && (if b == [] then |a| <= width else |a| == width)
    requires Ordered(cmp, orig, a) && Earlier(orig, a, b) && Runs(cmp, orig, b, width)
    ensures Runs(cmp, orig, a + b, width)
  {
    assert Min(width, |a + b|) == |a|;
    assert (a + b)[..|a|] == a && (a + b)[|a|..] == b;
  }

  lemma {:induction false} IndexAt(s: seq<Item>, i: nat)
    requires Distinct(s) && i < |s|
    ensures Index(s, s[i]) == i
  {
    if i > 0 {
      assert s[1..][i - 1] == s[i];
      IndexAt(s[1..], i - 1);
    }
  }

  lemma {:induction false} SingleRuns(cmp: Compare, orig: seq<Item>, k: nat)
    requires Distinct(orig) && k <= |orig|
    ensures Runs(cmp, orig, orig[k..], 1)
    decreases |orig| - k
  {
    if k < |orig| {
      var s := orig[k..];
      SingleRuns(cmp, orig, k + 1);
      assert s[1..] == orig[k + 1..];
      forall x, y | x in s[..1] && y in s[1..]
        ensures Index(orig, x) < Index(orig, y)
      {
        var j :| 0 <= j < |s[1..]| && s[1..][j] == y;
        assert y == orig[k + 1 + j];
        IndexAt(orig, k);
        IndexAt(orig, k + 1 + j);
      }
    }
  }

  lemma OneRun(cmp: Compare, orig: seq<Item>, s: seq<Item>, width: nat)
    requires width >= 1 && |s| <= width && Runs(cmp, orig, s, width)
    ensures Ordered(cmp, orig, s)
  {
    assert s[..|s|] == s;
  }

  lemma {:induction false} SortFromOrdered(cmp: Compare, orig: seq<Item>, items: set<Item>, s: seq<Item>, width: nat)
    requires width >= 1 && Preorder(cmp, items) && (forall x :: x in s ==> x in items)
    requires Runs(cmp, orig, s, width)
    ensures Ordered(cmp, orig, SortFrom(cmp, s, width))
    decreases |s| - width
  {
    var r := Pass(cmp, s, width);
    PassSize(cmp, s, width);
    PassRuns(cmp, orig, items, s, width);
    if |s| <= 2 * width {
      OneRun(cmp, orig, r, 2 * width);
    } else {
      forall x | x in r
        ensures x in items
      {
        assert x in multiset(r);
        assert x in multiset(s);
      }
      SortFromOrdered(cmp, orig, items, r, 2 * width);
    }
  }

  lemma {:induction false} SortFromPermutes(cmp: Compare, s: seq<Item>, width: nat)
    requires width >= 1
    ensures multiset(SortFrom(cmp, s, width)) == multiset(s) && |SortFrom(cmp, s, width)| == |s|
    decreases |s| - width
  {
    PassSize(cmp, s, width);
    if |s| > 2 * width {
      SortFromPermutes(cmp, Pass(cmp, s, width), 2 * width);
    }
  }

  /** The sorted, stable rearrangement: lower items first, equal ones as they were. */
  predicate StablySorted(cmp: Compare, orig: seq<Item>, s: seq<Item>) {
    && multiset(s) == multiset(orig)
    && Ordered(cmp, orig, s)
  }

  lemma SortIsStable(cmp: Compare, s: seq<Item>)
    requires Distinct(s) && Preorder(cmp, SetOf(s))
    ensures StablySorted(cmp, s, SortFrom(cmp, s, 1))
  {
    SingleRuns(cmp, s, 0);
    assert s[0..] == s;
    SortFromOrdered(cmp, s, SetOf(s), s, 1);
    SortFromPermutes(cmp, s, 1);
  }

  // ---------- the relinking ----------

  predicate NextAt(s: seq<Item>, k: nat, nexts: Links)
    requires k < |s|
  {
    s[k] in nexts && nexts[s[k]] == At(s, k + 1)
  }

  /** The items of s from lo up to hi still have their links on, and are not in the output. */
  predicate Unmerged(s: seq<Item>, lo: nat, hi: nat, out: seq<Item>, nexts: Links) {
    && lo <= hi <= |s|
    && (forall k :: lo <= k < hi ==> NextAt(s, k, nexts))
    && (forall k :: lo <= k < hi ==> s[k] !in out)
  }

  predicate OutAt(out: seq<Item>, i: nat, prevs: Links, nexts: Links)
    requires i < |out|
  {
    && out[i] in prevs && prevs[out[i]] == At(out, i - 1)
    && out[i] in nexts && (i + 1 < |out| ==> nexts[out[i]] == out[i + 1])
  }

  /** The output list: linked both ways, but for the link on of its last item. */
  predicate Output(out: seq<Item>, prevs: Links, nexts: Links) {
    Distinct(out) && forall i :: 0 <= i < |out| ==> OutAt(out, i, prevs, nexts)
  }

  function Last(s: seq<Item>): Item? {
    At(s, |s| - 1)
  }

  lemma OutputMore(out: seq<Item>, e: Item, prevs: Links, nexts: Links, prevs': Links, nexts': Links)
    requires Output(out, prevs, nexts) && e !in out && e in nexts
    requires prevs' == prevs[e := Last(out)] && nexts' == Patch(nexts, Last(out), e)
    ensures Output(out + [e], prevs', nexts')
  {
    var t := out + [e];
    forall i | 0 <= i < |t|
      ensures OutAt(t, i, prevs', nexts')
    {
      if i < |out| {
        assert OutAt(out, i, prevs, nexts) && t[i] == out[i] && out[i] in out;
      }
    }
  }

  lemma OutputClosed(out: seq<Item>, prevs: Links, nexts: Links, nexts': Links)
    requires Output(out, prevs, nexts) && nexts' == Patch(nexts, Last(out), null)
    ensures Linked(out, prevs, nexts')
  {
    forall i | 0 <= i < |out|
      ensures LinkAt(out, i, prevs, nexts')
    {
      assert OutAt(out, i, prevs, nexts);
    }
  }

  lemma UnmergedStill(s: seq<Item>, lo: nat, hi: nat, out: seq<Item>, e: Item, nexts: Links, nexts': Links)
    requires Unmerged(s, lo, hi, out, nexts) && (forall k :: lo <= k < hi ==> s[k] != e)
    requires nexts' == Patch(nexts, Last(out), e)
    ensures Unmerged(s, lo, hi, out + [e], nexts')
  {
    forall k | lo <= k < hi
      ensures NextAt(s, k, nexts') && s[k] !in out + [e]
    {
      assert NextAt(s, k, nexts) && s[k] !in out;
      assert out != [] ==> out[|out| - 1] in out;
    }
  }

  /** The next item joins the output. */
  method Link(e: Item, list: Item?, tail: Item?, ghost items: set<Item>) returns (list': Item)
    requires e in items && (tail != null ==> tail in items) && e != tail && (list == null <==> tail == null)
    modifies items`next, items`prev
    ensures Nexts(items) == Patch(old(Nexts(items)), tail, e)
    ensures Prevs(items) == old(Prevs(items))[e := tail]
    ensures list' == if list == null then e else list
  {
    if tail != null {
      tail.next := e;
      list' := list;
    } else {
      list' := e;
    }
    e.prev := tail;
  }

  /** The ghost side of a merge: s[ip..ep] and s[iq..eq] are still to merge, after out. */
  predicate Merging(s: seq<Item>, ip: nat, ep: nat, iq: nat, eq: nat, out: seq<Item>, items: set<Item>, prevs: Links, nexts: Links) {
    && ip <= ep <= iq <= eq <= |s| && Distinct(s)
    && (forall x :: x in s ==> x in items) && (forall x :: x in out ==> x in items)
    && Output(out, prevs, nexts)
    && Unmerged(s, ip, ep, out, nexts) && Unmerged(s, iq, |s|, out, nexts)
  }

  lemma MergingStep(s: seq<Item>, ip: nat, ep: nat, iq: nat, eq: nat, ip': nat, iq': nat, e: Item, out: seq<Item>, items: set<Item>,
                    prevs: Links, nexts: Links, prevs': Links, nexts': Links)
    requires Merging(s, ip, ep, iq, eq, out, items, prevs, nexts)
    requires if ip' == ip then iq < eq && iq' == iq + 1 && e == s[iq] else ip < ep && ip' == ip + 1 && iq' == iq && e == s[ip]
    requires prevs' == prevs[e := Last(out)] && nexts' == Patch(nexts, Last(out), e)
    ensures Merging(s, ip', ep, iq', eq, out + [e], items, prevs', nexts')
  {
    assert e in nexts && e !in out by {
      var k := if ip' == ip then iq else ip;
      assert NextAt(s, k, nexts);
    }
    OutputMore(out, e, prevs, nexts, prevs', nexts');
    UnmergedStill(s, ip', ep, out, e, nexts, nexts');
    UnmergedStill(s, iq', |s|, out, e, nexts, nexts');
  }

  lemma MergeStep(cmp: Compare, s: seq<Item>, ip: nat, ep: nat, iq: nat, eq: nat)
    requires ip <= ep <= iq <= eq <= |s|
    ensures ip < ep && (iq == eq || cmp(s[ip], s[iq]) <= 0) ==>
      Merge(cmp, s[ip..ep], s[iq..eq]) == [s[ip]] + Merge(cmp, s[ip + 1..ep], s[iq..eq])
    ensures iq < eq && (ip == ep || cmp(s[ip], s[iq]) > 0) ==>
      Merge(cmp, s[ip..ep], s[iq..eq]) == [s[iq]] + Merge(cmp, s[ip..ep], s[iq + 1..eq])
  {
    assert ip < ep ==> s[ip..ep][1..] == s[ip + 1..ep] && s[ip..ep] == [s[ip]] + s[ip + 1..ep];
    assert iq < eq ==> s[iq..eq][1..] == s[iq + 1..eq] && s[iq..eq] == [s[iq]] + s[iq + 1..eq];
  }

  /** The handles and sizes of a merge, as positions in the list s of the pass. */
  predicate Cursors(s: seq<Item>, ip: nat, ep: nat, iq: nat, eq: nat, p: Item?, psize: nat, q: Item?, qsize: nat) {
    && ip <= ep <= iq <= eq <= |s|
    && psize == ep - ip && (psize > 0 ==> p == s[ip])
    && q == At(s, iq) && eq == if iq + qsize <= |s| then iq + qsize else |s|
  }

  /** Which item goes next; its handle moves on along the links. */
  method Choose(cmp: Compare, p: Item?, psize: nat, q: Item?, qsize: nat,
                ghost s: seq<Item>, ghost ip: nat, ghost ep: nat, ghost iq: nat, ghost eq: nat, ghost out: seq<Item>, ghost items: set<Item>)
    returns (e: Item, p': Item?, psize': nat, q': Item?, qsize': nat, ghost ip': nat, ghost iq': nat)
    requires psize > 0 || (qsize > 0 && q != null)
    requires Cursors(s, ip, ep, iq, eq, p, psize, q, qsize)
    requires Merging(s, ip, ep, iq, eq, out, items, Prevs(items), Nexts(items))
    ensures if ip < ep && (iq == eq || cmp(s[ip], s[iq]) <= 0) then e == s[ip] && psize' == psize - 1 && p' == At(s, ip + 1)
      else iq < eq && e == s[iq] && qsize' == qsize - 1 && q' == At(s, iq + 1)
    ensures if ip' == ip then iq < eq && iq' == iq + 1 && e == s[iq] else ip < ep && ip' == ip + 1 && iq' == iq && e == s[ip]
    ensures Cursors(s, ip', ep, iq', eq, p', psize', q', qsize')
    ensures Merge(cmp, s[ip..ep], s[iq..eq]) == [e] + Merge(cmp, s[ip'..ep], s[iq'..eq])
  {
    p', psize', q', qsize', ip', iq' := p, psize, q, qsize, ip, iq;
    MergeStep(cmp, s, ip, ep, iq, eq);
    assert ip < ep ==> NextAt(s, ip, Nexts(items));
    assert iq < eq ==> NextAt(s, iq, Nexts(items));
    if psize == 0 {
      e := q;
      q' := q.next;
      qsize' := qsize - 1;
      iq' := iq + 1;
    } else if qsize == 0 || q == null {
      e := p;
      p' := p.next;
      psize' := psize - 1;
      ip' := ip + 1;
    } else if cmp(p, q) <= 0 {
      e := p;
      p' := p.next;
      psize' := psize - 1;
      ip' := ip + 1;
    } else {
      e := q;
      q' := q.next;
      qsize' := qsize - 1;
      iq' := iq + 1;
    }
  }

  /** The chosen item joins the output. */
  method Take(e: Item, list: Item?, tail: Item?, ghost s: seq<Item>, ghost ip: nat, ghost ep: nat, ghost iq: nat, ghost eq: nat,
              ghost ip': nat, ghost iq': nat, ghost out: seq<Item>, ghost items: set<Item>)
    returns (list': Item)
    requires Merging(s, ip, ep, iq, eq, out, items, Prevs(items), Nexts(items))
    requires if ip' == ip then iq < eq && iq' == iq + 1 && e == s[iq] else ip < ep && ip' == ip + 1 && iq' == iq && e == s[ip]
    requires list == At(out, 0) && tail == Last(out)
    modifies items`prev, items`next
    ensures Merging(s, ip', ep, iq', eq, out + [e], items, Prevs(items), Nexts(items))
    ensures list' == (out + [e])[0]
  {
    ghost var prevs, nexts := Prevs(items), Nexts(items);
    MergingStep(s, ip, ep, iq, eq, ip', iq', e, out, items, prevs, nexts, prevs[e := tail], Patch(nexts, tail, e));
    list' := Link(e, list, tail, items);
  }

  lemma Grow(out: seq<Item>, e: Item, rest: seq<Item>)
    ensures out + ([e] + rest) == (out + [e]) + rest
  {
  }

  /** Two runs are merged onto the end of the output. */
  method MergeRuns(cmp: Compare, first: Item, size: nat, second: Item?, width: nat, list: Item?, tail: Item?,
                   ghost s: seq<Item>, ghost i: nat, ghost ep: nat, ghost eq: nat, ghost out: seq<Item>, ghost items: set<Item>)
    returns (q: Item?, list': Item?, tail': Item?, ghost out': seq<Item>)
    requires i < ep && Cursors(s, i, ep, ep, eq, first, size, second, width)
    requires Merging(s, i, ep, ep, eq, out, items, Prevs(items), Nexts(items))
    requires list == At(out, 0) && tail == Last(out)
    modifies items`prev, items`next
    ensures out' == out + Merge(cmp, s[i..ep], s[ep..eq])
    ensures Merging(s, ep, ep, eq, eq, out', items, Prevs(items), Nexts(items))
    ensures q == At(s, eq) && list' == At(out', 0) && tail' == Last(out')
  {
    var p, psize, qsize := first, size, width;
    q, list', tail', out' := second, list, tail, out;
    ghost var ip, iq := i, ep;
    while psize > 0 || (qsize > 0 && q != null)
      invariant Cursors(s, ip, ep, iq, eq, p, psize, q, qsize)
      invariant Merging(s, ip, ep, iq, eq, out', items, Prevs(items), Nexts(items))
      invariant list' == At(out', 0) && tail' == Last(out')
      invariant out' + Merge(cmp, s[ip..ep], s[iq..eq]) == out + Merge(cmp, s[i..ep], s[ep..eq])
      decreases ep - ip + eq - iq
    {
      var e;
      ghost var ip', iq';
      e, p, psize, q, qsize, ip', iq' := Choose(cmp, p, psize, q, qsize, s, ip, ep, iq, eq, out', items);
      Grow(out', e, Merge(cmp, s[ip'..ep], s[iq'..eq]));
      list' := Take(e, list', tail', s, ip, ep, iq, eq, ip', iq', out', items);
      out' := out' + [e];
      tail' := e;
      ip, iq := ip', iq';
    }
  }

  lemma PassStep(cmp: Compare, s: seq<Item>, i: nat, width: nat)
    requires width >= 1 && i < |s|
    ensures var ep := Min(i + width, |s|); var eq := Min(i + 2 * width, |s|);
      Pass(cmp, s[i..], width) == Merge(cmp, s[i..ep], s[ep..eq]) + Pass(cmp, s[eq..], width)
  {
    var ep := Min(i + width, |s|);
    var eq := Min(i + 2 * width, |s|);
    var t := s[i..];
    assert Min(width, |t|) == ep - i && Min(2 * width, |t|) == eq - i;
    assert t[..ep - i] == s[i..ep] && t[ep - i..eq - i] == s[ep..eq] && t[eq - i..] == s[eq..];
  }

  /** The end of the run that starts at an item. */
  method SkipRun(p: Item, width: nat, ghost s: seq<Item>, ghost i: nat, ghost out: seq<Item>, ghost items: set<Item>)
    returns (q: Item?, psize: nat)
    requires width >= 1 && i < |s| && p == s[i] && Unmerged(s, i, |s|, out, Nexts(items))
    ensures psize == Min(i + width, |s|) - i && q == At(s, i + psize)
  {
    q, psize := p, 0;
    var k := 0;
    while k < width
      invariant k == psize <= width && i + psize <= |s| && q == At(s, i + psize)
      invariant k < width ==> q != null
    {
      psize := psize + 1;
      assert NextAt(s, i + k, Nexts(items));
      q := q.next;
      if q == null {
        break;
      }
      k := k + 1;
    }
  }

  /** What the outer loop of a pass keeps: out is the pass over s[..i], and nothing from s[i] on is touched. */
  predicate Passing(cmp: Compare, s: seq<Item>, i: nat, width: nat, out: seq<Item>, items: set<Item>, prevs: Links, nexts: Links)
    requires width >= 1
  {
    && Merging(s, i, i, i, i, out, items, prevs, nexts)
    && out + Pass(cmp, s[i..], width) == Pass(cmp, s, width)
  }

  /** The number of merges so far tells whether the list was one pair of runs. */
  predicate Counted(nmerges: nat, i: nat, size: nat, width: nat) {
    && (nmerges == 0 ==> i == 0)
    && (nmerges == 1 ==> i == Min(2 * width, size))
    && (nmerges > 1 ==> size > 2 * width)
  }

  /** One turn of a pass: the next pair of runs. */
  method MergePair(cmp: Compare, p: Item, width: nat, list: Item?, tail: Item?, ghost s: seq<Item>, ghost i: nat,
                   ghost out: seq<Item>, ghost items: set<Item>)
    returns (q: Item?, list': Item?, tail': Item?, ghost out': seq<Item>)
    requires width >= 1 && i < |s| && p == s[i] && Passing(cmp, s, i, width, out, items, Prevs(items), Nexts(items))
    requires list == At(out, 0) && tail == Last(out)
    modifies items`prev, items`next
    ensures Passing(cmp, s, Min(i + 2 * width, |s|), width, out', items, Prevs(items), Nexts(items))
    ensures q == At(s, Min(i + 2 * width, |s|)) && list' == At(out', 0) && tail' == Last(out')
  {
    var psize;
    q, psize := SkipRun(p, width, s, i, out, items);
    ghost var ep, eq := Min(i + width, |s|), Min(i + 2 * width, |s|);
    MergingStarts(s, i, ep, eq, out, items, Prevs(items), Nexts(items));
    q, list', tail', out' := MergeRuns(cmp, p, psize, q, width, list, tail, s, i, ep, eq, out, items);
    MergingEnds(s, ep, eq, out', items, Prevs(items), Nexts(items));
    PassTurn(cmp, s, i, width, out, out');
  }

  lemma PassTurn(cmp: Compare, s: seq<Item>, i: nat, width: nat, out: seq<Item>, out': seq<Item>)
    requires width >= 1 && i < |s| && out + Pass(cmp, s[i..], width) == Pass(cmp, s, width)
    requires var ep, eq := Min(i + width, |s|), Min(i + 2 * width, |s|); out' == out + Merge(cmp, s[i..ep], s[ep..eq])
    ensures out' + Pass(cmp, s[Min(i + 2 * width, |s|)..], width) == Pass(cmp, s, width)
  {
    var ep, eq := Min(i + width, |s|), Min(i + 2 * width, |s|);
    PassStep(cmp, s, i, width);
    Assoc(out, Merge(cmp, s[i..ep], s[ep..eq]), Pass(cmp, s[eq..], width));
  }

  lemma MergingStarts(s: seq<Item>, i: nat, ep: nat, eq: nat, out: seq<Item>, items: set<Item>, prevs: Links, nexts: Links)
    requires Merging(s, i, i, i, i, out, items, prevs, nexts) && i <= ep <= eq <= |s|
    ensures Merging(s, i, ep, ep, eq, out, items, prevs, nexts)
  {
  }

  lemma MergingEnds(s: seq<Item>, ep: nat, eq: nat, out: seq<Item>, items: set<Item>, prevs: Links, nexts: Links)
    requires Merging(s, ep, ep, eq, eq, out, items, prevs, nexts)
    ensures Merging(s, eq, eq, eq, eq, out, items, prevs, nexts)
  {
  }

  /** One pass over the whole list. */
  method PassInPlace(cmp: Compare, first: Item, width: nat, ghost s: seq<Item>, ghost items: set<Item>)
    returns (list: Item?, tail: Item?, nmerges: nat)
    requires width >= 1 && s != [] && first == s[0] && (forall x :: x in s ==> x in items)
    requires Linked(s, Prevs(items), Nexts(items))
    modifies items`prev, items`next
    ensures Linked(Pass(cmp, s, width), Prevs(items), Nexts(items))
    ensures list == At(Pass(cmp, s, width), 0) && tail == Last(Pass(cmp, s, width))
    ensures nmerges <= 1 <==> |s| <= 2 * width
  {
    ghost var out: seq<Item> := [];
    ghost var i := 0;
    var p: Item? := first;
    list, tail, nmerges := null, null, 0;
    StartPass(cmp, s, width, items, Prevs(items), Nexts(items));
    while p != null
      invariant i <= |s| && p == At(s, i)
      invariant Passing(cmp, s, i, width, out, items, Prevs(items), Nexts(items))
      invariant list == At(out, 0) && tail == Last(out)
      invariant Counted(nmerges, i, |s|, width)
      decreases |s| - i
    {
      nmerges := nmerges + 1;
      p, list, tail, out := MergePair(cmp, p, width, list, tail, s, i, out, items);
      i := Min(i + 2 * width, |s|);
    }
    EndPass(cmp, s, width, out, items, Prevs(items), Nexts(items));
    Terminate(tail, items);
  }

  /** The last item of a pass ends the list. */
  method Terminate(tail: Item?, ghost items: set<Item>)
    requires tail != null ==> tail in items
    modifies items`next
    ensures Nexts(items) == Patch(old(Nexts(items)), tail, null) && Prevs(items) == old(Prevs(items))
  {
    if tail != null {
      tail.next := null;
    }
  }

  lemma StartPass(cmp: Compare, s: seq<Item>, width: nat, items: set<Item>, prevs: Links, nexts: Links)
    requires width >= 1 && (forall x :: x in s ==> x in items) && Linked(s, prevs, nexts)
    ensures Passing(cmp, s, 0, width, [], items, prevs, nexts)
  {
    assert s[0..] == s;
    forall k | 0 <= k < |s|
      ensures NextAt(s, k, nexts)
    {
      assert LinkAt(s, k, prevs, nexts);
    }
  }

  lemma EndPass(cmp: Compare, s: seq<Item>, width: nat, out: seq<Item>, items: set<Item>, prevs: Links, nexts: Links)
    requires width >= 1 && Passing(cmp, s, |s|, width, out, items, prevs, nexts)
    ensures out == Pass(cmp, s, width)
    ensures Linked(out, prevs, Patch(nexts, Last(out), null))
  {
    assert s[|s|..] == [];
    OutputClosed(out, prevs, nexts, Patch(nexts, Last(out), null));
  }

  /** The passes, at widths 1, 2, 4 and so on, until one merges at most one pair of runs. */
  method SortList(cmp: Compare, first: Item, ghost s: seq<Item>, ghost items: set<Item>) returns (list: Item?, tail: Item?, ghost r: seq<Item>)
    requires s != [] && first == s[0] && (forall x :: x in s ==> x in items)
    requires Linked(s, Prevs(items), Nexts(items))
    modifies items`prev, items`next
    ensures r == SortFrom(cmp, s, 1) && Linked(r, Prevs(items), Nexts(items))
    ensures list == At(r, 0) && tail == Last(r)
  {
    var looping, width := true, 1;
    list, tail, r := first, null, s;
    while looping
      invariant width >= 1 && InOrder(r, |s|, list, items, Prevs(items), Nexts(items))
      invariant Sorting(cmp, s, r, width, looping) && (looping || tail == Last(r))
      decreases looping, |s| - width
    {
      list, tail, looping, r := OnePass(cmp, list, width, s, r, items);
      width := width * 2;
    }
  }

  /** A list of these items, of this length, that starts here. */
  predicate InOrder(r: seq<Item>, size: nat, list: Item?, items: set<Item>, prevs: Links, nexts: Links)
  {
    |r| == size && (forall x :: x in r ==> x in items) && Linked(r, prevs, nexts) && list == At(r, 0)
  }

  /** One of the passes, and whether it was the last one. */
  method OnePass(cmp: Compare, first: Item?, width: nat, ghost s: seq<Item>, ghost r: seq<Item>, ghost items: set<Item>)
    returns (list: Item?, tail: Item?, looping: bool, ghost r': seq<Item>)
    requires width >= 1 && s != [] && InOrder(r, |s|, first, items, Prevs(items), Nexts(items))
    requires Sorting(cmp, s, r, width, true)
    modifies items`prev, items`next
    ensures InOrder(r', |s|, list, items, Prevs(items), Nexts(items)) && tail == Last(r')
    ensures Sorting(cmp, s, r', width * 2, looping) && (looping ==> |s| > width * 2)
  {
    PassKeepsItems(cmp, r, width, items);
    SortingNext(cmp, s, r, width);
    var nmerges;
    list, tail, nmerges := PassInPlace(cmp, first, width, r, items);
    looping := nmerges > 1;
    r' := Pass(cmp, r, width);
  }

  /** What the loop over the passes keeps: the passes still to come, or none, lead to the result. */
  predicate Sorting(cmp: Compare, s: seq<Item>, r: seq<Item>, width: nat, looping: bool)
    requires width >= 1
  {
    SortFrom(cmp, s, 1) == if looping then SortFrom(cmp, r, width) else r
  }

  lemma SortingNext(cmp: Compare, s: seq<Item>, r: seq<Item>, width: nat)
    requires width >= 1 && Sorting(cmp, s, r, width, true)
    ensures Sorting(cmp, s, Pass(cmp, r, width), width * 2, |r| > width * 2)
  {
    SortFromStep(cmp, r, width);
  }

  lemma SortFromStep(cmp: Compare, r: seq<Item>, width: nat)
    requires width >= 1
    ensures SortFrom(cmp, r, width) ==
      if |r| > width * 2 then SortFrom(cmp, Pass(cmp, r, width), width * 2) else Pass(cmp, r, width)
  {
    assert 2 * width == width * 2;
  }

  lemma PassKeepsItems(cmp: Compare, s: seq<Item>, width: nat, items: set<Item>)
    requires width >= 1 && (forall x :: x in s ==> x in items)
    ensures |Pass(cmp, s, width)| == |s| && (forall x :: x in Pass(cmp, s, width) ==> x in items)
  {
    PassSize(cmp, s, width);
    forall x | x in Pass(cmp, s, width)
      ensures x in items
    {
      assert x in multiset(Pass(cmp, s, width));
      assert x in multiset(s);
    }
  }

  /** HASH_SRT: whatever the comparison, the sort ends with a well linked rearrangement; for a total preorder it is the stable one. */
  method Sort(t: Table, cmp: Compare)
    requires t.Valid()
    modifies t`head, t`tail, t`order, t.Items()`prev, t.Items()`next
    ensures t.Valid() && multiset(t.order) == multiset(old(t.order))
    ensures Preorder(cmp, old(t.Items())) ==> StablySorted(cmp, old(t.order), t.order)
  {
    if t.head != null {
      ghost var items, before := t.Items(), t.order;
      var list, tail;
      ghost var r;
      list, tail, r := SortList(cmp, t.head, before, items);
      SortFromPermutes(cmp, before, 1);
      if Preorder(cmp, items) {
        SortIsStable(cmp, before);
      }
      SameSet(r, before);
      Reorder(t, list, tail, r, items);
    }
  }

  lemma SameSet(a: seq<Item>, b: seq<Item>)
    requires multiset(a) == multiset(b)
    ensures SetOf(a) == SetOf(b)
  {
    SameItems(a, b);
  }

  method Install(t: Table, list: Item?, tail: Item?, ghost r: seq<Item>, ghost items: set<Item>)
    modifies t`head, t`tail, t`order
    ensures t.head == list && t.tail == tail && t.order == r
    ensures Prevs(items) == old(Prevs(items)) && Nexts(items) == old(Nexts(items))
    ensures Hashes(items) == old(Hashes(items)) && HhPrevs(items) == old(HhPrevs(items)) && HhNexts(items) == old(HhNexts(items))
  {
    t.tail := tail;
    t.head := list;
    t.order := r;
  }

  /** The sorted list becomes the table's; the buckets are as they were. */
  method Reorder(t: Table, list: Item?, tail: Item?, ghost r: seq<Item>, ghost items: set<Item>)
    requires items == t.Items() == SetOf(r) && |r| == |t.order| == t.numItems > 0
    requires t.Filed(items) && (t.noexpand != 1 ==> Bounded(t.buckets))
    requires Linked(r, Prevs(items), Nexts(items)) && list == At(r, 0) && tail == Last(r)
    modifies t`head, t`tail, t`order
    ensures t.Valid() && t.order == r
  {
    Install(t, list, tail, r, items);
    assert t.Items() == items;
    assert t.ListOk();
  }
}
