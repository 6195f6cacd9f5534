/** How many copies of a publish a client gets: one for each of its filters that matches, from the history to the heap. */
module Copies {
  import opened Topics
  import opened Trie
  import opened Matching
  import opened SubTree

  type Call = (nat, nat)

  predicate IsFor(t: Tree, call: Call, c: nat) {
    call.0 < |t| && call.1 < |t[call.0].leaves| && t[call.0].leaves[call.1].client == c
  }

  /** The callbacks of a list that are for client c. */
  function CopyCount(t: Tree, calls: seq<Call>, c: nat): nat {
    if calls == [] then 0 else (if IsFor(t, calls[0], c) then 1 else 0) + CopyCount(t, calls[1..], c)
  }

  function CallsFor(t: Tree, calls: seq<Call>, c: nat): set<Call> {
    set call | call in calls && IsFor(t, call, c)
  }

  /** Client id subscribed to the filter at some time. */
  predicate SubscribedTo(ids: seq<string>, history: seq<Sub>, filter: string, id: string) {
    exists k :: 0 <= k < |history| && ForPair(ids, history[k], filter, id)
  }

  predicate ForPair(ids: seq<string>, s: Sub, filter: string, id: string) {
    s.filter == filter && s.client < |ids| && ids[s.client] == id
  }

  /** The filters of client id that match a topic, each once however often it subscribed. */
  ghost function MatchingFilters(ids: seq<string>, history: seq<Sub>, topic: string, id: string): set<string> {
    set f | f in FiltersOf(history) && FilterMatches(f, topic) && SubscribedTo(ids, history, f, id)
  }

  /** No other slot has the id of slot c. Two slots may well have one: every slot that has not connected yet has the id ""
      (broker/broker.c:164), and add_client does not look for an id that is in use (broker/broker.c:72-84). */
  predicate UniqueId(ids: seq<string>, c: nat) {
    c < |ids| && forall d :: 0 <= d < |ids| && d != c ==> ids[d] != ids[c]
  }

  /** The k-th subscription is slot c's to the filter, and the first one of any slot with c's id. */
  predicate FirstAt(ids: seq<string>, history: seq<Sub>, filter: string, c: nat, k: nat) {
    && k < |history| && c < |ids| && history[k].filter == filter && history[k].client == c
    && !SubscribedTo(ids, history[..k], filter, ids[c])
  }

  /** Of the slots with its id, slot c was the first to subscribe to the filter. */
  ghost predicate FirstToSubscribe(ids: seq<string>, history: seq<Sub>, filter: string, c: nat) {
    exists k: nat :: FirstAt(ids, history, filter, c, k)
  }

  /** The matching filters that slot c, of those with its id, was the first to subscribe to. */
  ghost function OwnFilters(ids: seq<string>, history: seq<Sub>, topic: string, c: nat): set<string> {
    set f | f in FiltersOf(history) && FilterMatches(f, topic) && FirstToSubscribe(ids, history, f, c)
  }

  predicate NoRepeats(calls: seq<Call>) {
    forall call :: call in calls ==> multiset(calls)[call] == 1
  }

  lemma {:induction false} CountIsSize(t: Tree, calls: seq<Call>, c: nat)
    requires NoRepeats(calls)
    ensures CopyCount(t, calls, c) == |CallsFor(t, calls, c)|
  {
    if calls != [] {
      var x, rest := calls[0], calls[1..];
      assert calls == [x] + rest;
      assert multiset(calls) == multiset{x} + multiset(rest);
      assert x in calls && multiset(calls)[x] == 1;
      forall call | call in rest
        ensures multiset(rest)[call] == 1
      {
        assert call in calls && call in multiset(rest);
      }
      CountIsSize(t, rest, c);
      assert CallsFor(t, calls, c) == (if IsFor(t, x, c) then {x} else {}) + CallsFor(t, rest, c);
    }
  }

  /** Two sets that a one-to-one relation pairs off have the same size. */
  lemma {:induction false} PairedOff(a: set<Call>, b: set<string>, pairs: map<Call, string>)
    requires a <= pairs.Keys && (forall x :: x in a ==> pairs[x] in b)
    requires forall x, y :: x in a && y in a && x != y ==> pairs[x] != pairs[y]
    requires forall f :: f in b ==> exists x :: x in a && pairs[x] == f
    ensures |a| == |b|
    decreases |a|
  {
    if a == {} {
      assert b == {} by {
        if f :| f in b {
          assert false;
        }
      }
    } else {
      var x :| x in a;
      PairedOff(a - {x}, b - {pairs[x]}, pairs);
    }
  }

  lemma {:induction false} SubscribedLast(ids: seq<string>, history: seq<Sub>, filter: string, id: string) returns (qos: int)
    requires SubscribedTo(ids, history, filter, id)
    ensures LastSub(ids, history, filter, id, qos)
    decreases |history|
  {
    var s := history[|history| - 1];
    if ForPair(ids, s, filter, id) {
      qos := s.qos;
    } else {
      var k :| 0 <= k < |history| && ForPair(ids, history[k], filter, id);
      assert ForPair(ids, history[..|history| - 1][k], filter, id);
      qos := SubscribedLast(ids, history[..|history| - 1], filter, id);
    }
  }

  // ---------- whose leaf it is ----------

  /** Of two slots with one id, only one was the first. */
  lemma OneOwner(ids: seq<string>, history: seq<Sub>, filter: string, c: nat, d: nat)
    requires FirstToSubscribe(ids, history, filter, c) && FirstToSubscribe(ids, history, filter, d) && ids[c] == ids[d]
    ensures c == d
  {
    var k: nat :| FirstAt(ids, history, filter, c, k);
    var l: nat :| FirstAt(ids, history, filter, d, l);
    assert k < l ==> ForPair(ids, history[..l][k], filter, ids[d]);
    assert l < k ==> ForPair(ids, history[..k][l], filter, ids[c]);
  }

  lemma StillFirst(ids: seq<string>, history: seq<Sub>, n: nat, filter: string, c: nat)
    requires n <= |history| && FirstToSubscribe(ids, history[..n], filter, c)
    ensures FirstToSubscribe(ids, history, filter, c)
  {
    var k: nat :| FirstAt(ids, history[..n], filter, c, k);
    assert history[..n][..k] == history[..k];
    assert FirstAt(ids, history, filter, c, k);
  }

  /** An id that subscribed to the filter has one slot that was the first. */
  lemma {:induction false} SomeOwner(ids: seq<string>, history: seq<Sub>, filter: string, id: string) returns (c: nat)
    requires SubscribedTo(ids, history, filter, id)
    ensures c < |ids| && ids[c] == id && FirstToSubscribe(ids, history, filter, c)
    decreases |history|
  {
    var last := |history| - 1;
    if SubscribedTo(ids, history[..last], filter, id) {
      c := SomeOwner(ids, history[..last], filter, id);
      StillFirst(ids, history, last, filter, c);
    } else {
      forall k | 0 <= k < last ensures !ForPair(ids, history[k], filter, id) {
        assert history[..last][k] == history[k];
      }
      c := history[last].client;
      assert FirstAt(ids, history, filter, c, last);
    }
  }

  /** A subscription that links a leaf is its slot's, and the first for the pair. */
  lemma LinkedIsFirst(ids: seq<string>, history: seq<Sub>, last: nat)
    requires Known(ids, history) && last + 1 == |history|
    requires NoneHolds(TreeOf(ids, history[..last]), ids, PathOf(history[last].filter), ids[history[last].client])
    ensures FirstToSubscribe(ids, history, history[last].filter, history[last].client)
  {
    var s := history[last];
    if SubscribedTo(ids, history[..last], s.filter, ids[s.client]) {
      var qos := SubscribedLast(ids, history[..last], s.filter, ids[s.client]);
      TreeHoldsLastSub(ids, history[..last], s.filter, ids[s.client], qos);
    }
    assert FirstAt(ids, history, s.filter, s.client, last);
  }

  /** A leaf belongs to the slot that, of those with its id, was the first to subscribe to the filter: a later one
      only sets the QoS of that leaf. */
  lemma {:induction false} LeafOwner(ids: seq<string>, history: seq<Sub>, v: nat, i: nat, f: string)
    requires Known(ids, history) && v < |TreeOf(ids, history)| && i < |TreeOf(ids, history)[v].leaves|
    requires Path(TreeOf(ids, history), v) == PathOf(f)
    ensures FirstToSubscribe(ids, history, f, TreeOf(ids, history)[v].leaves[i].client)
    decreases |history|
  {
    if history != [] {
      var last := |history| - 1;
      var s, t, t' := history[last], TreeOf(ids, history[..last]), TreeOf(ids, history);
      assert Path(t, 0) + PathOf(s.filter) == PathOf(s.filter);
      AddAtLeaf(t, ids, 0, PathOf(s.filter), s.client, s.qos, v, i);
      if WasLeaf(t, t', v, i) {
        LeafOwner(ids, history[..last], v, i, f);
        StillFirst(ids, history, last, f, t'[v].leaves[i].client);
      } else {
        PathOfInjective(f, s.filter);
        LinkedIsFirst(ids, history, last);
      }
    }
  }

  /** With an id of its own a slot owns all the filters of its id. */
  lemma OwnIsMatching(ids: seq<string>, history: seq<Sub>, topic: string, c: nat)
    requires UniqueId(ids, c)
    ensures OwnFilters(ids, history, topic, c) == MatchingFilters(ids, history, topic, ids[c])
  {
    forall f | f in FiltersOf(history)
      ensures FirstToSubscribe(ids, history, f, c) <==> SubscribedTo(ids, history, f, ids[c])
    {
      if FirstToSubscribe(ids, history, f, c) {
        var k: nat :| FirstAt(ids, history, f, c, k);
        assert ForPair(ids, history[k], f, ids[c]);
      }
      if SubscribedTo(ids, history, f, ids[c]) {
        var d := SomeOwner(ids, history, f, ids[c]);
      }
    }
  }

  // ---------- callbacks and filters ----------

  /** The client and the filter behind a callback: the filter matches, and the leaf called is the client's for it. */
  lemma CallFilter(ids: seq<string>, history: seq<Sub>, subs: seq<bool>, topic: string, call: Call) returns (f: string, c: nat)
    requires Known(ids, history) && ValidFilters(history) && WildFree(topic)
    requires call in Publish(TreeOf(ids, history), subs, topic)
    ensures multiset(Publish(TreeOf(ids, history), subs, topic))[call] == 1
    ensures c < |ids| && IsFor(TreeOf(ids, history), call, c) && Subscribed(subs, c)
    ensures Stands(ids, history, call, f, c) && f in OwnFilters(ids, history, topic, c)
  {
    var t := TreeOf(ids, history);
    CallsAreLeaves(t, subs, RootVisits(t, |t[0].kids|, Tokens(topic)), call);
    assert call in multiset(Publish(t, subs, topic));
    f := PublishExactlyOnce(ids, history, subs, topic, call.0, call.1);
    var leaf := t[call.0].leaves[call.1];
    c := leaf.client;
    LeafOwner(ids, history, call.0, call.1, f);
    var k: nat :| FirstAt(ids, history, f, c, k);
    assert f in FiltersOf(history);
  }

  /** The leaf of a callback stands for the filter and the client. */
  ghost predicate Stands(ids: seq<string>, history: seq<Sub>, call: Call, f: string, c: nat)
    requires Known(ids, history) && c < |ids|
  {
    var t := TreeOf(ids, history);
    call.0 < |t| && IsLeafOf(ids, t[call.0].leaves, ids[c], call.1) && Path(t, call.0) == PathOf(f)
  }

  ghost function FilterAt(history: seq<Sub>, path: seq<string>): string {
    if f :| f in FiltersOf(history) && PathOf(f) == path then f else ""
  }

  ghost function PairsOf(ids: seq<string>, history: seq<Sub>, calls: seq<Call>, c: nat): map<Call, string>
    requires Known(ids, history)
  {
    var t := TreeOf(ids, history);
    map call | call in CallsFor(t, calls, c) :: FilterAt(history, Path(t, call.0))
  }

  /** The filter of a callback for client c. */
  lemma PairIs(ids: seq<string>, history: seq<Sub>, subs: seq<bool>, topic: string, c: nat, call: Call)
    requires Known(ids, history) && ValidFilters(history) && WildFree(topic) && c < |ids|
    requires call in CallsFor(TreeOf(ids, history), Publish(TreeOf(ids, history), subs, topic), c)
    ensures var f := PairsOf(ids, history, Publish(TreeOf(ids, history), subs, topic), c)[call];
      f in OwnFilters(ids, history, topic, c) && Stands(ids, history, call, f, c)
  {
    var t := TreeOf(ids, history);
    var f, d := CallFilter(ids, history, subs, topic, call);
    PathOfInjective(f, FilterAt(history, Path(t, call.0)));
  }

  /** Two callbacks of one client for the same filter are one. */
  lemma StandsOnce(ids: seq<string>, history: seq<Sub>, x: Call, y: Call, f: string, c: nat)
    requires Known(ids, history) && c < |ids|
    requires Stands(ids, history, x, f, c) && Stands(ids, history, y, f, c)
    ensures x == y
  {
    var t := TreeOf(ids, history);
    HoldsUnique(t, ids, PathOf(f), ids[c], t[x.0].leaves[x.1].qos, x.0, x.1, t[y.0].leaves[y.1].qos, y.0, y.1);
  }

  /** The callback of a filter of client c. */
  lemma PairOf(ids: seq<string>, history: seq<Sub>, subs: seq<bool>, topic: string, c: nat, f: string) returns (call: Call)
    requires Known(ids, history) && ValidFilters(history) && WildFree(topic) && c < |ids|
    requires Subscribed(subs, c) && f in OwnFilters(ids, history, topic, c)
    ensures call in CallsFor(TreeOf(ids, history), Publish(TreeOf(ids, history), subs, topic), c)
    ensures Stands(ids, history, call, f, c)
  {
    var t := TreeOf(ids, history);
    var k: nat :| FirstAt(ids, history, f, c, k);
    assert ForPair(ids, history[k], f, ids[c]);
    var qos := SubscribedLast(ids, history, f, ids[c]);
    var v, i := PublishServesEverySubscription(ids, history, subs, topic, f, ids[c], qos);
    call := (v, i);
    LeafOwner(ids, history, v, i, f);
    OneOwner(ids, history, f, c, t[v].leaves[i].client);
    assert call in multiset(Publish(t, subs, topic));
  }

  lemma CallsDoNotRepeat(ids: seq<string>, history: seq<Sub>, subs: seq<bool>, topic: string)
    requires Known(ids, history) && ValidFilters(history) && WildFree(topic)
    ensures NoRepeats(Publish(TreeOf(ids, history), subs, topic))
  {
    forall call | call in Publish(TreeOf(ids, history), subs, topic)
      ensures multiset(Publish(TreeOf(ids, history), subs, topic))[call] == 1
    {
      var f, c := CallFilter(ids, history, subs, topic, call);
    }
  }

  /** The callbacks of a client in session pair off with its matching filters. */
  lemma CallsPairOff(ids: seq<string>, history: seq<Sub>, subs: seq<bool>, topic: string, c: nat)
    requires Known(ids, history) && ValidFilters(history) && WildFree(topic) && c < |ids| && Subscribed(subs, c)
    ensures |CallsFor(TreeOf(ids, history), Publish(TreeOf(ids, history), subs, topic), c)| ==
      |OwnFilters(ids, history, topic, c)|
  {
    var calls := Publish(TreeOf(ids, history), subs, topic);
    var mine, pairs := CallsFor(TreeOf(ids, history), calls, c), PairsOf(ids, history, calls, c);
    forall x | x in mine
      ensures pairs[x] in OwnFilters(ids, history, topic, c) && Stands(ids, history, x, pairs[x], c)
    {
      PairIs(ids, history, subs, topic, c, x);
    }
    forall x, y | x in mine && y in mine && x != y
      ensures pairs[x] != pairs[y]
    {
      if pairs[x] == pairs[y] {
        StandsOnce(ids, history, x, y, pairs[x], c);
      }
    }
    forall f | f in OwnFilters(ids, history, topic, c)
      ensures exists x :: x in mine && pairs[x] == f
    {
      var x := PairOf(ids, history, subs, topic, c, f);
      PathOfInjective(f, pairs[x]);
    }
    PairedOff(mine, OwnFilters(ids, history, topic, c), pairs);
  }

  /** A slot in session is called back once for each matching filter that it, of the slots with its id, was the first to
      subscribe to: all filters of its id if no other slot has the id. Any other slot is never called back. */
  lemma OneCopyPerMatchingFilter(ids: seq<string>, history: seq<Sub>, subs: seq<bool>, topic: string, c: nat)
    requires Known(ids, history) && ValidFilters(history) && WildFree(topic) && c < |ids|
    ensures CopyCount(TreeOf(ids, history), Publish(TreeOf(ids, history), subs, topic), c) ==
      if Subscribed(subs, c) then |OwnFilters(ids, history, topic, c)| else 0
    ensures UniqueId(ids, c) ==> OwnFilters(ids, history, topic, c) == MatchingFilters(ids, history, topic, ids[c])
  {
    var t := TreeOf(ids, history);
    var calls := Publish(t, subs, topic);
    if UniqueId(ids, c) {
      OwnIsMatching(ids, history, topic, c);
    }
    CallsDoNotRepeat(ids, history, subs, topic);
    CountIsSize(t, calls, c);
    if Subscribed(subs, c) {
      CallsPairOff(ids, history, subs, topic, c);
    } else {
      forall call | call in calls
        ensures !IsFor(t, call, c)
      {
        var f, d := CallFilter(ids, history, subs, topic, call);
      }
      assert CallsFor(t, calls, c) == {};
    }
  }

  /** Slot c was the first of its id to subscribe to each matching filter of its id. */
  ghost predicate OwnsAll(ids: seq<string>, history: seq<Sub>, topic: string, c: nat)
    requires c < |ids|
  {
    forall f :: f in MatchingFilters(ids, history, topic, ids[c]) ==> FirstToSubscribe(ids, history, f, c)
  }

  lemma {:induction false} SubsetSize(a: set<string>, b: set<string>)
    requires a <= b
    ensures |a| <= |b|
    ensures |a| == |b| <==> a == b
    decreases |a|
  {
    if a == {} {
      assert |b| == 0 <==> b == {};
    } else {
      var x :| x in a;
      SubsetSize(a - {x}, b - {x});
      assert a == (a - {x}) + {x} && b == (b - {x}) + {x};
    }
  }

  lemma OwnAreMatching(ids: seq<string>, history: seq<Sub>, topic: string, c: nat)
    requires c < |ids|
    ensures OwnFilters(ids, history, topic, c) <= MatchingFilters(ids, history, topic, ids[c])
    ensures OwnFilters(ids, history, topic, c) == MatchingFilters(ids, history, topic, ids[c]) <==> OwnsAll(ids, history, topic, c)
  {
    forall f | f in OwnFilters(ids, history, topic, c) ensures SubscribedTo(ids, history, f, ids[c]) {
      var k: nat :| FirstAt(ids, history, f, c, k);
      assert ForPair(ids, history[k], f, ids[c]);
    }
  }

  /** One copy for each matching filter of its id: a slot in session gets as many exactly if it owns them all. */
  lemma AllCopiesExactly(ids: seq<string>, history: seq<Sub>, subs: seq<bool>, topic: string, c: nat)
    requires Known(ids, history) && ValidFilters(history) && WildFree(topic) && c < |ids| && Subscribed(subs, c)
    ensures var copies := CopyCount(TreeOf(ids, history), Publish(TreeOf(ids, history), subs, topic), c);
      var wanted := |MatchingFilters(ids, history, topic, ids[c])|;
      copies <= wanted && (copies == wanted <==> OwnsAll(ids, history, topic, c))
  {
    OneCopyPerMatchingFilter(ids, history, subs, topic, c);
    OwnAreMatching(ids, history, topic, c);
    SubsetSize(OwnFilters(ids, history, topic, c), MatchingFilters(ids, history, topic, ids[c]));
  }

  /** Two sessions with one id, both subscribed to the filter "a": the second one gets no copy of a publish to it. */
  lemma SecondSessionGetsNone()
    ensures var ids, history, subs := ["x", "x"], [Sub("a", 0, 0), Sub("a", 1, 0)], [true, true];
      && Known(ids, history) && ValidFilters(history) && WildFree("a") && Subscribed(subs, 1)
      && "a" in MatchingFilters(ids, history, "a", ids[1])
      && CopyCount(TreeOf(ids, history), Publish(TreeOf(ids, history), subs, "a"), 1) == 0
  {
    var ids, history, subs := ["x", "x"], [Sub("a", 0, 0), Sub("a", 1, 0)], [true, true];
    SplitOneLevel("a");
    assert ValidFilters(history) && FilterMatches("a", "a");
    assert history[1].filter in FiltersOf(history);
    assert ForPair(ids, history[1], "a", "x");
    forall f ensures !FirstToSubscribe(ids, history, f, 1) {
      forall k: nat ensures !FirstAt(ids, history, f, 1, k) {
        if k == 1 {
          assert ForPair(ids, history[..1][0], "a", "x");
        }
      }
    }
    OneCopyPerMatchingFilter(ids, history, subs, "a", 1);
    assert OwnFilters(ids, history, "a", 1) == {};
  }

  // ---------- in the heap ----------

  /** Slot c of the array is a struct of its own, whatever its id. */
  predicate OwnStruct(b: Broker, c: nat) {
    c < |b.clients| && forall d :: 0 <= d < |b.clients| && d != c ==> b.clients[d] != b.clients[c]
  }

  lemma {:induction false} CopiesInHeap(b: Broker, calls: seq<Call>, c: nat)
    requires OwnStruct(b, c)
    ensures multiset(b.Contexts(calls))[b.clients[c]] == CopyCount(b.tree, calls, c)
  {
    if calls != [] {
      CopiesInHeap(b, calls[1..], c);
    }
  }

  /** The nodes and leaves of a broker are among these. */
  ghost predicate Within(b: Broker, nodes: set<SubHier>, leaves: set<SubLeaf>)
    reads b
  {
    (forall x :: x in b.nodes ==> x in nodes) && b.leafSet <= leaves
  }

  /** The broker has taken the first i subscriptions. */
  ghost predicate Taken(b: Broker, history: seq<Sub>, i: nat)
    reads b, b.nodes, b.leafSet
  {
    b.Valid() && i <= |history| && Known(b.Ids(), history) && b.tree == TreeOf(b.Ids(), history[..i])
  }

  /** One subscription more. */
  method SubscribeNext(b: Broker, history: seq<Sub>, i: nat, ghost nodes: set<SubHier>, ghost leaves: set<SubLeaf>)
    returns (ghost nodes': set<SubHier>, ghost leaves': set<SubLeaf>)
    requires Taken(b, history, i) && i < |history| && Within(b, nodes, leaves)
    modifies b, nodes, leaves, b.clients`subs
    ensures Taken(b, history, i + 1) && Within(b, nodes', leaves') && nodes <= nodes' && leaves <= leaves'
    ensures fresh(nodes' - nodes) && fresh(leaves' - leaves)
  {
    assert history[..i + 1][..i] == history[..i];
    b.Add(b.clients[history[i].client], history[i].client, history[i].filter, history[i].qos);
    nodes', leaves' := nodes + (set x | x in b.nodes), leaves + b.leafSet;
  }

  /** A new broker takes these subscriptions, in this order. */
  method SubscribeAll(b: Broker, history: seq<Sub>, ghost nodes: set<SubHier>, ghost leaves: set<SubLeaf>)
    requires b.Valid() && b.tree == START && Known(b.Ids(), history) && Within(b, nodes, leaves)
    modifies b, nodes, leaves, b.clients`subs
    ensures b.Valid() && b.tree == TreeOf(b.Ids(), history)
  {
    var i := 0;
    ghost var ns, ls := nodes, leaves;
    while i < |history|
      invariant Taken(b, history, i) && Within(b, ns, ls)
      invariant nodes <= ns && leaves <= ls && fresh(ns - nodes) && fresh(ls - leaves)
    {
      ns, ls := SubscribeNext(b, history, i, ns, ls);
      i := i + 1;
    }
    assert history[..i] == history;
  }

  /** A publish reaches each slot in session once for each matching filter that it owns, which are all the matching
      filters of its id if no other slot has the id; and no other slot. */
  method PublishTo(b: Broker, topic: string, ghost history: seq<Sub>, ghost c: nat) returns (called: seq<Client>)
    requires b.Valid() && Known(b.Ids(), history) && b.tree == TreeOf(b.Ids(), history)
    requires ValidFilters(history) && WildFree(topic) && OwnStruct(b, c)
    ensures multiset(called)[b.clients[c]] ==
      if b.clients[c].isSubscribe then |OwnFilters(b.Ids(), history, topic, c)| else 0
    ensures UniqueId(b.Ids(), c) ==>
      OwnFilters(b.Ids(), history, topic, c) == MatchingFilters(b.Ids(), history, topic, b.clients[c].id)
  {
    called := b.TreeProcess(topic);
    CopiesInHeap(b, Publish(b.tree, b.Flags(), topic), c);
    OneCopyPerMatchingFilter(b.Ids(), history, b.Flags(), topic, c);
  }
}
