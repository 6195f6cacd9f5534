/** What one publish visits, in order, and the proof that it is every matching subscription once. */
module Matching {
  import opened Topics
  import opened Trie

  // ---------- the walk ----------

  /** Whether the search compares this level equal to the token at hand. */
  predicate TakesToken(topic: string, tokens: seq<string>)
  {
    tokens != [] && (topic == tokens[0] || topic == "+")
  }

  /** The nodes whose leaves _sub_search processes when it is called on node n. */
  function Visits(t: Tree, n: nat, tokens: seq<string>): seq<nat>
    requires n < |t|
    decreases |t| - n, 1, 0
  {
    VisitsFrom(t, n, 0, tokens)
  }

  /** The rest of its loop, from the j-th child on. */
  function VisitsFrom(t: Tree, n: nat, j: nat, tokens: seq<string>): seq<nat>
    requires n < |t|
    decreases |t| - n, 0, |t[n].kids| - j
  {
    if j >= |t[n].kids| || !KidOk(t, n, t[n].kids[j]) then []
    else VisitsBranch(t, t[n].kids[j], tokens) + VisitsFrom(t, n, j + 1, tokens)
  }

  /** One round of the loop. */
  function VisitsBranch(t: Tree, b: nat, tokens: seq<string>): seq<nat>
    requires b < |t|
    decreases |t| - b, 2, 0
  {
    if TakesToken(t[b].topic, tokens) then
      Visits(t, b, tokens[1..]) + (if |tokens| == 1 then [b] else [])
    else if t[b].topic == "#" && t[b].kids == [] then [b]
    else []
  }

  /** mqtt3_sub_tree_process: the root's list has its newest child first, so the walk counts down. */
  function RootVisits(t: Tree, j: nat, tokens: seq<string>): seq<nat>
    requires |t| > 0 && j <= |t[0].kids|
  {
    if j == 0 || !KidOk(t, 0, t[0].kids[j - 1]) || tokens == [] then []
    else RootBranch(t, t[0].kids[j - 1], tokens) + RootVisits(t, j - 1, tokens)
  }

  function RootBranch(t: Tree, b: nat, tokens: seq<string>): seq<nat>
    requires b < |t| && tokens != []
  {
    if t[b].topic == tokens[0] then Visits(t, b, tokens) else []
  }

  // ---------- ancestors ----------

  /** Node v is b or lies below it. */
  predicate AtOrBelow(t: Tree, b: nat, v: nat)
    requires Rooted(t) && v < |t|
    decreases v
  {
    v == b || (v > b && AtOrBelow(t, b, t[v].parent))
  }

  /** The levels between b and v. */
  function Levels(t: Tree, b: nat, v: nat): (levels: seq<string>)
    requires Rooted(t) && v < |t| && AtOrBelow(t, b, v)
    ensures levels == [] <==> v == b
    decreases v
  {
    if v == b then [] else Levels(t, b, t[v].parent) + [t[v].topic]
  }

  /** The child of n on the way to v, and the first of the levels. */
  lemma {:induction false} Toward(t: Tree, ids: seq<string>, n: nat, v: nat) returns (j: nat)
    requires Wf(t, ids) && Rooted(t) && v < |t| && AtOrBelow(t, n, v) && v != n
    ensures n < |t| && j < |t[n].kids| && t[n].kids[j] < |t| && AtOrBelow(t, t[n].kids[j], v)
    ensures Levels(t, n, v) == [t[t[n].kids[j]].topic] + Levels(t, t[n].kids[j], v)
    decreases v
  {
    assert NodeOk(t, ids, v);
    var p := t[v].parent;
    if p == n {
      j :| 0 <= j < |t[n].kids| && t[n].kids[j] == v;
    } else {
      j := Toward(t, ids, n, p);
      var k := t[n].kids[j];
      AtOrBelowAfter(t, k, p);
      assert Levels(t, n, v) == [t[k].topic] + (Levels(t, k, p) + [t[v].topic]);
    }
  }

  lemma {:induction false} AtOrBelowAfter(t: Tree, b: nat, v: nat)
    requires Rooted(t) && v < |t| && AtOrBelow(t, b, v)
    ensures b <= v
  {
  }

  lemma {:induction false} BelowKid(t: Tree, ids: seq<string>, n: nat, k: nat, v: nat)
    requires Wf(t, ids) && Rooted(t) && n < |t| && k < |t| && k in t[n].kids && v < |t|
    requires AtOrBelow(t, k, v)
    ensures AtOrBelow(t, n, v) && v != n
    decreases v
  {
    assert NodeOk(t, ids, n);
    var i :| 0 <= i < |t[n].kids| && t[n].kids[i] == k;
    assert KidOk(t, n, k);
    if v != k {
      BelowKid(t, ids, n, k, t[v].parent);
    }
  }

  /** No node lies below two children of the same node. */
  lemma {:induction false} OneKidToward(t: Tree, ids: seq<string>, n: nat, a: nat, b: nat, v: nat)
    requires Wf(t, ids) && Rooted(t) && n < |t| && a < |t| && b < |t| && v < |t|
    requires a in t[n].kids && b in t[n].kids && AtOrBelow(t, a, v) && AtOrBelow(t, b, v)
    ensures a == b
    decreases v
  {
    assert NodeOk(t, ids, n);
    var i :| 0 <= i < |t[n].kids| && t[n].kids[i] == a;
    var j :| 0 <= j < |t[n].kids| && t[n].kids[j] == b;
    assert KidOk(t, n, a) && KidOk(t, n, b);
    if v == a && v != b {
      BelowKid(t, ids, n, b, n);
    } else if v == b && v != a {
      BelowKid(t, ids, n, a, n);
    } else if v != a {
      OneKidToward(t, ids, n, a, b, t[v].parent);
    }
  }

  lemma {:induction false} PathFromRoot(t: Tree, v: nat)
    requires Rooted(t) && v < |t|
    ensures AtOrBelow(t, 0, v) && Levels(t, 0, v) == Path(t, v)
    decreases v
  {
    if v != 0 {
      PathFromRoot(t, t[v].parent);
    }
  }

  // ---------- the walk decides matching, once for each node ----------

  lemma CountConcat<T>(a: seq<T>, b: seq<T>, x: T)
    ensures multiset(a + b)[x] == multiset(a)[x] + multiset(b)[x]
  {
  }

  /** What the walk requires of the levels below its start; equal to LevelsMatch by WalkMatchIsLevelsMatch. */
  predicate WalkMatch(levels: seq<string>, tokens: seq<string>)
    requires levels != []
    decreases |levels|
  {
    if TakesToken(levels[0], tokens) then
      if |levels| == 1 then |tokens| == 1 else WalkMatch(levels[1..], tokens[1..])
    else
      levels == ["#"]
  }

  lemma {:induction false} WalkMatchIsLevelsMatch(levels: seq<string>, tokens: seq<string>)
    requires levels != [] && ValidLevels(levels) && forall i | 0 <= i < |tokens| :: WildFree(tokens[i])
    ensures WalkMatch(levels, tokens) <==> LevelsMatch(levels, tokens)
    decreases |levels|
  {
    if tokens != [] && |levels| > 1 {
      assert levels == [levels[0]] + levels[1..] && tokens == [tokens[0]] + tokens[1..];
      ValidLevelsCons(levels[0], levels[1..]);
      LevelsMatchCons(levels[0], levels[1..], tokens[0], tokens[1..]);
      WalkMatchIsLevelsMatch(levels[1..], tokens[1..]);
    } else if tokens != [] {
      assert levels == [levels[0]];
    } else if |levels| > 1 {
      assert levels[0] != "#";
    }
  }

  /** The expected number of visits of v below n. */
  function Expected(t: Tree, n: nat, v: nat, tokens: seq<string>): nat
    requires Rooted(t) && v < |t|
  {
    if AtOrBelow(t, n, v) && v != n && WalkMatch(Levels(t, n, v), tokens) then 1 else 0
  }

  /** The same for one round of the loop, where b itself is a candidate. */
  function ExpectedAt(t: Tree, b: nat, v: nat, tokens: seq<string>): nat
    requires Rooted(t) && v < |t| && b < |t|
  {
    if AtOrBelow(t, b, v) && WalkMatch([t[b].topic] + Levels(t, b, v), tokens) then 1 else 0
  }

  lemma {:induction false} VisitsCount(t: Tree, ids: seq<string>, n: nat, tokens: seq<string>, v: nat)
    requires Wf(t, ids) && Rooted(t) && WildOk(t) && n < |t| && v < |t|
    ensures multiset(Visits(t, n, tokens))[v] == Expected(t, n, v, tokens)
    decreases |t| - n, 1, 0
  {
    if AtOrBelow(t, n, v) && v != n {
      var j := Toward(t, ids, n, v);
      VisitsFromHit(t, ids, n, 0, tokens, v, j);
    } else {
      forall k | k in t[n].kids && k < |t| ensures !AtOrBelow(t, k, v) {
        if AtOrBelow(t, k, v) {
          BelowKid(t, ids, n, k, v);
        }
      }
      VisitsFromMiss(t, ids, n, 0, tokens, v);
    }
  }

  lemma {:induction false} VisitsFromHit(t: Tree, ids: seq<string>, n: nat, j: nat, tokens: seq<string>, v: nat, hit: nat)
    requires Wf(t, ids) && Rooted(t) && WildOk(t) && n < |t| && v < |t| && j <= hit < |t[n].kids|
    requires t[n].kids[hit] < |t| && AtOrBelow(t, t[n].kids[hit], v)
    ensures multiset(VisitsFrom(t, n, j, tokens))[v] == ExpectedAt(t, t[n].kids[hit], v, tokens)
    decreases |t| - n, 0, |t[n].kids| - j
  {
    assert NodeOk(t, ids, n) && KidOk(t, n, t[n].kids[j]);
    var k := t[n].kids[j];
    VisitsBranchCount(t, ids, k, tokens, v);
    if j == hit {
      forall i | j < i < |t[n].kids| ensures t[n].kids[i] < |t| && !AtOrBelow(t, t[n].kids[i], v) {
        assert KidOk(t, n, t[n].kids[i]);
        if AtOrBelow(t, t[n].kids[i], v) {
          OneKidToward(t, ids, n, k, t[n].kids[i], v);
        }
      }
      VisitsFromMiss(t, ids, n, j + 1, tokens, v);
    } else {
      if AtOrBelow(t, k, v) {
        OneKidToward(t, ids, n, k, t[n].kids[hit], v);
      }
      VisitsFromHit(t, ids, n, j + 1, tokens, v, hit);
    }
  }

  lemma {:induction false} VisitsFromMiss(t: Tree, ids: seq<string>, n: nat, j: nat, tokens: seq<string>, v: nat)
    requires Wf(t, ids) && Rooted(t) && WildOk(t) && n < |t| && v < |t| && j <= |t[n].kids|
    requires forall i | j <= i < |t[n].kids| :: t[n].kids[i] < |t| ==> !AtOrBelow(t, t[n].kids[i], v)
    ensures multiset(VisitsFrom(t, n, j, tokens))[v] == 0
    decreases |t| - n, 0, |t[n].kids| - j
  {
    if j < |t[n].kids| {
      assert NodeOk(t, ids, n) && KidOk(t, n, t[n].kids[j]);
      VisitsBranchCount(t, ids, t[n].kids[j], tokens, v);
      VisitsFromMiss(t, ids, n, j + 1, tokens, v);
    }
  }

  lemma {:induction false} VisitsBranchCount(t: Tree, ids: seq<string>, b: nat, tokens: seq<string>, v: nat)
    requires Wf(t, ids) && Rooted(t) && WildOk(t) && b < |t| && v < |t|
    ensures multiset(VisitsBranch(t, b, tokens))[v] == ExpectedAt(t, b, v, tokens)
    decreases |t| - b, 2, 0
  {
    assert NodeOk(t, ids, b);
    if TakesToken(t[b].topic, tokens) {
      VisitsCount(t, ids, b, tokens[1..], v);
      if AtOrBelow(t, b, v) && v != b {
        assert ([t[b].topic] + Levels(t, b, v))[1..] == Levels(t, b, v);
      }
    } else if AtOrBelow(t, b, v) && v != b && t[b].topic == "#" {
      var j := Toward(t, ids, b, v);
    }
  }

  lemma RootVisitsStep(t: Tree, ids: seq<string>, j: nat, tokens: seq<string>, v: nat)
    requires Wf(t, ids) && 0 < j <= |t[0].kids| && tokens != []
    ensures t[0].kids[j - 1] < |t|
    ensures multiset(RootVisits(t, j, tokens))[v] ==
            multiset(RootBranch(t, t[0].kids[j - 1], tokens))[v] + multiset(RootVisits(t, j - 1, tokens))[v]
  {
    assert NodeOk(t, ids, 0) && KidOk(t, 0, t[0].kids[j - 1]);
    CountConcat(RootBranch(t, t[0].kids[j - 1], tokens), RootVisits(t, j - 1, tokens), v);
  }

  lemma RootBranchMiss(t: Tree, ids: seq<string>, k: nat, tokens: seq<string>, v: nat)
    requires Wf(t, ids) && Rooted(t) && WildOk(t) && v < |t| && k < |t| && tokens != []
    requires v == k || !AtOrBelow(t, k, v)
    ensures multiset(RootBranch(t, k, tokens))[v] == 0
  {
    VisitsCount(t, ids, k, tokens, v);
  }

  lemma {:induction false} RootVisitsMiss(t: Tree, ids: seq<string>, j: nat, tokens: seq<string>, v: nat)
    requires Wf(t, ids) && Rooted(t) && WildOk(t) && v < |t| && j <= |t[0].kids| && tokens != []
    requires forall i | 0 <= i < j :: t[0].kids[i] < |t| ==> v == t[0].kids[i] || !AtOrBelow(t, t[0].kids[i], v)
    ensures multiset(RootVisits(t, j, tokens))[v] == 0
    decreases j
  {
    if j > 0 {
      RootVisitsStep(t, ids, j, tokens, v);
      RootBranchMiss(t, ids, t[0].kids[j - 1], tokens, v);
      RootVisitsMiss(t, ids, j - 1, tokens, v);
    }
  }

  lemma OtherRootKids(t: Tree, ids: seq<string>, hit: nat, v: nat)
    requires Wf(t, ids) && Rooted(t) && v < |t| && hit < |t[0].kids|
    requires t[0].kids[hit] < |t| && AtOrBelow(t, t[0].kids[hit], v)
    ensures forall i | 0 <= i < |t[0].kids| && i != hit :: t[0].kids[i] < |t| ==> !AtOrBelow(t, t[0].kids[i], v)
  {
    assert NodeOk(t, ids, 0);
    forall i | 0 <= i < |t[0].kids| && i != hit ensures t[0].kids[i] < |t| ==> !AtOrBelow(t, t[0].kids[i], v) {
      assert KidOk(t, 0, t[0].kids[i]);
      if AtOrBelow(t, t[0].kids[i], v) {
        OneKidToward(t, ids, 0, t[0].kids[hit], t[0].kids[i], v);
      }
    }
  }

  lemma {:induction false} RootVisitsHit(t: Tree, ids: seq<string>, j: nat, tokens: seq<string>, v: nat, hit: nat)
    requires Wf(t, ids) && Rooted(t) && WildOk(t) && v < |t| && hit < j <= |t[0].kids| && tokens != []
    requires t[0].kids[hit] < |t| && AtOrBelow(t, t[0].kids[hit], v)
    ensures multiset(RootVisits(t, j, tokens))[v] == multiset(RootBranch(t, t[0].kids[hit], tokens))[v]
    decreases j
  {
    RootVisitsStep(t, ids, j, tokens, v);
    var here := multiset(RootBranch(t, t[0].kids[j - 1], tokens))[v];
    var rest := multiset(RootVisits(t, j - 1, tokens))[v];
    if hit == j - 1 {
      assert rest == 0 by {
        OtherRootKids(t, ids, hit, v);
        RootVisitsMiss(t, ids, j - 1, tokens, v);
      }
    } else {
      assert here == 0 by {
        OtherRootKids(t, ids, hit, v);
        RootBranchMiss(t, ids, t[0].kids[j - 1], tokens, v);
      }
      RootVisitsHit(t, ids, j - 1, tokens, v, hit);
    }
  }

  /** Every node is visited once if its path matches, and never if not. */
  lemma RootVisitsExact(t: Tree, ids: seq<string>, tokens: seq<string>, v: nat)
    requires Wf(t, ids) && Rooted(t) && WildOk(t) && v < |t| && tokens != []
    requires forall i | 0 <= i < |tokens| :: WildFree(tokens[i])
    ensures multiset(RootVisits(t, |t[0].kids|, tokens))[v] ==
            if v != 0 && PathMatches(Path(t, v), tokens) then 1 else 0
  {
    PathFromRoot(t, v);
    PathValid(t, ids, v);
    if v == 0 {
      RootVisitsMiss(t, ids, |t[0].kids|, tokens, v);
    } else {
      var j := Toward(t, ids, 0, v);
      var b := t[0].kids[j];
      RootVisitsHit(t, ids, |t[0].kids|, tokens, v, j);
      VisitsCount(t, ids, b, tokens, v);
      var levels := Levels(t, b, v);
      assert Path(t, v) == [t[b].topic] + levels && Path(t, v)[1..] == levels;
      ValidLevelsCons(t[b].topic, levels);
      if v != b {
        WalkMatchIsLevelsMatch(levels, tokens);
      }
    }
  }

  // ---------- the leaves ----------

  /** The leaf positions of node v, from the i-th on, whose client is subscribed. */
  function LeafCalls(t: Tree, subs: seq<bool>, v: nat, i: nat): seq<(nat, nat)>
    requires v < |t|
    decreases |t[v].leaves| - i
  {
    if i >= |t[v].leaves| then []
    else (if Subscribed(subs, t[v].leaves[i].client) then [(v, i)] else []) + LeafCalls(t, subs, v, i + 1)
  }

  predicate Subscribed(subs: seq<bool>, client: nat) { client < |subs| && subs[client] }

  /** The callbacks of a walk, each as (node, leaf position). */
  function Calls(t: Tree, subs: seq<bool>, visits: seq<nat>): seq<(nat, nat)>
  {
    if visits == [] then []
    else (if visits[0] < |t| then LeafCalls(t, subs, visits[0], 0) else []) + Calls(t, subs, visits[1..])
  }

  lemma {:induction false} CallsConcat(t: Tree, subs: seq<bool>, a: seq<nat>, b: seq<nat>)
    ensures Calls(t, subs, a + b) == Calls(t, subs, a) + Calls(t, subs, b)
  {
    if a == [] {
      assert a + b == b;
    } else {
      assert (a + b)[1..] == a[1..] + b;
      CallsConcat(t, subs, a[1..], b);
    }
  }

  lemma {:induction false} LeafCallsCount(t: Tree, subs: seq<bool>, v: nat, from: nat, w: nat, i: nat)
    requires v < |t|
    ensures multiset(LeafCalls(t, subs, v, from))[(w, i)] ==
            if w == v && from <= i < |t[v].leaves| && Subscribed(subs, t[v].leaves[i].client) then 1 else 0
    decreases |t[v].leaves| - from
  {
    if from < |t[v].leaves| {
      LeafCallsCount(t, subs, v, from + 1, w, i);
      var here: seq<(nat, nat)> := if Subscribed(subs, t[v].leaves[from].client) then [(v, from)] else [];
      CountConcat(here, LeafCalls(t, subs, v, from + 1), (w, i));
    }
  }

  lemma CountHead(s: seq<nat>, x: nat)
    requires s != []
    ensures multiset(s)[x] == (if s[0] == x then 1 else 0) + multiset(s[1..])[x]
  {
    assert s == [s[0]] + s[1..];
    CountConcat([s[0]], s[1..], x);
  }

  lemma CallsStep(t: Tree, subs: seq<bool>, visits: seq<nat>, x: (nat, nat))
    requires visits != []
    ensures multiset(Calls(t, subs, visits))[x] ==
            (if visits[0] < |t| then multiset(LeafCalls(t, subs, visits[0], 0))[x] else 0) + multiset(Calls(t, subs, visits[1..]))[x]
  {
    CountConcat(if visits[0] < |t| then LeafCalls(t, subs, visits[0], 0) else [], Calls(t, subs, visits[1..]), x);
  }

  lemma {:induction false} CallsCount(t: Tree, subs: seq<bool>, visits: seq<nat>, v: nat, i: nat)
    requires v < |t|
    ensures multiset(Calls(t, subs, visits))[(v, i)] ==
            if i < |t[v].leaves| && Subscribed(subs, t[v].leaves[i].client) then multiset(visits)[v] else 0
    decreases |visits|
  {
    if visits != [] {
      CallsCount(t, subs, visits[1..], v, i);
      CallsStep(t, subs, visits, (v, i));
      CountHead(visits, v);
      if visits[0] < |t| {
        LeafCallsCount(t, subs, visits[0], 0, v, i);
      }
    }
  }

  /** The callbacks of mqtt3_sub_tree_process for a topic, in order. */
  function Publish(t: Tree, subs: seq<bool>, topic: string): seq<(nat, nat)>
    requires |t| > 0
  {
    Calls(t, subs, RootVisits(t, |t[0].kids|, Tokens(topic)))
  }

  lemma TokensWildFree(topic: string)
    requires WildFree(topic)
    ensures forall i | 0 <= i < |Tokens(topic)| :: WildFree(Tokens(topic)[i])
  {
    WildFreeSplit(topic);
  }

  // ---------- histories of subscriptions ----------

  /** One SUBSCRIBE that reached the tree. */
  datatype Sub = Sub(filter: string, client: nat, qos: int)

  predicate Known(ids: seq<string>, subs: seq<Sub>) { forall i | 0 <= i < |subs| :: subs[i].client < |ids| }

  predicate ValidFilters(subs: seq<Sub>) { forall i | 0 <= i < |subs| :: ValidFilter(subs[i].filter) }

  ghost function AddSub(t: Tree, ids: seq<string>, s: Sub): Tree
    requires |t| > 0 && s.client < |ids|
  {
    AddAt(t, ids, 0, PathOf(s.filter), s.client, s.qos)
  }

  lemma AddSubWf(t: Tree, ids: seq<string>, s: Sub)
    requires Wf(t, ids) && s.client < |ids|
    ensures Wf(AddSub(t, ids, s), ids) && Rooted(t) && Rooted(AddSub(t, ids, s))
  {
    AddAtWf(t, ids, 0, PathOf(s.filter), s.client, s.qos);
    WfRooted(t, ids);
    WfRooted(AddSub(t, ids, s), ids);
  }

  /** The tree after these subscriptions, in this order. */
  ghost function TreeOf(ids: seq<string>, subs: seq<Sub>): (t: Tree)
    requires Known(ids, subs)
    ensures Wf(t, ids) && Rooted(t)
  {
    if subs == [] then StartWf(ids); START
    else
      var last := |subs| - 1;
      AddSubWf(TreeOf(ids, subs[..last]), ids, subs[last]);
      AddSub(TreeOf(ids, subs[..last]), ids, subs[last])
  }

  lemma {:induction false} TreeWildOk(ids: seq<string>, subs: seq<Sub>)
    requires Known(ids, subs) && ValidFilters(subs)
    ensures WildOk(TreeOf(ids, subs))
    decreases |subs|
  {
    if subs != [] {
      var last := |subs| - 1;
      TreeWildOk(ids, subs[..last]);
      ValidPath(subs[last].filter);
      WildOkKept(TreeOf(ids, subs[..last]), ids, 0, PathOf(subs[last].filter), subs[last].client, subs[last].qos);
    }
  }

  lemma StartWf(ids: seq<string>)
    ensures Wf(START, ids) && Rooted(START)
  {
    assert NodeOk(START, ids, 0) && NodeOk(START, ids, 1);
  }

  /** Client id's subscription to a filter after a history: the QoS of the last one for the pair. */
  predicate LastSub(ids: seq<string>, subs: seq<Sub>, filter: string, id: string, qos: int)
  {
    if subs == [] then false
    else
      var s := subs[|subs| - 1];
      if s.filter == filter && s.client < |ids| && ids[s.client] == id then s.qos == qos
      else LastSub(ids, subs[..|subs| - 1], filter, id, qos)
  }

  /** mqtt3_sub_add is a map update on (filter, client id): this entry is set and every other one is kept. */
  lemma AddSubIsMapUpdate(t: Tree, ids: seq<string>, s: Sub, filter: string, id: string, qos: int)
    requires Wf(t, ids) && s.client < |ids|
    ensures Rooted(t) && Rooted(AddSub(t, ids, s))
    ensures Holds(AddSub(t, ids, s), ids, PathOf(filter), id, qos) <==>
            if filter == s.filter && id == ids[s.client] then qos == s.qos
            else Holds(t, ids, PathOf(filter), id, qos)
  {
    AddSubWf(t, ids, s);
    assert Path(t, 0) + PathOf(s.filter) == PathOf(s.filter);
    AddAtHolds(t, ids, 0, PathOf(s.filter), s.client, s.qos, PathOf(filter), id, qos);
    if PathOf(filter) == PathOf(s.filter) {
      PathOfInjective(filter, s.filter);
    }
  }

  lemma {:induction false} TreeHoldsLastSub(ids: seq<string>, subs: seq<Sub>, filter: string, id: string, qos: int)
    requires Known(ids, subs)
    ensures Holds(TreeOf(ids, subs), ids, PathOf(filter), id, qos) <==> LastSub(ids, subs, filter, id, qos)
    decreases |subs|
  {
    if subs != [] {
      var last := |subs| - 1;
      TreeHoldsLastSub(ids, subs[..last], filter, id, qos);
      AddSubIsMapUpdate(TreeOf(ids, subs[..last]), ids, subs[last], filter, id, qos);
    }
  }

  /** Every leaf stands on the path of a filter somebody subscribed to, for a client with that id. */
  ghost predicate FromSub(ids: seq<string>, subs: seq<Sub>, path: seq<string>, id: string)
  {
    exists k :: 0 <= k < |subs| && subs[k].client < |ids| && PathOf(subs[k].filter) == path && ids[subs[k].client] == id
  }

  lemma {:induction false} LeavesFromSubs(ids: seq<string>, subs: seq<Sub>, path: seq<string>, id: string, qos: int)
    requires Known(ids, subs) && Holds(TreeOf(ids, subs), ids, path, id, qos)
    ensures FromSub(ids, subs, path, id)
    decreases |subs|
  {
    if subs != [] {
      var last := |subs| - 1;
      var s, t := subs[last], TreeOf(ids, subs[..last]);
      assert Path(t, 0) + PathOf(s.filter) == PathOf(s.filter);
      AddAtHolds(t, ids, 0, PathOf(s.filter), s.client, s.qos, path, id, qos);
      if !(path == PathOf(s.filter) && id == ids[s.client]) {
        LeavesFromSubs(ids, subs[..last], path, id, qos);
      }
    }
  }

  // ---------- the main theorem ----------

  /** A leaf stands for the last subscription of its client id to the filter of its path. */
  lemma LeafFilter(ids: seq<string>, history: seq<Sub>, v: nat, i: nat) returns (filter: string)
    requires Known(ids, history)
    requires v < |TreeOf(ids, history)| && i < |TreeOf(ids, history)[v].leaves|
    ensures v > 0 && filter in FiltersOf(history)
    ensures var leaf := TreeOf(ids, history)[v].leaves[i];
            && leaf.client < |ids|
            && LeafHolds(TreeOf(ids, history), ids, PathOf(filter), ids[leaf.client], leaf.qos, v, i)
            && LastSub(ids, history, filter, ids[leaf.client], leaf.qos)
  {
    var t := TreeOf(ids, history);
    var leaf := t[v].leaves[i];
    assert NodeOk(t, ids, v);
    var id := ids[leaf.client];
    assert LeafHolds(t, ids, Path(t, v), id, leaf.qos, v, i);
    LeavesFromSubs(ids, history, Path(t, v), id, leaf.qos);
    var k :| 0 <= k < |history| && history[k].client < |ids| && PathOf(history[k].filter) == Path(t, v);
    filter := history[k].filter;
    TreeHoldsLastSub(ids, history, filter, id, leaf.qos);
  }

  lemma FilterValid(history: seq<Sub>, filter: string)
    requires ValidFilters(history) && filter in FiltersOf(history)
    ensures ValidFilter(filter)
  {
  }

  function FiltersOf(history: seq<Sub>): set<string>
  {
    set k | 0 <= k < |history| :: history[k].filter
  }

  /** After any history of valid subscriptions, a publish on a topic without wildcards calls back the leaf at
      position i of node v once if the filter it stands for matches and its client is subscribed, else never. */
  lemma PublishExactlyOnce(ids: seq<string>, history: seq<Sub>, subs: seq<bool>, topic: string, v: nat, i: nat)
      returns (filter: string)
    requires Known(ids, history) && ValidFilters(history) && WildFree(topic)
    requires v < |TreeOf(ids, history)| && i < |TreeOf(ids, history)[v].leaves|
    ensures var t := TreeOf(ids, history);
            var leaf := t[v].leaves[i];
            && leaf.client < |ids|
            && LeafHolds(t, ids, PathOf(filter), ids[leaf.client], leaf.qos, v, i)
            && LastSub(ids, history, filter, ids[leaf.client], leaf.qos)
            && multiset(Publish(t, subs, topic))[(v, i)] ==
               if FilterMatches(filter, topic) && Subscribed(subs, leaf.client) then 1 else 0
  {
    var t := TreeOf(ids, history);
    filter := LeafFilter(ids, history, v, i);
    FilterValid(history, filter);
    TreeWildOk(ids, history);
    TokensWildFree(topic);
    RootVisitsExact(t, ids, Tokens(topic), v);
    CallsCount(t, subs, RootVisits(t, |t[0].kids|, Tokens(topic)), v, i);
    TokenMatchIsFilterMatch(filter, topic);
  }

  /** The same from the side of the subscriber: each subscription of the history whose filter matches is served
      by one leaf, called back once, and every callback is of a leaf of the tree. */
  lemma PublishServesEverySubscription(ids: seq<string>, history: seq<Sub>, subs: seq<bool>, topic: string,
                                       filter: string, id: string, qos: int)
      returns (v: nat, i: nat)
    requires Known(ids, history) && ValidFilters(history) && WildFree(topic) && LastSub(ids, history, filter, id, qos)
    ensures var t := TreeOf(ids, history);
            && LeafHolds(t, ids, PathOf(filter), id, qos, v, i)
            && multiset(Publish(t, subs, topic))[(v, i)] ==
               if FilterMatches(filter, topic) && Subscribed(subs, t[v].leaves[i].client) then 1 else 0
  {
    var t := TreeOf(ids, history);
    TreeHoldsLastSub(ids, history, filter, id, qos);
    v, i :| LeafHolds(t, ids, PathOf(filter), id, qos, v, i);
    var f := PublishExactlyOnce(ids, history, subs, topic, v, i);
    PathOfInjective(filter, f);
  }

  lemma {:induction false} CallsAreLeaves(t: Tree, subs: seq<bool>, visits: seq<nat>, call: (nat, nat))
    requires call in Calls(t, subs, visits)
    ensures call.0 < |t| && call.1 < |t[call.0].leaves| && Subscribed(subs, t[call.0].leaves[call.1].client)
    decreases |visits|
  {
    if visits[0] < |t| && call in LeafCalls(t, subs, visits[0], 0) {
      LeafCallsAreLeaves(t, subs, visits[0], 0, call);
    } else {
      CallsAreLeaves(t, subs, visits[1..], call);
    }
  }

  lemma {:induction false} LeafCallsAreLeaves(t: Tree, subs: seq<bool>, v: nat, from: nat, call: (nat, nat))
    requires v < |t| && call in LeafCalls(t, subs, v, from)
    ensures call.0 == v && call.1 < |t[v].leaves| && Subscribed(subs, t[v].leaves[call.1].client)
    decreases |t[v].leaves| - from
  {
    if !(call == (v, from) && Subscribed(subs, t[v].leaves[from].client)) {
      LeafCallsAreLeaves(t, subs, v, from + 1, call);
    }
  }
}
