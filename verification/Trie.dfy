/** The subscription tree as a value. Node 0 is the root and a node's number is its order of creation,
    so a child always has a larger number than its parent and every list of children is increasing. */
module Trie {
  import opened Topics

  /** One subscription: whose it is (a slot of the broker's client array) and the granted QoS. */
  datatype Leaf = Leaf(client: nat, qos: int)

  datatype Node = Node(topic: string, parent: nat, kids: seq<nat>, leaves: seq<Leaf>)

  type Tree = seq<Node>

  /** What init_database leaves: a root with one child for the level "" (broker/broker.c:181-196). */
  const START: Tree := [Node("", 0, [1], []), Node("", 0, [], [])]

  // ---------- well-formed trees ----------

  predicate KidOk(t: Tree, n: nat, k: nat)
    requires n < |t|
  {
    n < k < |t| && t[k].parent == n
  }

  /** Children are later nodes that point back, in creation order, and no two share a topic level. */
  predicate KidsOk(t: Tree, n: nat)
    requires n < |t|
  {
    && (forall i | 0 <= i < |t[n].kids| :: KidOk(t, n, t[n].kids[i]))
    && (forall i, j | 0 <= i < j < |t[n].kids| :: t[n].kids[i] < t[n].kids[j])
    && (forall i, j | 0 <= i < j < |t[n].kids| :: t[t[n].kids[i]].topic != t[t[n].kids[j]].topic)
  }

  /** At most one leaf for a client id. */
  predicate LeavesOk(ids: seq<string>, leaves: seq<Leaf>)
  {
    && (forall i | 0 <= i < |leaves| :: leaves[i].client < |ids|)
    && (forall i, j | 0 <= i < j < |leaves| :: ids[leaves[i].client] != ids[leaves[j].client])
  }

  predicate NodeOk(t: Tree, ids: seq<string>, n: nat)
    requires n < |t|
  {
    && (n > 0 ==> t[n].parent < n && n in t[t[n].parent].kids)
    && KidsOk(t, n)
    && LeavesOk(ids, t[n].leaves)
  }

  ghost predicate Wf(t: Tree, ids: seq<string>)
  {
    |t| > 0 && t[0].topic == "" && forall n: nat | n < |t| :: NodeOk(t, ids, n)
  }

  /** Wildcards fill whole levels and nothing hangs below a '#': true of trees built from valid filters (WildOkKept),
      and what the search's test for a childless '#' relies on. */
  ghost predicate WildOk(t: Tree)
  {
    forall n: nat | n < |t| :: LevelOk(t[n].topic) && (t[n].topic == "#" ==> t[n].kids == [])
  }

  // ---------- paths ----------

  predicate Rooted(t: Tree)
  {
    |t| > 0 && forall n | 0 < n < |t| :: t[n].parent < n
  }

  function Path(t: Tree, n: nat): (path: seq<string>)
    requires Rooted(t) && n < |t|
    ensures n == 0 <==> path == []
  {
    if n == 0 then [] else Path(t, t[n].parent) + [t[n].topic]
  }

  lemma WfRooted(t: Tree, ids: seq<string>)
    requires Wf(t, ids)
    ensures Rooted(t)
  {
    forall n | 0 < n < |t| ensures t[n].parent < n {
      assert NodeOk(t, ids, n);
    }
  }

  lemma KidTopicsDiffer(t: Tree, ids: seq<string>, n: nat, a: nat, b: nat)
    requires Wf(t, ids) && n < |t| && a in t[n].kids && b in t[n].kids
    requires a < |t| && b < |t| && t[a].topic == t[b].topic
    ensures a == b
  {
    assert NodeOk(t, ids, n);
    var i :| 0 <= i < |t[n].kids| && t[n].kids[i] == a;
    var j :| 0 <= j < |t[n].kids| && t[n].kids[j] == b;
  }

  lemma {:induction false} PathInjective(t: Tree, ids: seq<string>, a: nat, b: nat)
    requires Wf(t, ids) && Rooted(t) && a < |t| && b < |t|
    requires Path(t, a) == Path(t, b)
    ensures a == b
    decreases a
  {
    if a != 0 && b != 0 {
      var pa, pb := t[a].parent, t[b].parent;
      assert Path(t, pa) == Path(t, a)[..|Path(t, a)| - 1];
      assert Path(t, pb) == Path(t, b)[..|Path(t, b)| - 1];
      PathInjective(t, ids, pa, pb);
      assert NodeOk(t, ids, a) && NodeOk(t, ids, b);
      KidTopicsDiffer(t, ids, pa, a, b);
    }
  }

  /** The path of a node is then a list of levels a valid filter may have. */
  lemma {:induction false} PathValid(t: Tree, ids: seq<string>, v: nat)
    requires Wf(t, ids) && Rooted(t) && WildOk(t) && v < |t|
    ensures ValidLevels(Path(t, v))
    decreases v
  {
    if v != 0 {
      PathValid(t, ids, t[v].parent);
      assert NodeOk(t, ids, v);
    }
  }

  // ---------- the three writes that change a tree ----------

  function LinkChild(t: Tree, n: nat, topic: string): (t': Tree)
    requires n < |t|
  {
    t[n := t[n].(kids := t[n].kids + [|t|])] + [Node(topic, n, [], [])]
  }

  function LinkLeaf(t: Tree, n: nat, leaf: Leaf): (t': Tree)
    requires n < |t|
  {
    t[n := t[n].(leaves := t[n].leaves + [leaf])]
  }

  function SetQos(t: Tree, n: nat, i: nat, qos: int): (t': Tree)
    requires n < |t| && i < |t[n].leaves|
  {
    t[n := t[n].(leaves := t[n].leaves[i := t[n].leaves[i].(qos := qos)])]
  }

  predicate HasKid(t: Tree, n: nat, topic: string)
    requires n < |t|
  {
    exists i | 0 <= i < |t[n].kids| :: t[n].kids[i] < |t| && t[t[n].kids[i]].topic == topic
  }

  /** No child of n between two places of its list has this topic level. */
  predicate NoneNamed(t: Tree, n: nat, lo: nat, hi: nat, topic: string)
    requires n < |t|
  {
    hi <= |t[n].kids| && forall i | lo <= i < hi :: t[n].kids[i] < |t| && t[t[n].kids[i]].topic != topic
  }

  ghost function KidNamed(t: Tree, n: nat, topic: string): (k: nat)
    requires n < |t| && HasKid(t, n, topic)
    ensures k in t[n].kids && k < |t| && t[k].topic == topic
  {
    var i :| 0 <= i < |t[n].kids| && t[n].kids[i] < |t| && t[t[n].kids[i]].topic == topic;
    t[n].kids[i]
  }

  predicate IsLeafOf(ids: seq<string>, leaves: seq<Leaf>, id: string, i: nat)
  {
    i < |leaves| && leaves[i].client < |ids| && ids[leaves[i].client] == id
  }

  /** Where mqtt3_sub_add may link a child, and what the child may be called. */
  predicate CanLinkChild(t: Tree, n: nat, topic: string)
  {
    n < |t| && !HasKid(t, n, topic)
  }

  predicate CanLinkLeaf(t: Tree, ids: seq<string>, n: nat, leaf: Leaf)
  {
    && n < |t|
    && leaf.client < |ids|
    && forall i: nat | i < |t[n].leaves| :: !IsLeafOf(ids, t[n].leaves, ids[leaf.client], i)
  }

  lemma LinkChildWf(t: Tree, ids: seq<string>, n: nat, topic: string)
    requires Wf(t, ids) && CanLinkChild(t, n, topic)
    ensures Wf(LinkChild(t, n, topic), ids)
  {
    var t' := LinkChild(t, n, topic);
    forall m: nat | m < |t'| ensures NodeOk(t', ids, m) {
      if m < |t| {
        assert NodeOk(t, ids, m);
        if m > 0 && t[m].parent == n {
          assert t'[n].kids[..|t[n].kids|] == t[n].kids;
        }
        LinkChildKids(t, ids, n, topic, m);
      } else {
        assert t'[n].kids[|t[n].kids|] == m;
      }
    }
  }

  lemma LinkChildKids(t: Tree, ids: seq<string>, n: nat, topic: string, m: nat)
    requires Wf(t, ids) && CanLinkChild(t, n, topic) && m < |t|
    ensures KidsOk(LinkChild(t, n, topic), m)
  {
    var t' := LinkChild(t, n, topic);
    assert NodeOk(t, ids, m);
    forall i | 0 <= i < |t'[m].kids| ensures KidOk(t', m, t'[m].kids[i]) {
      if i < |t[m].kids| {
        assert KidOk(t, m, t[m].kids[i]);
      }
    }
    forall i, j | 0 <= i < j < |t'[m].kids|
      ensures t'[m].kids[i] < t'[m].kids[j] && t'[t'[m].kids[i]].topic != t'[t'[m].kids[j]].topic
    {
      assert KidOk(t, m, t[m].kids[i]);
      if j < |t[m].kids| {
        assert KidOk(t, m, t[m].kids[j]);
      }
    }
  }

  /** A write that touches only the leaves of one node. */
  predicate OnlyLeaves(t: Tree, t': Tree, n: nat)
  {
    && n < |t| == |t'|
    && t' == t[n := t[n].(leaves := t'[n].leaves)]
  }

  lemma LeavesWf(t: Tree, t': Tree, ids: seq<string>, n: nat)
    requires Wf(t, ids) && OnlyLeaves(t, t', n) && LeavesOk(ids, t'[n].leaves)
    ensures Wf(t', ids)
  {
    forall m: nat | m < |t'| ensures NodeOk(t', ids, m) {
      assert NodeOk(t, ids, m);
      forall i | 0 <= i < |t'[m].kids| ensures KidOk(t', m, t'[m].kids[i]) {
        assert KidOk(t, m, t[m].kids[i]);
      }
    }
  }

  lemma LinkLeafWf(t: Tree, ids: seq<string>, n: nat, leaf: Leaf)
    requires Wf(t, ids) && CanLinkLeaf(t, ids, n, leaf)
    ensures Wf(LinkLeaf(t, n, leaf), ids)
  {
    assert NodeOk(t, ids, n);
    forall i | 0 <= i < |t[n].leaves| ensures ids[t[n].leaves[i].client] != ids[leaf.client] {
      assert !IsLeafOf(ids, t[n].leaves, ids[leaf.client], i);
    }
    LeavesWf(t, LinkLeaf(t, n, leaf), ids, n);
  }

  lemma {:induction false} PathKept(t: Tree, t': Tree, v: nat)
    requires Rooted(t) && Rooted(t') && v < |t| <= |t'|
    requires forall m: nat | m < |t| :: t'[m].topic == t[m].topic && t'[m].parent == t[m].parent
    ensures Path(t', v) == Path(t, v)
  {
    if v != 0 {
      PathKept(t, t', t[v].parent);
    }
  }

  // ---------- adding a subscription ----------

  ghost predicate HasLeaf(ids: seq<string>, leaves: seq<Leaf>, id: string)
  {
    exists i: nat :: IsLeafOf(ids, leaves, id, i)
  }

  /** The end of the descent: an existing leaf of the client id gets the new QoS, else a leaf is linked. */
  ghost function PutLeaf(t: Tree, ids: seq<string>, n: nat, client: nat, qos: int): Tree
    requires n < |t| && client < |ids|
  {
    if HasLeaf(ids, t[n].leaves, ids[client]) then
      var i: nat :| IsLeafOf(ids, t[n].leaves, ids[client], i);
      SetQos(t, n, i, qos)
    else
      LinkLeaf(t, n, Leaf(client, qos))
  }

  /** What _sub_add does below node n. */
  ghost function AddAt(t: Tree, ids: seq<string>, n: nat, tokens: seq<string>, client: nat, qos: int): Tree
    requires n < |t| && client < |ids|
    decreases |tokens|
  {
    if tokens == [] then
      PutLeaf(t, ids, n, client, qos)
    else if HasKid(t, n, tokens[0]) then
      AddAt(t, ids, KidNamed(t, n, tokens[0]), tokens[1..], client, qos)
    else
      AddAt(LinkChild(t, n, tokens[0]), ids, |t|, tokens[1..], client, qos)
  }

  lemma PutLeafWf(t: Tree, ids: seq<string>, n: nat, client: nat, qos: int)
    requires Wf(t, ids) && n < |t| && client < |ids|
    ensures Wf(PutLeaf(t, ids, n, client, qos), ids)
    ensures OnlyLeaves(t, PutLeaf(t, ids, n, client, qos), n)
  {
    assert NodeOk(t, ids, n);
    if HasLeaf(ids, t[n].leaves, ids[client]) {
      LeavesWf(t, PutLeaf(t, ids, n, client, qos), ids, n);
    } else {
      LinkLeafWf(t, ids, n, Leaf(client, qos));
    }
  }

  lemma {:induction false} AddAtWf(t: Tree, ids: seq<string>, n: nat, tokens: seq<string>, client: nat, qos: int)
    requires Wf(t, ids) && n < |t| && client < |ids|
    ensures Wf(AddAt(t, ids, n, tokens, client, qos), ids)
    decreases |tokens|
  {
    if tokens == [] {
      PutLeafWf(t, ids, n, client, qos);
    } else if HasKid(t, n, tokens[0]) {
      AddAtWf(t, ids, KidNamed(t, n, tokens[0]), tokens[1..], client, qos);
    } else {
      LinkChildWf(t, ids, n, tokens[0]);
      AddAtWf(LinkChild(t, n, tokens[0]), ids, |t|, tokens[1..], client, qos);
    }
  }

  /** Adding a valid list of levels never hangs anything below a '#'. */
  lemma {:induction false} WildOkKept(t: Tree, ids: seq<string>, n: nat, tokens: seq<string>, client: nat, qos: int)
    requires Wf(t, ids) && WildOk(t) && n < |t| && client < |ids|
    requires ValidLevels(tokens) && (t[n].topic == "#" ==> tokens == [])
    ensures WildOk(AddAt(t, ids, n, tokens, client, qos))
    decreases |tokens|
  {
    if tokens == [] {
      PutLeafWf(t, ids, n, client, qos);
    } else {
      assert tokens == [tokens[0]] + tokens[1..];
      ValidLevelsCons(tokens[0], tokens[1..]);
      if HasKid(t, n, tokens[0]) {
        WildOkKept(t, ids, KidNamed(t, n, tokens[0]), tokens[1..], client, qos);
      } else {
        LinkChildWf(t, ids, n, tokens[0]);
        WildOkKept(LinkChild(t, n, tokens[0]), ids, |t|, tokens[1..], client, qos);
      }
    }
  }

  /** The node at which that descent ends. */
  ghost function EndOf(t: Tree, n: nat, tokens: seq<string>): (end: nat)
    requires n < |t|
    ensures end < |t| + |tokens|
    decreases |tokens|
  {
    if tokens == [] then n
    else if HasKid(t, n, tokens[0]) then EndOf(t, KidNamed(t, n, tokens[0]), tokens[1..])
    else EndOf(LinkChild(t, n, tokens[0]), |t|, tokens[1..])
  }

  lemma {:induction false} EndOfPath(t: Tree, ids: seq<string>, n: nat, tokens: seq<string>, client: nat, qos: int)
    requires Wf(t, ids) && Rooted(t) && n < |t| && client < |ids| && Rooted(AddAt(t, ids, n, tokens, client, qos))
    ensures var t', end := AddAt(t, ids, n, tokens, client, qos), EndOf(t, n, tokens);
            end < |t'| && Path(t', end) == Path(t, n) + tokens
    decreases |tokens|
  {
    if tokens == [] {
      PutLeafWf(t, ids, n, client, qos);
      PathKept(t, PutLeaf(t, ids, n, client, qos), n);
    } else {
      assert Path(t, n) + tokens == (Path(t, n) + [tokens[0]]) + tokens[1..];
      if HasKid(t, n, tokens[0]) {
        var k := KidNamed(t, n, tokens[0]);
        assert NodeOk(t, ids, n) && Path(t, k) == Path(t, n) + [tokens[0]];
        EndOfPath(t, ids, k, tokens[1..], client, qos);
      } else {
        var u := LinkChild(t, n, tokens[0]);
        LinkChildWf(t, ids, n, tokens[0]);
        WfRooted(u, ids);
        PathKept(t, u, n);
        assert Path(u, |t|) == Path(t, n) + [tokens[0]];
        EndOfPath(u, ids, |t|, tokens[1..], client, qos);
      }
    }
  }

  /** The id has a leaf at this node, if there is such a node. */
  ghost predicate HadLeaf(t: Tree, ids: seq<string>, n: nat, id: string)
  {
    n < |t| && HasLeaf(ids, t[n].leaves, id)
  }

  // ---------- the tree as a map from (path, client id) to QoS ----------

  predicate LeafHolds(t: Tree, ids: seq<string>, path: seq<string>, id: string, qos: int, v: nat, i: nat)
    requires Rooted(t)
  {
    v < |t| && IsLeafOf(ids, t[v].leaves, id, i) && Path(t, v) == path && t[v].leaves[i].qos == qos
  }

  /** Client id subscribes at path with this QoS. */
  ghost predicate Holds(t: Tree, ids: seq<string>, path: seq<string>, id: string, qos: int)
    requires Rooted(t)
  {
    exists v: nat, i: nat :: LeafHolds(t, ids, path, id, qos, v, i)
  }

  /** The relation is a function of (path, client id), and one leaf stands for each entry. */
  lemma HoldsUnique(t: Tree, ids: seq<string>, path: seq<string>, id: string,
                    q: int, v: nat, i: nat, q': int, v': nat, i': nat)
    requires Wf(t, ids) && Rooted(t)
    requires LeafHolds(t, ids, path, id, q, v, i) && LeafHolds(t, ids, path, id, q', v', i')
    ensures v == v' && i == i' && q == q'
  {
    PathInjective(t, ids, v, v');
    assert NodeOk(t, ids, v);
  }

  lemma LinkChildHolds(t: Tree, ids: seq<string>, n: nat, topic: string, path: seq<string>, id: string, qos: int)
    requires Wf(t, ids) && CanLinkChild(t, n, topic) && Rooted(t) && Rooted(LinkChild(t, n, topic))
    ensures Holds(LinkChild(t, n, topic), ids, path, id, qos) <==> Holds(t, ids, path, id, qos)
  {
    var t' := LinkChild(t, n, topic);
    forall v: nat, i: nat
      ensures LeafHolds(t', ids, path, id, qos, v, i) <==> LeafHolds(t, ids, path, id, qos, v, i)
    {
      if v < |t| {
        PathKept(t, t', v);
      }
    }
  }

  lemma PutLeafHolds(t: Tree, ids: seq<string>, n: nat, client: nat, q: int, path: seq<string>, id: string, qos: int)
    requires Wf(t, ids) && n < |t| && client < |ids| && Rooted(t) && Rooted(PutLeaf(t, ids, n, client, q))
    ensures Holds(PutLeaf(t, ids, n, client, q), ids, path, id, qos) <==>
            if path == Path(t, n) && id == ids[client] then qos == q else Holds(t, ids, path, id, qos)
  {
    var t' := PutLeaf(t, ids, n, client, q);
    PutLeafWf(t, ids, n, client, q);
    forall v: nat | v < |t| ensures Path(t', v) == Path(t, v) {
      PathKept(t, t', v);
    }
    var mine := path == Path(t, n) && id == ids[client];
    var i := PutLeafAt(t, ids, n, client, q);
    assert LeafHolds(t', ids, Path(t, n), ids[client], q, n, i);
    if mine && Holds(t', ids, path, id, qos) {
      var w: nat, j: nat :| LeafHolds(t', ids, path, id, qos, w, j);
      HoldsUnique(t', ids, path, id, q, n, i, qos, w, j);
    }
    if !mine {
      forall w: nat, j: nat
        ensures LeafHolds(t', ids, path, id, qos, w, j) <==> LeafHolds(t, ids, path, id, qos, w, j)
      {
        if w == n && j != i && j < |t[n].leaves| {
          assert t'[n].leaves[j] == t[n].leaves[j];
          assert IsLeafOf(ids, t'[n].leaves, id, j) <==> IsLeafOf(ids, t[n].leaves, id, j);
        }
      }
    }
  }

  /** The leaf that an add leaves behind, and what it does to the list. */
  lemma PutLeafAt(t: Tree, ids: seq<string>, n: nat, client: nat, qos: int) returns (i: nat)
    requires Wf(t, ids) && n < |t| && client < |ids|
    ensures i <= |t[n].leaves|
    ensures i < |t[n].leaves| ==> PutLeaf(t, ids, n, client, qos) == SetQos(t, n, i, qos)
    ensures i == |t[n].leaves| ==> PutLeaf(t, ids, n, client, qos) == LinkLeaf(t, n, Leaf(client, qos))
    ensures IsLeafOf(ids, PutLeaf(t, ids, n, client, qos)[n].leaves, ids[client], i)
  {
    assert NodeOk(t, ids, n);
    if HasLeaf(ids, t[n].leaves, ids[client]) {
      i :| IsLeafOf(ids, t[n].leaves, ids[client], i);
    } else {
      i := |t[n].leaves|;
    }
  }

  /** Which of the two it is, once the id's leaf is found or known to be absent. */
  lemma PutLeafCases(t: Tree, ids: seq<string>, n: nat, client: nat, qos: int, i: nat)
    requires Wf(t, ids) && n < |t| && client < |ids|
    ensures IsLeafOf(ids, t[n].leaves, ids[client], i) ==>
              PutLeaf(t, ids, n, client, qos) == SetQos(t, n, i, qos)
    ensures CanLinkLeaf(t, ids, n, Leaf(client, qos)) ==>
              PutLeaf(t, ids, n, client, qos) == LinkLeaf(t, n, Leaf(client, qos))
  {
    assert NodeOk(t, ids, n);
    var j := PutLeafAt(t, ids, n, client, qos);
    if HasLeaf(ids, t[n].leaves, ids[client]) {
      var k: nat :| IsLeafOf(ids, t[n].leaves, ids[client], k);
    }
  }

  /** One descent sets exactly one entry of the map. */
  lemma {:induction false} AddAtHolds(t: Tree, ids: seq<string>, n: nat, tokens: seq<string>, client: nat, q: int,
                                      path: seq<string>, id: string, qos: int)
    requires Wf(t, ids) && n < |t| && client < |ids|
    requires Rooted(t) && Rooted(AddAt(t, ids, n, tokens, client, q))
    ensures Holds(AddAt(t, ids, n, tokens, client, q), ids, path, id, qos) <==>
            if path == Path(t, n) + tokens && id == ids[client] then qos == q else Holds(t, ids, path, id, qos)
    decreases |tokens|
  {
    if tokens == [] {
      assert Path(t, n) + tokens == Path(t, n);
      PutLeafHolds(t, ids, n, client, q, path, id, qos);
    } else {
      assert Path(t, n) + tokens == (Path(t, n) + [tokens[0]]) + tokens[1..];
      if HasKid(t, n, tokens[0]) {
        var k := KidNamed(t, n, tokens[0]);
        assert NodeOk(t, ids, n) && Path(t, k) == Path(t, n) + [tokens[0]];
        AddAtHolds(t, ids, k, tokens[1..], client, q, path, id, qos);
      } else {
        var u := LinkChild(t, n, tokens[0]);
        LinkChildWf(t, ids, n, tokens[0]);
        WfRooted(u, ids);
        PathKept(t, u, n);
        assert Path(u, |t|) == Path(t, n) + [tokens[0]];
        AddAtHolds(u, ids, |t|, tokens[1..], client, q, path, id, qos);
        LinkChildHolds(t, ids, n, tokens[0], path, id, qos);
      }
    }
  }

  /** The leaf stood there before, for the same client. */
  predicate WasLeaf(t: Tree, t': Tree, v: nat, i: nat)
    requires Rooted(t) && Rooted(t') && v < |t'| && i < |t'[v].leaves|
  {
    && v < |t| && i < |t[v].leaves|
    && t[v].leaves[i].client == t'[v].leaves[i].client && Path(t, v) == Path(t', v)
  }

  /** Nobody with this id has a leaf at this path. */
  ghost predicate NoneHolds(t: Tree, ids: seq<string>, path: seq<string>, id: string)
    requires Rooted(t)
  {
    forall qos :: !Holds(t, ids, path, id, qos)
  }

  /** An add links at most one leaf, at the end of its path, for its own client, and only where the id has none. */
  ghost predicate JustLinked(t: Tree, t': Tree, ids: seq<string>, path: seq<string>, client: nat, v: nat, i: nat)
    requires Rooted(t) && Rooted(t') && v < |t'| && i < |t'[v].leaves| && client < |ids|
  {
    t'[v].leaves[i].client == client && Path(t', v) == path && NoneHolds(t, ids, path, ids[client])
  }

  lemma PutLeafLeaf(t: Tree, ids: seq<string>, n: nat, client: nat, q: int, v: nat, i: nat)
    requires Wf(t, ids) && Rooted(t) && n < |t| && client < |ids| && Rooted(PutLeaf(t, ids, n, client, q))
    requires v < |PutLeaf(t, ids, n, client, q)| && i < |PutLeaf(t, ids, n, client, q)[v].leaves|
    ensures WasLeaf(t, PutLeaf(t, ids, n, client, q), v, i)
         || JustLinked(t, PutLeaf(t, ids, n, client, q), ids, Path(t, n), client, v, i)
  {
    var t' := PutLeaf(t, ids, n, client, q);
    PutLeafWf(t, ids, n, client, q);
    PathKept(t, t', v);
    if !HasLeaf(ids, t[n].leaves, ids[client]) && v == n && i == |t[n].leaves| {
      forall qos, w: nat, j: nat ensures !LeafHolds(t, ids, Path(t, n), ids[client], qos, w, j) {
        if w < |t| && Path(t, w) == Path(t, n) {
          PathInjective(t, ids, w, n);
        }
      }
    }
  }

  lemma {:induction false} AddAtLeaf(t: Tree, ids: seq<string>, n: nat, tokens: seq<string>, client: nat, q: int, v: nat, i: nat)
    requires Wf(t, ids) && Rooted(t) && n < |t| && client < |ids| && Rooted(AddAt(t, ids, n, tokens, client, q))
    requires v < |AddAt(t, ids, n, tokens, client, q)| && i < |AddAt(t, ids, n, tokens, client, q)[v].leaves|
    ensures WasLeaf(t, AddAt(t, ids, n, tokens, client, q), v, i)
         || JustLinked(t, AddAt(t, ids, n, tokens, client, q), ids, Path(t, n) + tokens, client, v, i)
    decreases |tokens|
  {
    if tokens == [] {
      assert Path(t, n) + tokens == Path(t, n);
      PutLeafLeaf(t, ids, n, client, q, v, i);
    } else {
      assert Path(t, n) + tokens == (Path(t, n) + [tokens[0]]) + tokens[1..];
      if HasKid(t, n, tokens[0]) {
        var k := KidNamed(t, n, tokens[0]);
        assert NodeOk(t, ids, n) && Path(t, k) == Path(t, n) + [tokens[0]];
        AddAtLeaf(t, ids, k, tokens[1..], client, q, v, i);
      } else {
        var u := LinkChild(t, n, tokens[0]);
        LinkChildWf(t, ids, n, tokens[0]);
        WfRooted(u, ids);
        PathKept(t, u, n);
        assert Path(u, |t|) == Path(t, n) + [tokens[0]];
        AddAtLeaf(u, ids, |t|, tokens[1..], client, q, v, i);
        LinkChildLeaf(t, ids, n, tokens[0], AddAt(u, ids, |t|, tokens[1..], client, q), Path(t, n) + tokens, client, v, i);
      }
    }
  }

  /** A new node has no leaves yet. */
  lemma LinkChildLeaf(t: Tree, ids: seq<string>, n: nat, topic: string, t': Tree, path: seq<string>, client: nat, v: nat, i: nat)
    requires Wf(t, ids) && CanLinkChild(t, n, topic) && Rooted(t) && Rooted(LinkChild(t, n, topic)) && Rooted(t')
    requires v < |t'| && i < |t'[v].leaves| && client < |ids|
    ensures WasLeaf(LinkChild(t, n, topic), t', v, i) ==> WasLeaf(t, t', v, i)
    ensures JustLinked(LinkChild(t, n, topic), t', ids, path, client, v, i) ==> JustLinked(t, t', ids, path, client, v, i)
  {
    if v < |t| {
      PathKept(t, LinkChild(t, n, topic), v);
    }
    forall qos ensures Holds(t, ids, path, ids[client], qos) ==> Holds(LinkChild(t, n, topic), ids, path, ids[client], qos) {
      LinkChildHolds(t, ids, n, topic, path, ids[client], qos);
    }
  }
}
